/** Reassembling whole messages from a byte stream that arrives in arbitrary chunks. */
module Framing {
  import opened Wire
  import opened Codec

  const MAX_MESSAGE_SIZE: nat := 65536

  /** The frame length a leading byte announces, unless unknown or over the cap. */
  function AnnouncedLength(b: u8): Option<nat> {
    if FrameLength(b).None? || FrameLength(b).value > MAX_MESSAGE_SIZE then None else FrameLength(b)
  }

  /** What a byte stream means: its messages, whether it is malformed, and the partial frame at its end. */
  datatype Parsed = Parsed(messages: seq<Message>, closed: bool, rest: seq<u8>)

  function Parse(b: seq<u8>): Parsed
    decreases |b|
  {
    if b == [] then Parsed([], false, [])
    else if AnnouncedLength(b[0]).None? then Parsed([], true, [])
    else
      var n := AnnouncedLength(b[0]).value;
      if |b| < n then Parsed([], false, b)
      else if Decode(b[..n]).Err? then Parsed([], true, [])
      else
        var p := Parse(b[n..]);
        p.(messages := [Decode(b[..n]).value] + p.messages)
  }

  function Before(done: seq<Message>, p: Parsed): Parsed {
    p.(messages := done + p.messages)
  }

  /** A complete leading frame is delivered, or closes the stream. */
  lemma ParseFrame(b: seq<u8>, n: nat)
    requires b != [] && AnnouncedLength(b[0]) == Some(n) && n <= |b|
    ensures Parse(b)
         == if Decode(b[..n]).Err? then Parsed([], true, []) else Before([Decode(b[..n]).value], Parse(b[n..]))
  {
  }

  lemma ParseUnknown(b: seq<u8>)
    requires b != [] && AnnouncedLength(b[0]).None?
    ensures Parse(b) == Parsed([], true, [])
  {
  }

  lemma ParsePartial(b: seq<u8>)
    requires b == [] || (AnnouncedLength(b[0]).Some? && |b| < AnnouncedLength(b[0]).value)
    ensures Parse(b) == Parsed([], false, b)
  {
  }

  lemma BeforeTwice(a: seq<Message>, b: seq<Message>, p: Parsed)
    ensures Before(a, Before(b, p)) == Before(a + b, p) && Before([], p) == p
  {
    assert a + (b + p.messages) == a + b + p.messages && [] + p.messages == p.messages;
  }

  /** Parsing a longer stream resumes where the shorter one stopped. */
  lemma {:induction false} ParseAppend(a: seq<u8>, b: seq<u8>)
    ensures Parse(a).closed ==> Parse(a + b) == Parse(a)
    ensures !Parse(a).closed ==> Parse(a + b) == Before(Parse(a).messages, Parse(Parse(a).rest + b))
    decreases |a|
  {
    hide Decode;
    hide Parse;
    if a != [] && AnnouncedLength(a[0]).None? {
      ParseUnknown(a);
      ParseUnknown(a + b);
    } else if a == [] || |a| < AnnouncedLength(a[0]).value {
      ParsePartial(a);
      BeforeTwice([], [], Parse(a + b));
    } else {
      var n := AnnouncedLength(a[0]).value;
      assert (a + b)[..n] == a[..n] && (a + b)[n..] == a[n..] + b;
      ParseFrame(a, n);
      ParseFrame(a + b, n);
      ParseAppend(a[n..], b);
      if Decode(a[..n]).Ok? {
        BeforeTwice([Decode(a[..n]).value], Parse(a[n..]).messages, Parse(Parse(a[n..]).rest + b));
      }
    }
  }

  /** While open, what is retained is less than one frame and starts a known one. */
  lemma {:induction false} ParseRest(b: seq<u8>)
    ensures var p := Parse(b); !p.closed ==>
      p.rest == [] || (AnnouncedLength(p.rest[0]).Some? && |p.rest| < AnnouncedLength(p.rest[0]).value)
    ensures Parse(b).closed ==> Parse(b).rest == []
    decreases |b|
  {
    if b != [] && AnnouncedLength(b[0]).Some? && |b| >= AnnouncedLength(b[0]).value {
      ParseRest(b[AnnouncedLength(b[0]).value..]);
    }
  }

  function Stream(ms: seq<Message>): seq<u8> {
    if ms == [] then [] else Encoded(ms[0]) + Stream(ms[1..])
  }

  lemma FrameAnnounced(m: Message)
    ensures AnnouncedLength(TypeByte(m)) == Some(Length(m)) && Length(m) > 0
  {
  }

  /** The frame of an in-range message in front of a stream is delivered first. */
  lemma FrameRoundTrip(m: Message, rest: seq<u8>)
    requires BadField(m).None?
    ensures Parse(Encoded(m) + rest) == Before([m], Parse(rest))
  {
    hide Decode;
    hide Encoded;
    hide Parse;
    hide AnnouncedLength;
    hide Length;
    var b, n := Encoded(m) + rest, Length(m);
    FrameAnnounced(m);
    DecodeEncoded(m);
    assert b[..n] == Encoded(m) && b[n..] == rest;
    ParseFrame(b, n);
  }

  /** The byte stream of any in-range messages parses back to exactly those messages. */
  lemma {:induction false} StreamRoundTrip(ms: seq<Message>)
    requires forall i :: 0 <= i < |ms| ==> BadField(ms[i]).None?
    ensures Parse(Stream(ms)) == Parsed(ms, false, [])
  {
    hide Encoded;
    hide Parse;
    hide BadField;
    if ms == [] {
      ParsePartial([]);
    } else {
      StreamRoundTrip(ms[1..]);
      FrameRoundTrip(ms[0], Stream(ms[1..]));
      assert [ms[0]] + ms[1..] == ms;
    }
  }

  // ---- Feeding chunk by chunk ---------------------------------------------

  /** One read: nothing once closed, otherwise parse the retained bytes followed by the chunk. */
  function Feed(p: Parsed, chunk: seq<u8>): Parsed {
    if p.closed then p else Before(p.messages, Parse(p.rest + chunk))
  }

  function FeedAll(p: Parsed, chunks: seq<seq<u8>>): Parsed
    decreases |chunks|
  {
    if chunks == [] then p else FeedAll(Feed(p, chunks[0]), chunks[1..])
  }

  function Concat(chunks: seq<seq<u8>>): seq<u8> {
    if chunks == [] then [] else chunks[0] + Concat(chunks[1..])
  }

  /** Feeding any split of a stream, after any prefix, is parsing the whole stream at once. */
  lemma {:induction false} ChunksDoNotMatter(before: seq<u8>, chunks: seq<seq<u8>>)
    ensures FeedAll(Parse(before), chunks) == Parse(before + Concat(chunks))
    decreases |chunks|
  {
    hide Parse;
    if chunks == [] {
      assert before + [] == before;
    } else {
      ParseAppend(before, chunks[0]);
      ChunksDoNotMatter(before + chunks[0], chunks[1..]);
      assert before + chunks[0] + Concat(chunks[1..]) == before + Concat(chunks);
    }
  }

  /** Two splits of the same stream deliver the same messages and leave the framer in the same state. */
  lemma SplitsAgree(a: seq<seq<u8>>, b: seq<seq<u8>>)
    requires Concat(a) == Concat(b)
    ensures FeedAll(Parsed([], false, []), a) == FeedAll(Parsed([], false, []), b)
  {
    assert [] + Concat(a) == Concat(a) && [] + Concat(b) == Concat(b);
    ChunksDoNotMatter([], a);
    ChunksDoNotMatter([], b);
  }

  // ---- The framing buffer --------------------------------------------------

  class FrameBuffer {
    const buf: array<u8>
    var len: nat
    var closed: bool

    /** While open, the buffer holds strictly less than one frame of a known type. */
    ghost predicate Valid()
      reads this, buf
    {
      && buf.Length == MAX_MESSAGE_SIZE && len <= buf.Length
      && (!closed && len > 0 ==> AnnouncedLength(buf[0]).Some? && len < AnnouncedLength(buf[0]).value)
    }

    ghost function Retained(): seq<u8>
      reads this, buf
    {
      if len <= buf.Length then buf[..len] else []
    }

    constructor ()
      ensures Valid() && fresh(buf) && !closed && Retained() == []
    {
      buf := new u8[MAX_MESSAGE_SIZE](_ => 0);
      len, closed := 0, false;
    }

    /** Copy n bytes of the chunk behind the retained ones. */
    method Keep(chunk: seq<u8>, off: nat, n: nat)
      requires off + n <= |chunk| && len + n <= buf.Length
      modifies this`len, buf
      ensures len == old(len) + n && buf[..len] == old(buf[..len]) + chunk[off..off + n]
    {
      forall i | 0 <= i < n {
        buf[len + i] := chunk[off + i];
      }
      len := len + n;
    }

    /** Complete a retained partial frame from the chunk; false when the frame does not decode. */
    method Complete(chunk: seq<u8>) returns (delivered: seq<Message>, off: nat, ok: bool)
      requires Valid() && !closed && len > 0
      modifies this`len, buf
      ensures off <= |chunk| && len <= buf.Length == MAX_MESSAGE_SIZE
      ensures !ok ==> Parse(old(Retained()) + chunk) == Parsed([], true, [])
      ensures ok ==> Valid() && Parse(old(Retained()) + chunk) == Before(delivered, Parse(Retained() + chunk[off..]))
      ensures ok ==> len == 0 || off == |chunk|
    {
      hide Decode;
      ghost var all := Retained() + chunk;
      var needed := AnnouncedLength(buf[0]).value;
      var take := Min(needed - len, |chunk|);
      Keep(chunk, 0, take);
      off, delivered, ok := take, [], true;
      assert Retained() == all[..len] && all[..len] + chunk[off..] == all;
      if len < needed {
        assert chunk[off..] == [] && Before([], Parse(all)) == Parse(all);
        return;
      }
      assert all[..needed] == buf[..needed] && all[needed..] == chunk[off..];
      var decoded := Decode(buf[..needed]);
      if decoded.Err? {
        return [], off, false;
      }
      delivered := [decoded.value];
      len := 0;
      assert [] + chunk[off..] == chunk[off..];
    }

    /** Frame directly out of the chunk for as long as whole frames are available. */
    method Scan(chunk: seq<u8>, from: nat) returns (delivered: seq<Message>, ok: bool)
      requires Valid() && !closed && len == 0 && from <= |chunk|
      modifies this`len, buf
      ensures var p := Parse(chunk[from..]);
        && delivered == p.messages && ok == !p.closed && (ok ==> Valid() && Retained() == p.rest)
      ensures buf.Length == MAX_MESSAGE_SIZE && len <= buf.Length
    {
      hide Decode;
      hide Parse;
      var off := from;
      delivered := [];
      BeforeTwice([], [], Parse(chunk[from..]));
      while off < |chunk|
        invariant from <= off <= |chunk| && len == 0 && Valid()
        invariant Parse(chunk[from..]) == Before(delivered, Parse(chunk[off..]))
      {
        ghost var rest := chunk[off..];
        var frame := AnnouncedLength(chunk[off]);
        if frame.None? {
          ParseUnknown(rest);
          return delivered, false;
        }
        var needed := frame.value;
        if |chunk| - off < needed {
          ParsePartial(rest);
          Keep(chunk, off, |chunk| - off);
          return delivered, true;
        }
        ParseFrame(rest, needed);
        assert chunk[off..off + needed] == rest[..needed] && chunk[off + needed..] == rest[needed..];
        var decoded := Decode(chunk[off..off + needed]);
        if decoded.Err? {
          return delivered, false;
        }
        BeforeTwice(delivered, [decoded.value], Parse(rest[needed..]));
        delivered := delivered + [decoded.value];
        off := off + needed;
      }
      ParsePartial([]);
      assert chunk[off..] == [];
      ok := true;
    }

    /** Feed the bytes of one socket read; the sink receives `delivered` in this order. */
    method Consume(chunk: seq<u8>) returns (delivered: seq<Message>, open: bool)
      requires Valid()
      modifies this, buf
      ensures Valid() && open == !closed
      ensures var p := Feed(Parsed([], old(closed), old(Retained())), chunk);
        delivered == p.messages && closed == p.closed && (!closed ==> Retained() == p.rest)
    {
      hide Parse;
      if closed {
        return [], false;
      }
      var off, ok := 0, true;
      delivered := [];
      ghost var all := Parse(Retained() + chunk);
      if len > 0 {
        delivered, off, ok := Complete(chunk);
        if !ok {
          closed := true;
          return [], false;
        }
      } else {
        assert Retained() + chunk == chunk == chunk[0..];
      }
      if len == 0 {
        assert Retained() + chunk[off..] == chunk[off..];
        var more;
        more, ok := Scan(chunk, off);
        delivered := delivered + more;
      } else {
        assert Retained() + chunk[off..] == Retained();
        ParsePartial(Retained());
      }
      closed := !ok;
      open := ok;
    }
  }
}
