/** The assembled data path: socket bytes in, framed commands through the engine, response frames out. */
module Pipeline {
  import opened Wire
  import opened Codec
  import opened BookModel
  import opened Matching
  import opened Engine
  import opened EngineRuns
  import opened Framing
  import opened Processor
  import CodecImpl

  // ---- Every event the engine emits can be encoded ---------------------------------

  ghost predicate Encodable(events: seq<Message>) {
    forall i :: 0 <= i < |events| ==> BadField(events[i]).None?
  }

  lemma {:induction false} TradesEncode(opp: seq<Order>, side: Side, limit: u64, id: u64, left: u32, exec: u64)
    requires left <= MAX_ENGINE_QUANTITY
    requires forall i :: 0 <= i < |opp| ==> InDomain(opp[i])
    ensures Encodable(Match(opp, side, limit, id, left, exec).trades)
    decreases |opp|
  {
    if left > 0 && opp != [] && Crosses(side, limit, opp[0].price) && left >= opp[0].qty {
      TradesEncode(opp[1..], side, limit, id, left - opp[0].qty, Next64(exec));
    }
  }

  lemma StepEncodes(e: Engine, msg: Message, caps: Caps)
    requires EngineOk(e, caps) && caps.orders > 0
    ensures Encodable(Dispatch(e, msg, caps).events)
  {
    if msg.NewOrder? && Validate(msg).Accept? {
      TradesEncode(e.On(Opposite(msg.side)), msg.side, msg.price, msg.orderId, msg.quantity, e.exec);
    }
  }

  /** Every event of every run is within the ranges the codec accepts. */
  lemma {:induction false} EventsEncode(e: Engine, msgs: seq<Message>, caps: Caps)
    requires EngineOk(e, caps) && caps.orders > 0
    ensures Encodable(Events(e, msgs, caps))
    decreases |msgs|
  {
    hide Dispatch;
    hide EngineOk;
    hide BadField;
    if msgs != [] {
      StepEncodes(e, msgs[0], caps);
      DispatchOk(e, msgs[0], caps);
      EventsEncode(Dispatch(e, msgs[0], caps).engine, msgs[1..], caps);
    }
  }

  // ---- One read, and any number of reads, of one connection -------------------------

  /** The engine, a connection's framer, and what its reads have produced so far. */
  datatype Served = Served(engine: Engine, framer: Parsed, events: seq<Message>, refused: nat, overflow: nat)

  const NEW_FRAMER := Parsed([], false, [])
  const CLOSED := Parsed([], true, [])

  /** Frame a read, process what fits the ingress ring, return what fits the egress ring. */
  function Read(s: Served, chunk: seq<u8>, sizes: Sizes): Served
    requires sizes.caps.orders > 0
  {
    var p := Feed(s.framer.(messages := []), chunk);
    var n := Min(|p.messages|, sizes.ingress);
    var events := Events(s.engine, p.messages[..n], sizes.caps);
    var k := Min(|events|, sizes.egress);
    Served(Run(s.engine, p.messages[..n], sizes.caps), p.(messages := []), s.events + events[..k],
           s.refused + (|p.messages| - n), s.overflow + (|events| - k))
  }

  function ReadAll(s: Served, chunks: seq<seq<u8>>, sizes: Sizes): Served
    requires sizes.caps.orders > 0
    decreases |chunks|
  {
    if chunks == [] then s else ReadAll(Read(s, chunks[0], sizes), chunks[1..], sizes)
  }

  /** Losses only ever grow. */
  lemma {:induction false} LossesGrow(s: Served, chunks: seq<seq<u8>>, sizes: Sizes)
    requires sizes.caps.orders > 0
    ensures ReadAll(s, chunks, sizes).refused >= s.refused && ReadAll(s, chunks, sizes).overflow >= s.overflow
    decreases |chunks|
  {
    hide Feed;
    hide Run;
    hide Events;
    if chunks != [] {
      LossesGrow(Read(s, chunks[0], sizes), chunks[1..], sizes);
    }
  }

  lemma ReadLossless(s: Served, chunk: seq<u8>, sizes: Sizes)
    requires sizes.caps.orders > 0 && s.framer.messages == []
    requires var r := Read(s, chunk, sizes); r.refused == s.refused && r.overflow == s.overflow
    ensures var p, r := Feed(s.framer, chunk), Read(s, chunk, sizes);
      && r.engine == Run(s.engine, p.messages, sizes.caps) && r.framer == p.(messages := [])
      && r.events == s.events + Events(s.engine, p.messages, sizes.caps)
  {
    hide Feed;
    hide Run;
    hide Events;
    var p := Feed(s.framer, chunk);
    assert s.framer.(messages := []) == s.framer;
    assert p.messages[..|p.messages|] == p.messages;
  }

  /** Messages already delivered do not change what later chunks deliver. */
  lemma {:induction false} FeedAllBefore(done: seq<Message>, p: Parsed, chunks: seq<seq<u8>>)
    ensures FeedAll(Before(done, p), chunks) == Before(done, FeedAll(p, chunks))
    decreases |chunks|
  {
    hide Parse;
    if chunks != [] {
      FeedAllBefore(done, Feed(p, chunks[0]), chunks[1..]);
      BeforeTwice(done, p.messages, Parse(p.rest + chunks[0]));
      assert Feed(Before(done, p), chunks[0]) == Before(done, Feed(p, chunks[0]));
    }
  }

  /** Without losses, any number of reads is one run over everything the framer delivered. */
  lemma {:induction false} ReadsAreOneRun(s: Served, chunks: seq<seq<u8>>, sizes: Sizes)
    requires sizes.caps.orders > 0 && s.framer.messages == []
    requires var r := ReadAll(s, chunks, sizes); r.refused == s.refused && r.overflow == s.overflow
    ensures var p, r := FeedAll(s.framer, chunks), ReadAll(s, chunks, sizes);
      && r.engine == Run(s.engine, p.messages, sizes.caps) && r.framer == p.(messages := [])
      && r.events == s.events + Events(s.engine, p.messages, sizes.caps)
    decreases |chunks|
  {
    hide Read;
    hide Feed;
    hide Run;
    hide Events;
    if chunks == [] {
      NoCommands(s, sizes.caps);
    } else {
      var q, r1 := Feed(s.framer, chunks[0]), Read(s, chunks[0], sizes);
      LossesGrow(r1, chunks[1..], sizes);
      LossesGrow(s, [chunks[0]], sizes);
      OneRead(s, chunks[0], sizes);
      ReadLossless(s, chunks[0], sizes);
      ReadsAreOneRun(r1, chunks[1..], sizes);
      var rest := FeedAll(q.(messages := []), chunks[1..]);
      FeedAllBefore(q.messages, q.(messages := []), chunks[1..]);
      assert Before(q.messages, q.(messages := [])) == q by { assert q.messages + [] == q.messages; }
      RunConcat(s.engine, q.messages, rest.messages, sizes.caps);
      assert s.events + Events(s.engine, q.messages, sizes.caps) + Events(r1.engine, rest.messages, sizes.caps)
          == s.events + Events(s.engine, q.messages + rest.messages, sizes.caps);
    }
  }

  lemma NoCommands(s: Served, caps: Caps)
    requires caps.orders > 0
    ensures Run(s.engine, [], caps) == s.engine && s.events + Events(s.engine, [], caps) == s.events
  {
  }

  lemma OneRead(s: Served, chunk: seq<u8>, sizes: Sizes)
    requires sizes.caps.orders > 0
    ensures ReadAll(s, [chunk], sizes) == Read(s, chunk, sizes)
  {
    hide Read;
    assert [chunk][1..] == [];
    assert ReadAll(Read(s, chunk, sizes), [], sizes) == Read(s, chunk, sizes);
  }

  /**
   * End to end: however a client's byte stream is split into reads, as long as nothing is refused or lost the
   * responses are the events of running the engine over the stream's parse, and they parse back to those events.
   */
  lemma EndToEnd(e: Engine, chunks: seq<seq<u8>>, sizes: Sizes)
    requires sizes.caps.orders > 0 && EngineOk(e, sizes.caps)
    requires var r := ReadAll(Served(e, NEW_FRAMER, [], 0, 0), chunks, sizes); r.refused == 0 && r.overflow == 0
    ensures var p, r := Parse(Concat(chunks)), ReadAll(Served(e, NEW_FRAMER, [], 0, 0), chunks, sizes);
      && r.events == Events(e, p.messages, sizes.caps) && r.engine == Run(e, p.messages, sizes.caps)
      && r.framer == p.(messages := [])
      && Parse(Stream(r.events)) == Parsed(Events(e, p.messages, sizes.caps), false, [])
  {
    hide ReadAll;
    hide Parse;
    hide FeedAll;
    hide EngineOk;
    var p := Parse(Concat(chunks));
    ReadsAreOneRun(Served(e, NEW_FRAMER, [], 0, 0), chunks, sizes);
    ParsePartial([]);
    ChunksDoNotMatter([], chunks);
    assert [] + Concat(chunks) == Concat(chunks);
    assert [] + Events(e, p.messages, sizes.caps) == Events(e, p.messages, sizes.caps);
    EventsEncode(e, p.messages, sizes.caps);
    StreamRoundTrip(Events(e, p.messages, sizes.caps));
  }

  // ---- Rings that cannot overflow -------------------------------------------------------------

  /** An egress ring for the events of a full ingress ring on a full book. */
  predicate Roomy(sizes: Sizes) {
    2 * sizes.ingress + sizes.caps.orders <= sizes.egress
  }

  lemma CountBounded(e: Engine, caps: Caps)
    requires EngineOk(e, caps)
    ensures RestingCount(e) <= caps.orders
  {
  }

  /** With a roomy egress ring no read ever overflows it, and the next one does not either. */
  lemma ReadFits(s: Served, chunk: seq<u8>, sizes: Sizes)
    requires sizes.caps.orders > 0 && Roomy(sizes) && EngineOk(s.engine, sizes.caps)
    ensures Read(s, chunk, sizes).overflow == s.overflow && EngineOk(Read(s, chunk, sizes).engine, sizes.caps)
  {
    hide EngineOk;
    hide Feed;
    hide Run;
    hide Events;
    hide RestingCount;
    var msgs := Feed(s.framer.(messages := []), chunk).messages;
    var n := Min(|msgs|, sizes.ingress);
    EventBound(s.engine, msgs[..n], sizes.caps);
    CountBounded(s.engine, sizes.caps);
    RunOk(s.engine, msgs[..n], sizes.caps);
  }

  lemma {:induction false} ReadsFit(s: Served, chunks: seq<seq<u8>>, sizes: Sizes)
    requires sizes.caps.orders > 0 && Roomy(sizes) && EngineOk(s.engine, sizes.caps)
    ensures ReadAll(s, chunks, sizes).overflow == s.overflow
    decreases |chunks|
  {
    hide Read;
    hide EngineOk;
    if chunks != [] {
      ReadFits(s, chunks[0], sizes);
      ReadsFit(Read(s, chunks[0], sizes), chunks[1..], sizes);
    }
  }

  // ---- Several connections on one engine -------------------------------------------------

  /** One socket read: who sent it and what. */
  datatype Arrival = Arrival(fd: int, chunk: seq<u8>)

  /** A message of, or to, one connection. */
  datatype Tagged = Tagged(fd: int, msg: Message)

  /** One engine, every connection's framer, and everything sent back so far. */
  datatype Server = Server(engine: Engine, conns: map<int, Parsed>, out: seq<Tagged>, refused: nat, overflow: nat)

  function Tag(fd: int, msgs: seq<Message>): seq<Tagged> {
    seq(|msgs|, i requires 0 <= i < |msgs| => Tagged(fd, msgs[i]))
  }

  function Bodies(tagged: seq<Tagged>): seq<Message> {
    seq(|tagged|, i requires 0 <= i < |tagged| => tagged[i].msg)
  }

  /** What belongs to one connection, in order. */
  function Of(fd: int, tagged: seq<Tagged>): seq<Message> {
    if tagged == [] then [] else (if tagged[0].fd == fd then [tagged[0].msg] else []) + Of(fd, tagged[1..])
  }

  function ChunksOf(fd: int, arrivals: seq<Arrival>): seq<seq<u8>> {
    if arrivals == [] then []
    else (if arrivals[0].fd == fd then [arrivals[0].chunk] else []) + ChunksOf(fd, arrivals[1..])
  }

  function ConnOf(conns: map<int, Parsed>, fd: int): Parsed {
    if fd in conns then conns[fd] else CLOSED
  }

  /** The pipeline on one read: its own connection's framer, the shared engine, responses to the sender. */
  function Serve(sv: Server, a: Arrival, sizes: Sizes): Server
    requires sizes.caps.orders > 0
  {
    var r := Read(Served(sv.engine, ConnOf(sv.conns, a.fd), [], 0, 0), a.chunk, sizes);
    Server(r.engine, sv.conns[a.fd := r.framer], sv.out + Tag(a.fd, r.events),
           sv.refused + r.refused, sv.overflow + r.overflow)
  }

  function ServeAll(sv: Server, arrivals: seq<Arrival>, sizes: Sizes): Server
    requires sizes.caps.orders > 0
    decreases |arrivals|
  {
    if arrivals == [] then sv else ServeAll(Serve(sv, arrivals[0], sizes), arrivals[1..], sizes)
  }

  /** The commands of all connections in the order in which their last byte arrived. */
  function Framed(conns: map<int, Parsed>, arrivals: seq<Arrival>): seq<Tagged>
    decreases |arrivals|
  {
    if arrivals == [] then []
    else
      var p := Feed(ConnOf(conns, arrivals[0].fd), arrivals[0].chunk);
      Tag(arrivals[0].fd, p.messages) + Framed(conns[arrivals[0].fd := p.(messages := [])], arrivals[1..])
  }

  /** The events of a run, each tagged with the connection whose command caused it. */
  function Attributed(e: Engine, cmds: seq<Tagged>, caps: Caps): seq<Tagged>
    requires caps.orders > 0
    decreases |cmds|
  {
    if cmds == [] then []
    else
      var step := Dispatch(e, cmds[0].msg, caps);
      Tag(cmds[0].fd, step.events) + Attributed(step.engine, cmds[1..], caps)
  }

  ghost predicate Quiet(conns: map<int, Parsed>) {
    forall fd :: fd in conns ==> conns[fd].messages == []
  }

  lemma TagConcat(fd: int, a: seq<Message>, b: seq<Message>)
    ensures Tag(fd, a + b) == Tag(fd, a) + Tag(fd, b)
  {
  }

  lemma {:induction false} AttributedConcat(e: Engine, a: seq<Tagged>, b: seq<Tagged>, caps: Caps)
    requires caps.orders > 0
    ensures Attributed(e, a + b, caps) == Attributed(e, a, caps) + Attributed(Run(e, Bodies(a), caps), b, caps)
    decreases |a|
  {
    hide Dispatch;
    if a == [] {
      assert a + b == b;
    } else {
      var step := Dispatch(e, a[0].msg, caps);
      assert (a + b)[1..] == a[1..] + b && Bodies(a)[1..] == Bodies(a[1..]);
      AttributedConcat(step.engine, a[1..], b, caps);
    }
  }

  lemma {:induction false} AttributedOne(e: Engine, fd: int, msgs: seq<Message>, caps: Caps)
    requires caps.orders > 0
    ensures Attributed(e, Tag(fd, msgs), caps) == Tag(fd, Events(e, msgs, caps)) && Bodies(Tag(fd, msgs)) == msgs
    decreases |msgs|
  {
    hide Dispatch;
    if msgs != [] {
      var step := Dispatch(e, msgs[0], caps);
      assert Tag(fd, msgs)[1..] == Tag(fd, msgs[1..]);
      AttributedOne(step.engine, fd, msgs[1..], caps);
      TagConcat(fd, step.events, Events(step.engine, msgs[1..], caps));
    }
  }

  lemma {:induction false} ServerLossesGrow(sv: Server, arrivals: seq<Arrival>, sizes: Sizes)
    requires sizes.caps.orders > 0
    ensures ServeAll(sv, arrivals, sizes).refused >= sv.refused && ServeAll(sv, arrivals, sizes).overflow >= sv.overflow
    decreases |arrivals|
  {
    hide Read;
    if arrivals != [] {
      ServerLossesGrow(Serve(sv, arrivals[0], sizes), arrivals[1..], sizes);
    }
  }

  /** One read without losses. */
  lemma ServeLossless(sv: Server, a: Arrival, sizes: Sizes)
    requires sizes.caps.orders > 0 && Quiet(sv.conns)
    requires var s := Serve(sv, a, sizes); s.refused == sv.refused && s.overflow == sv.overflow
    ensures var p, s := Feed(ConnOf(sv.conns, a.fd), a.chunk), Serve(sv, a, sizes);
      && s.engine == Run(sv.engine, p.messages, sizes.caps) && s.conns == sv.conns[a.fd := p.(messages := [])]
      && s.out == sv.out + Tag(a.fd, Events(sv.engine, p.messages, sizes.caps))
  {
    hide Feed;
    hide Run;
    hide Events;
    hide Read;
    var conn := ConnOf(sv.conns, a.fd);
    ReadLossless(Served(sv.engine, conn, [], 0, 0), a.chunk, sizes);
    var events := Events(sv.engine, Feed(conn, a.chunk).messages, sizes.caps);
    assert [] + events == events;
  }

  /**
   * However the reads of any number of connections interleave, as long as nothing is refused or lost the engine is
   * one run over all framed commands in arrival order, and every event goes to the connection whose command caused it.
   */
  lemma {:induction false} InterleavedReads(sv: Server, arrivals: seq<Arrival>, sizes: Sizes)
    requires sizes.caps.orders > 0 && Quiet(sv.conns)
    requires var s := ServeAll(sv, arrivals, sizes); s.refused == sv.refused && s.overflow == sv.overflow
    ensures var s, cmds := ServeAll(sv, arrivals, sizes), Framed(sv.conns, arrivals);
      && s.engine == Run(sv.engine, Bodies(cmds), sizes.caps)
      && s.out == sv.out + Attributed(sv.engine, cmds, sizes.caps)
    decreases |arrivals|
  {
    hide Serve;
    hide Feed;
    hide Run;
    hide Bodies;
    hide Tag;
    hide Attributed;
    if arrivals == [] {
      NothingFramed(sv.engine, sizes.caps);
      assert sv.out + [] == sv.out;
    } else {
      var a, sv1 := arrivals[0], Serve(sv, arrivals[0], sizes);
      var p := Feed(ConnOf(sv.conns, a.fd), a.chunk);
      ServerLossesGrow(sv1, arrivals[1..], sizes);
      LossesAdd(sv, a, sizes);
      ServeLossless(sv, a, sizes);
      InterleavedReads(sv1, arrivals[1..], sizes);
      var mine, rest := Tag(a.fd, p.messages), Framed(sv1.conns, arrivals[1..]);
      AttributedOne(sv.engine, a.fd, p.messages, sizes.caps);
      AttributedConcat(sv.engine, mine, rest, sizes.caps);
      BodiesConcat(mine, rest);
      RunConcat(sv.engine, Bodies(mine), Bodies(rest), sizes.caps);
      Regroup(sv.out, Attributed(sv.engine, mine, sizes.caps), Attributed(sv1.engine, rest, sizes.caps));
    }
  }

  lemma NothingFramed(e: Engine, caps: Caps)
    requires caps.orders > 0
    ensures Bodies([]) == [] && Run(e, [], caps) == e && Attributed(e, [], caps) == []
  {
  }

  lemma BodiesConcat(a: seq<Tagged>, b: seq<Tagged>)
    ensures Bodies(a + b) == Bodies(a) + Bodies(b)
  {
  }

  lemma LossesAdd(sv: Server, a: Arrival, sizes: Sizes)
    requires sizes.caps.orders > 0
    ensures Serve(sv, a, sizes).refused >= sv.refused && Serve(sv, a, sizes).overflow >= sv.overflow
  {
    hide Read;
  }

  lemma {:induction false} OfConcat(fd: int, a: seq<Tagged>, b: seq<Tagged>)
    ensures Of(fd, a + b) == Of(fd, a) + Of(fd, b)
    decreases |a|
  {
    if a == [] {
      assert a + b == b;
    } else {
      OfConcat(fd, a[1..], b);
      assert (a + b)[1..] == a[1..] + b;
      Regroup(if a[0].fd == fd then [a[0].msg] else [], Of(fd, a[1..]), Of(fd, b));
    }
  }

  lemma {:induction false} OfTag(fd: int, sender: int, msgs: seq<Message>)
    ensures Of(fd, Tag(sender, msgs)) == if sender == fd then msgs else []
    decreases |msgs|
  {
    if msgs != [] {
      assert Tag(sender, msgs)[1..] == Tag(sender, msgs[1..]);
      OfTag(fd, sender, msgs[1..]);
    }
  }

  /** What a connection contributes depends on its own bytes only, not on how they were split or interleaved. */
  lemma {:induction false} OwnCommands(conns: map<int, Parsed>, arrivals: seq<Arrival>, fd: int)
    requires Quiet(conns)
    ensures Of(fd, Framed(conns, arrivals)) == FeedAll(ConnOf(conns, fd), ChunksOf(fd, arrivals)).messages
    decreases |arrivals|
  {
    hide Feed;
    if arrivals != [] {
      var a, rest := arrivals[0], arrivals[1..];
      var p := Feed(ConnOf(conns, a.fd), a.chunk);
      var conns' := conns[a.fd := p.(messages := [])];
      OwnCommands(conns', rest, fd);
      OfConcat(fd, Tag(a.fd, p.messages), Framed(conns', rest));
      OfTag(fd, a.fd, p.messages);
      if a.fd == fd {
        assert ChunksOf(fd, arrivals)[1..] == ChunksOf(fd, rest);
        FeedAllBefore(p.messages, p.(messages := []), ChunksOf(fd, rest));
        assert Before(p.messages, p.(messages := [])) == p by { assert p.messages + [] == p.messages; }
      } else {
        assert ChunksOf(fd, arrivals) == ChunksOf(fd, rest);
      }
    }
  }

  /**
   * End to end for several clients: the engine runs over the commands that each client's own stream parses to, in
   * arrival order, and each client's response bytes parse back to exactly the events of its own commands.
   */
  lemma EndToEndForAll(e: Engine, conns: map<int, Parsed>, arrivals: seq<Arrival>, sizes: Sizes, fd: int)
    requires sizes.caps.orders > 0 && EngineOk(e, sizes.caps) && fd in conns
    requires forall x :: x in conns ==> conns[x] == NEW_FRAMER
    requires var s := ServeAll(Server(e, conns, [], 0, 0), arrivals, sizes); s.refused == 0 && s.overflow == 0
    ensures var s, cmds := ServeAll(Server(e, conns, [], 0, 0), arrivals, sizes), Framed(conns, arrivals);
      && Of(fd, cmds) == Parse(Concat(ChunksOf(fd, arrivals))).messages
      && s.engine == Run(e, Bodies(cmds), sizes.caps) && s.out == Attributed(e, cmds, sizes.caps)
      && Parse(Stream(Of(fd, s.out))) == Parsed(Of(fd, Attributed(e, cmds, sizes.caps)), false, [])
  {
    hide ServeAll;
    hide Parse;
    hide FeedAll;
    hide EngineOk;
    hide BadField;
    var cmds, chunks := Framed(conns, arrivals), ChunksOf(fd, arrivals);
    InterleavedReads(Server(e, conns, [], 0, 0), arrivals, sizes);
    assert [] + Attributed(e, cmds, sizes.caps) == Attributed(e, cmds, sizes.caps);
    OwnCommands(conns, arrivals, fd);
    ParsePartial([]);
    ChunksDoNotMatter([], chunks);
    assert [] + Concat(chunks) == Concat(chunks);
    AttributedEncode(e, cmds, sizes.caps, fd);
    StreamRoundTrip(Of(fd, Attributed(e, cmds, sizes.caps)));
  }

  /** With a roomy egress ring no interleaving of reads overflows it. */
  lemma {:induction false} ArrivalsFit(sv: Server, arrivals: seq<Arrival>, sizes: Sizes)
    requires sizes.caps.orders > 0 && Roomy(sizes) && EngineOk(sv.engine, sizes.caps)
    ensures ServeAll(sv, arrivals, sizes).overflow == sv.overflow
    decreases |arrivals|
  {
    hide Read;
    hide EngineOk;
    if arrivals != [] {
      var a := arrivals[0];
      ReadFits(Served(sv.engine, ConnOf(sv.conns, a.fd), [], 0, 0), a.chunk, sizes);
      ArrivalsFit(Serve(sv, a, sizes), arrivals[1..], sizes);
    }
  }

  /** End to end with a roomy egress ring: only a refused command can come between the clients and their answers. */
  lemma RoomyEndToEnd(e: Engine, conns: map<int, Parsed>, arrivals: seq<Arrival>, sizes: Sizes, fd: int)
    requires sizes.caps.orders > 0 && Roomy(sizes) && EngineOk(e, sizes.caps) && fd in conns
    requires forall x :: x in conns ==> conns[x] == NEW_FRAMER
    requires ServeAll(Server(e, conns, [], 0, 0), arrivals, sizes).refused == 0
    ensures var s, cmds := ServeAll(Server(e, conns, [], 0, 0), arrivals, sizes), Framed(conns, arrivals);
      && Of(fd, cmds) == Parse(Concat(ChunksOf(fd, arrivals))).messages
      && s.engine == Run(e, Bodies(cmds), sizes.caps) && s.out == Attributed(e, cmds, sizes.caps)
      && Parse(Stream(Of(fd, s.out))) == Parsed(Of(fd, Attributed(e, cmds, sizes.caps)), false, [])
  {
    hide ServeAll;
    hide Parse;
    hide EngineOk;
    hide Framed;
    ArrivalsFit(Server(e, conns, [], 0, 0), arrivals, sizes);
    EndToEndForAll(e, conns, arrivals, sizes, fd);
  }

  lemma {:induction false} OfEncodable(fd: int, sender: int, events: seq<Message>, rest: seq<Tagged>)
    requires Encodable(events) && Encodable(Of(fd, rest))
    ensures Encodable(Of(fd, Tag(sender, events) + rest))
  {
    OfConcat(fd, Tag(sender, events), rest);
    OfTag(fd, sender, events);
  }

  lemma {:induction false} AttributedEncode(e: Engine, cmds: seq<Tagged>, caps: Caps, fd: int)
    requires EngineOk(e, caps) && caps.orders > 0
    ensures Encodable(Of(fd, Attributed(e, cmds, caps)))
    decreases |cmds|
  {
    hide Dispatch;
    hide EngineOk;
    hide BadField;
    if cmds != [] {
      var step := Dispatch(e, cmds[0].msg, caps);
      StepEncodes(e, cmds[0].msg, caps);
      DispatchOk(e, cmds[0].msg, caps);
      AttributedEncode(step.engine, cmds[1..], caps, fd);
      OfEncodable(fd, cmds[0].fd, step.events, Attributed(step.engine, cmds[1..], caps));
    }
  }

  // ---- The pipeline in place -----------------------------------------------------------

  /** Bytes handed to the socket layer for one connection. */
  datatype Response = Response(fd: int, bytes: seq<u8>)

  const MAX_FRAME: nat := 37

  /** The frames of the events that pass the encode guard. */
  function Responses(fd: int, events: seq<Message>): seq<Response>
    decreases |events|
  {
    if events == [] then []
    else (if BadField(events[0]).None? then [Response(fd, Encoded(events[0]))] else []) + Responses(fd, events[1..])
  }

  /** Encodable events all become a response, in order, to the one connection. */
  lemma {:induction false} ResponsesComplete(fd: int, events: seq<Message>)
    requires Encodable(events)
    ensures |Responses(fd, events)| == |events|
    ensures forall i :: 0 <= i < |events| ==> Responses(fd, events)[i] == Response(fd, Encoded(events[i]))
    decreases |events|
  {
    hide BadField;
    if events != [] {
      ResponsesComplete(fd, events[1..]);
    }
  }

  lemma ReadFrames(s: Served, chunk: seq<u8>, sizes: Sizes)
    requires sizes.caps.orders > 0 && s.framer.messages == []
    ensures Read(s, chunk, sizes).framer == Feed(s.framer, chunk).(messages := [])
  {
    hide Feed;
    assert s.framer.(messages := []) == s.framer;
  }

  /** What submitting, processing and draining one read amounts to, from empty rings. */
  lemma ReadProcessed(p: Processor, framer: Parsed, chunk: seq<u8>, sizes: Sizes)
    requires sizes.caps.orders > 0 && EngineOk(p.engine, sizes.caps) && framer.messages == []
    requires p.operational && p.ingress == [] && p.egress == []
    ensures var msgs, r := Feed(framer, chunk).messages, Read(Served(p.engine, framer, [], 0, 0), chunk, sizes);
      var p1 := SubmitAll(p, msgs, sizes);
      var q := ProcessAll(p1, sizes);
      && |p1.ingress| == |msgs| - r.refused && r.framer == Feed(framer, chunk).(messages := [])
      && q == p.(engine := r.engine, egress := r.events, processed := p.processed + (|msgs| - r.refused),
                 errors := q.errors, overflow := p.overflow + r.overflow)
      && EngineOk(r.engine, sizes.caps) && Encodable(r.events)
  {
    hide Feed;
    hide Run;
    hide Events;
    hide EngineOk;
    hide BadField;
    hide ProcessAll;
    hide SubmitAll;
    hide Read;
    var msgs := Feed(framer, chunk).messages;
    ReadIs(p.engine, framer, chunk, sizes);
    var n := Min(|msgs|, sizes.ingress);
    SubmitAllQueues(p, msgs, sizes);
    assert [] + msgs[..n] == msgs[..n];
    var events := Events(p.engine, msgs[..n], sizes.caps);
    BatchIsRun(SubmitAll(p, msgs, sizes), sizes);
    EventsEncode(p.engine, msgs[..n], sizes.caps);
    RunOk(p.engine, msgs[..n], sizes.caps);
  }

  /** What one read contributes. */
  lemma ReadIs(e: Engine, framer: Parsed, chunk: seq<u8>, sizes: Sizes)
    requires sizes.caps.orders > 0 && framer.messages == []
    ensures var msgs, r := Feed(framer, chunk).messages, Read(Served(e, framer, [], 0, 0), chunk, sizes);
      var cmds := msgs[..Min(|msgs|, sizes.ingress)];
      var events := Events(e, cmds, sizes.caps);
      && r.engine == Run(e, cmds, sizes.caps) && r.events == events[..Min(|events|, sizes.egress)]
      && r.framer == Feed(framer, chunk).(messages := [])
      && r.refused == |msgs| - |cmds| && r.overflow == |events| - |r.events|
  {
    hide Feed;
    hide Run;
    hide Events;
    assert framer.(messages := []) == framer;
  }

  /** The open connections, each with its framer. */
  class Registry {
    const maxConnections: nat
    var framers: map<int, FrameBuffer>

    ghost function Repr(): (r: set<object>)
      reads this
      ensures this in r
    {
      {this} + (set fd | fd in framers :: framers[fd]) + (set fd | fd in framers :: framers[fd].buf)
    }

    /** No more connections than the cap; every framer is open and no two connections share one. */
    ghost predicate Valid()
      reads this, Repr()
    {
      && |framers| <= maxConnections
      && (forall fd :: fd in framers ==> framers[fd].Valid() && !framers[fd].closed)
      && (forall a, b :: a in framers && b in framers && a != b ==>
            framers[a] != framers[b] && framers[a].buf != framers[b].buf)
    }

    /** A connection's framer; an unknown connection counts as closed. */
    ghost function Connection(fd: int): (r: Parsed)
      reads this, Repr()
      ensures r.messages == []
    {
      if fd in framers then Parsed([], false, framers[fd].Retained()) else CLOSED
    }

    constructor (maxConnections: nat)
      ensures Valid() && Repr() == {this} && this.maxConnections == maxConnections && framers == map[]
      ensures forall fd :: Connection(fd) == CLOSED
    {
      this.maxConnections := maxConnections;
      framers := map[];
    }

    /** Start framing a newly accepted socket, or refuse it, with nothing changed, when the cap is reached. */
    method Accept(fd: int) returns (ok: bool)
      requires Valid()
      modifies this
      ensures Valid() && fresh(Repr() - old(Repr()))
      ensures ok == (|old(framers)| < maxConnections) && (!ok ==> framers == old(framers))
      ensures Connection(fd) == if fd in old(framers) || !ok then old(Connection(fd)) else NEW_FRAMER
      ensures forall other :: other != fd ==> Connection(other) == old(Connection(other))
    {
      hide Valid;
      hide Connection;
      if |framers| >= maxConnections {
        return false;
      }
      ok := true;
      if fd !in framers {
        Open(fd);
      }
    }

    /** Give a connection a framer of its own. */
    method Open(fd: int)
      requires Valid() && fd !in framers && |framers| < maxConnections
      modifies this
      ensures Valid() && fresh(Repr() - old(Repr())) && Connection(fd) == NEW_FRAMER
      ensures forall other :: other != fd ==> Connection(other) == old(Connection(other))
    {
      hide FrameBuffer.Valid;
      hide FrameBuffer.Retained;
      var framer := new FrameBuffer();
      framers := framers[fd := framer];
    }

    /** Feed a read to its framer; a malformed stream tears the connection down. */
    method OnReadable(fd: int, bytes: seq<u8>) returns (delivered: seq<Message>, open: bool)
      requires Valid()
      modifies Repr()
      ensures Valid() && Repr() <= old(Repr())
      ensures var p := Feed(old(Connection(fd)), bytes);
        delivered == p.messages && open == !p.closed && Connection(fd) == p.(messages := [])
      ensures forall other :: other != fd ==> Connection(other) == old(Connection(other))
    {
      hide Parse;
      hide FrameBuffer.Valid;
      hide FrameBuffer.Retained;
      if fd !in framers {
        return [], false;
      }
      delivered, open := framers[fd].Consume(bytes);
      ParseRest(old(Connection(fd)).rest + bytes);
      if !open {
        Close(fd);
      }
    }

    /** Forget a connection; every other framer must be in order. */
    method Close(fd: int)
      requires fd in framers && |framers| <= maxConnections
      requires forall other :: other in framers && other != fd ==> framers[other].Valid() && !framers[other].closed
      requires forall a, b :: a in framers && b in framers && a != b ==>
        framers[a] != framers[b] && framers[a].buf != framers[b].buf
      modifies this
      ensures Valid() && Repr() <= old(Repr()) && Connection(fd) == CLOSED
      ensures forall other :: other != fd ==> Connection(other) == old(Connection(other))
    {
      hide FrameBuffer.Valid;
      hide FrameBuffer.Retained;
      assert (framers - {fd}).Keys == framers.Keys - {fd};
      framers := framers - {fd};
    }
  }

  class ServerPipeline {
    const processor: EngineProcessor
    const registry: Registry
    var backPressure: nat
    var responses: nat

    ghost function Repr(): set<object>
      reads registry
    {
      processor.Repr() + registry.Repr() + {this}
    }

    ghost predicate Apart()
      reads registry
    {
      this !in processor.Repr() && this !in registry.Repr() && processor.Repr() !! registry.Repr()
    }

    /** Both rings are empty and the engine's invariant holds. */
    ghost predicate Idle()
      reads processor.Repr()
    {
      && processor.Valid() && processor.Abs().ingress == [] && processor.Abs().egress == []
      && EngineOk(processor.Abs().engine, processor.Size().caps)
    }

    /** What holds between calls. */
    ghost predicate Valid()
      reads this, registry, Repr()
    {
      Apart() && registry.Valid() && Idle()
    }

    /** Assemble a pipeline from an idle processor and a registry. */
    constructor (processor: EngineProcessor, registry: Registry)
      requires registry.Valid() && processor.Repr() !! registry.Repr()
      requires processor.Valid() && processor.Abs().ingress == [] && processor.Abs().egress == []
      requires EngineOk(processor.Abs().engine, processor.Size().caps)
      ensures Valid() && this.processor == processor && this.registry == registry && backPressure == 0 && responses == 0
      ensures processor.Abs() == old(processor.Abs())
      ensures forall fd :: registry.Connection(fd) == old(registry.Connection(fd))
    {
      hide EngineOk;
      hide EngineProcessor.Repr;
      hide Registry.Repr;
      hide EngineProcessor.Valid;
      hide EngineProcessor.Abs;
      hide Registry.Valid;
      hide Registry.Connection;
      assert allocated(processor.Repr()) && allocated(registry.Repr());
      this.processor, this.registry, backPressure, responses := processor, registry, 0, 0;
    }

    /** Start serving a newly accepted socket. */
    method Accept(fd: int) returns (ok: bool)
      requires Valid()
      modifies registry
      ensures Valid() && ok == (|old(registry.framers)| < registry.maxConnections)
      ensures registry.Connection(fd)
           == if fd in old(registry.framers) || !ok then old(registry.Connection(fd)) else NEW_FRAMER
      ensures forall other :: other != fd ==> registry.Connection(other) == old(registry.Connection(other))
    {
      hide Idle;
      hide Registry.Valid;
      hide Registry.Repr;
      hide Registry.Connection;
      hide EngineProcessor.Repr;
      assert allocated(processor.Repr());
      ok := registry.Accept(fd);
    }

    /** Submit each framed command, counting the ones a full ingress ring refuses. */
    method SubmitFramed(msgs: seq<Message>)
      requires processor.Valid() && this !in processor.Repr()
      modifies processor.Repr(), this`backPressure
      ensures processor.Valid() && processor.Abs() == SubmitAll(old(processor.Abs()), msgs, processor.Size())
      ensures backPressure == old(backPressure) + |msgs| - (|processor.Abs().ingress| - |old(processor.Abs()).ingress|)
    {
      hide EngineProcessor.Repr;
      hide EngineProcessor.Valid;
      hide EngineProcessor.Abs;
      ghost var p := processor.Abs();
      for i := 0 to |msgs|
        invariant processor.Valid()
        invariant SubmitAll(processor.Abs(), msgs[i..], processor.Size()) == SubmitAll(p, msgs, processor.Size())
        invariant backPressure == old(backPressure) + i - (|processor.Abs().ingress| - |p.ingress|)
      {
        assert msgs[i..][0] == msgs[i] && msgs[i..][1..] == msgs[i + 1..];
        processor.AbsFields();
        var ok := processor.SubmitMessage(msgs[i]);
        assert allocated(processor.Repr());
        if !ok {
          backPressure := backPressure + 1;
        }
      }
    }

    /**
     * Drive one socket read through the whole pipeline. Both rings are empty again afterwards, every framed
     * command was processed or counted as back-pressure, every emitted event became one response to this
     * connection or was counted as overflow, and no other connection is touched.
     */
    method SubmitClientBytes(fd: int, bytes: seq<u8>) returns (out: seq<Response>, open: bool)
      requires Valid()
      modifies Repr()
      ensures Valid() && processor.Abs().operational == old(processor.Abs()).operational
      ensures !processor.Abs().operational ==> !open && out == [] && processor.Abs() == old(processor.Abs())
      ensures !processor.Abs().operational ==> backPressure == old(backPressure) && responses == old(responses)
      ensures !processor.Abs().operational ==> registry.Connection(fd) == old(registry.Connection(fd))
      ensures processor.Size().caps.orders > 0
      ensures processor.Abs().operational ==>
        var p, conn := old(processor.Abs()), old(registry.Connection(fd));
        var r := Read(Served(p.engine, conn, [], 0, 0), bytes, processor.Size());
        && processor.Abs().engine == r.engine && registry.Connection(fd) == r.framer && open == !r.framer.closed
        && |out| == |r.events| && (forall i :: 0 <= i < |out| ==> out[i] == Response(fd, Encoded(r.events[i])))
        && backPressure == old(backPressure) + r.refused && responses == old(responses) + |r.events|
        && processor.Abs().processed == p.processed + (|Feed(conn, bytes).messages| - r.refused)
        && processor.Abs().overflow == p.overflow + r.overflow
      ensures forall other :: other != fd ==> registry.Connection(other) == old(registry.Connection(other))
    {
      hide Idle;
      hide EngineProcessor.Repr;
      hide EngineProcessor.Abs;
      hide Registry.Repr;
      hide Registry.Valid;
      hide Registry.Connection;
      hide Read;
      hide Feed;
      hide Encoded;
      IdleFacts();
      if !processor.operational {
        return [], false;
      }
      assert allocated(processor.Repr());
      ghost var conn := registry.Connection(fd);
      ReadFrames(Served(processor.Abs().engine, conn, [], 0, 0), bytes, processor.Size());
      var delivered;
      delivered, open := registry.OnReadable(fd, bytes);
      assert allocated(registry.Repr());
      out := ServeRead(fd, delivered, conn, bytes);
    }

    lemma IdleFacts()
      requires Idle()
      ensures processor.Size().caps.orders > 0 && processor.Abs().operational == processor.operational
    {
      processor.HasCaps();
      processor.AbsFields();
    }

    /** Run one read's commands from empty rings back to empty rings. */
    method ServeRead(fd: int, msgs: seq<Message>, ghost conn: Parsed, ghost bytes: seq<u8>) returns (out: seq<Response>)
      requires Idle() && processor.Abs().operational && this !in processor.Repr()
      requires conn.messages == [] && msgs == Feed(conn, bytes).messages
      modifies processor.Repr(), this`backPressure, this`responses
      ensures Idle() && processor.Abs().operational && processor.Size().caps.orders > 0
      ensures var r := Read(Served(old(processor.Abs()).engine, conn, [], 0, 0), bytes, processor.Size());
        && processor.Abs().engine == r.engine
        && |out| == |r.events| && (forall i :: 0 <= i < |out| ==> out[i] == Response(fd, Encoded(r.events[i])))
        && backPressure == old(backPressure) + r.refused && responses == old(responses) + |r.events|
        && processor.Abs().processed == old(processor.Abs()).processed + (|msgs| - r.refused)
        && processor.Abs().overflow == old(processor.Abs()).overflow + r.overflow
    {
      hide EngineProcessor.Repr;
      hide EngineProcessor.Valid;
      hide EngineProcessor.Abs;
      hide EngineOk;
      hide Read;
      hide Feed;
      hide SubmitAll;
      hide ProcessAll;
      hide Encoded;
      hide BadField;
      processor.HasCaps();
      ghost var p := processor.Abs();
      ReadProcessed(p, conn, bytes, processor.Size());
      out := Serve(fd, msgs);
      ResponsesComplete(fd, Read(Served(p.engine, conn, [], 0, 0), bytes, processor.Size()).events);
    }

    /** Take one event off the egress ring and encode it. */
    method NextResponse(fd: int) returns (more: bool, r: seq<Response>)
      requires processor.Valid()
      modifies processor.Repr()
      ensures processor.Valid() && processor.Abs() == old(processor.Abs()).(egress := processor.egress.Contents())
      ensures Responses(fd, old(processor.egress.Contents())) == r + Responses(fd, processor.egress.Contents())
      ensures more ==> |processor.egress.Contents()| < |old(processor.egress.Contents())|
      ensures !more ==> processor.egress.Contents() == [] && r == []
    {
      hide EngineProcessor.Repr;
      hide EngineProcessor.Valid;
      hide EngineProcessor.Abs;
      hide Responses;
      hide Encoded;
      hide BadField;
      var event := processor.NextEvent();
      if event.None? {
        ResponsesNone(fd);
        return false, [];
      }
      ResponsesStep(fd, event.value, processor.egress.Contents());
      assert allocated(processor.Repr());
      var encoded := EncodeResponse(event.value);
      more, r := true, if encoded.Some? then [Response(fd, encoded.value)] else [];
    }

    /** Drain every queued event and hand the frames to the connection. */
    method DrainEvents(fd: int) returns (out: seq<Response>)
      requires processor.Valid() && this !in processor.Repr()
      modifies processor.Repr(), this`responses
      ensures processor.Valid() && processor.Abs() == old(processor.Abs()).(egress := [])
      ensures out == Responses(fd, old(processor.Abs()).egress) && responses == old(responses) + |out|
    {
      hide EngineProcessor.Repr;
      hide EngineProcessor.Valid;
      hide EngineProcessor.Abs;
      hide Responses;
      out := [];
      processor.AbsFields();
      ghost var events, p := processor.egress.Contents(), processor.Abs();
      ResponsesNone(fd);
      var more := true;
      while more
        invariant processor.Valid() && responses == old(responses) + |out|
        invariant processor.Abs() == p.(egress := processor.egress.Contents())
        invariant !more ==> processor.egress.Contents() == []
        invariant out + Responses(fd, processor.egress.Contents()) == Responses(fd, events)
        decreases |processor.egress.Contents()|, more
      {
        var r;
        more, r := NextResponse(fd);
        assert out + r + Responses(fd, processor.egress.Contents()) == Responses(fd, events);
        out := out + r;
        assert allocated(processor.Repr());
        responses := responses + |r|;
      }
    }

    /** Run framed commands through the engine and collect the response frames. */
    method Serve(fd: int, msgs: seq<Message>) returns (out: seq<Response>)
      requires processor.Valid() && this !in processor.Repr()
      modifies processor.Repr(), this`backPressure, this`responses
      ensures processor.Valid() && processor.Size().caps.orders > 0
      ensures var p1 := SubmitAll(old(processor.Abs()), msgs, processor.Size());
        var q := ProcessAll(p1, processor.Size());
        && processor.Abs() == q.(egress := []) && out == Responses(fd, q.egress)
        && responses == old(responses) + |out|
        && backPressure == old(backPressure) + |msgs| - (|p1.ingress| - |old(processor.Abs()).ingress|)
    {
      hide EngineProcessor.Repr;
      hide EngineProcessor.Valid;
      hide EngineProcessor.Abs;
      hide SubmitAll;
      hide ProcessAll;
      hide Responses;
      SubmitFramed(msgs);
      var _ := processor.ProcessQueue();
      out := DrainEvents(fd);
    }
  }

  lemma ResponsesNone(fd: int)
    ensures Responses(fd, []) == []
  {
  }

  lemma ResponsesStep(fd: int, event: Message, rest: seq<Message>)
    ensures Responses(fd, [event] + rest)
         == (if BadField(event).None? then [Response(fd, Encoded(event))] else []) + Responses(fd, rest)
  {
    assert ([event] + rest)[1..] == rest;
  }

  /** Encode one event in a fixed buffer. */
  method EncodeResponse(event: Message) returns (r: Option<seq<u8>>)
    ensures r == if BadField(event).None? then Some(Encoded(event)) else None
  {
    hide Encoded;
    var frame := new u8[MAX_FRAME](_ => 0);
    var encoded := CodecImpl.CppEncode(event, frame);
    if encoded.Ok? {
      return Some(frame[..encoded.value]);
    }
    r := None;
  }
}
