/** The C++ and the Rust codec, each writing and reading through its own cursor, against the wire format. */
module CodecImpl {
  import opened Wire
  import opened Codec

  /** Range and length outcome of the C++ encoder: the buffer is measured before the fields are checked. */
  function CppOutcome(m: Message, size: nat): Result<nat> {
    if size < Length(m) then Err(InsufficientLength)
    else if BadField(m).Some? then Err(FieldOutOfRange(BadField(m).value))
    else Ok(Length(m))
  }

  /** Outcome of the Rust encoder: the fields are checked before the buffer is measured. */
  function RustOutcome(m: Message, size: nat): Result<nat> {
    if BadField(m).Some? then Err(FieldOutOfRange(BadField(m).value))
    else if size < Length(m) then Err(InsufficientLength)
    else Ok(Length(m))
  }

  /** The two encoders report the same outcome unless a bad field meets a short buffer. */
  lemma OutcomesAgreeExactly(m: Message, size: nat)
    ensures CppOutcome(m, size) == RustOutcome(m, size) <==> size >= Length(m) || BadField(m).None?
    ensures CppOutcome(m, size).Ok? <==> RustOutcome(m, size).Ok?
  {
  }

  // ---- Cursors -------------------------------------------------------------

  /** A forward-only little-endian writer over a caller's buffer. */
  class LeWriter {
    const out: array<u8>
    var pos: nat

    constructor (out: array<u8>)
      ensures this.out == out && pos == 0
    {
      this.out, pos := out, 0;
    }

    /** Everything before the cursor is `done`; everything from it on is still as in `orig`. */
    ghost predicate Wrote(done: seq<u8>, orig: seq<u8>)
      reads this, out
    {
      pos == |done| <= out.Length == |orig| && out[..] == done + orig[pos..]
    }

    method PutU8(v: u8, ghost done: seq<u8>, ghost orig: seq<u8>)
      requires Wrote(done, orig) && pos < out.Length
      modifies this, out
      ensures Wrote(done + [v], orig)
    {
      out[pos] := v;
      pos := pos + 1;
    }

    /** `n` bytes, least significant first; each round emits the low byte and shifts right by eight. */
    method PutLe(v: nat, n: nat, ghost done: seq<u8>, ghost orig: seq<u8>)
      requires Wrote(done, orig) && pos + n <= out.Length
      modifies this, out
      ensures Wrote(done + Le(v, n), orig)
    {
      var rest := v;
      ghost var written: seq<u8> := [];
      for i := 0 to n
        invariant |written| == i && Wrote(done + written, orig) && |done| + n <= out.Length
        invariant written + Le(rest, n - i) == Le(v, n)
      {
        PutU8(rest % 256, done + written, orig);
        assert done + written + [rest % 256] == done + (written + [rest % 256]);
        assert written + Le(rest, n - i) == written + [rest % 256] + Le(rest / 256, n - i - 1);
        written := written + [rest % 256];
        rest := rest / 256;
      }
      assert written + Le(rest, 0) == written;
    }

    /** A whole field copied at once, as the Rust writer does. */
    method PutSlice(bytes: seq<u8>, ghost done: seq<u8>, ghost orig: seq<u8>)
      requires Wrote(done, orig) && pos + |bytes| <= out.Length
      modifies this, out
      ensures Wrote(done + bytes, orig)
    {
      forall i | 0 <= i < |bytes| {
        out[pos + i] := bytes[i];
      }
      pos := pos + |bytes|;
    }
  }

  /** A forward-only little-endian reader over a validated byte string. */
  class LeReader {
    const input: seq<u8>
    var pos: nat

    constructor (input: seq<u8>)
      ensures this.input == input && pos == 0
    {
      this.input, pos := input, 0;
    }

    method GetU8() returns (v: u8)
      requires pos < |input|
      modifies this
      ensures v == input[old(pos)] && pos == old(pos) + 1
    {
      v := input[pos];
      pos := pos + 1;
    }

    /** `n` bytes, least significant first, each shifted left by eight more bits than the one before. */
    method GetLe(n: nat) returns (v: nat)
      requires pos + n <= |input|
      modifies this
      ensures v == FromLe(input[old(pos)..old(pos) + n]) && pos == old(pos) + n
    {
      ghost var start := pos;
      v := 0;
      var weight: nat := 1;
      for i := 0 to n
        invariant pos == start + i && start + n <= |input|
        invariant v == FromLe(input[start..start + i]) && weight == Pow256(i)
      {
        FromLeAppend(input[start..start + i], input[pos]);
        assert input[start..start + i + 1] == input[start..start + i] + [input[pos]];
        v := v + input[pos] * weight;
        weight := 256 * weight;
        pos := pos + 1;
      }
    }

    method GetU64() returns (v: u64)
      requires pos + 8 <= |input|
      modifies this
      ensures v == U64At(input, old(pos)) && pos == old(pos) + 8
    {
      ghost var start := pos;
      var w := GetLe(8);
      FromLeBound(input[start..start + 8]);
      Widths();
      v := w;
    }

    method GetU32() returns (v: u32)
      requires pos + 4 <= |input|
      modifies this
      ensures v == U32At(input, old(pos)) && pos == old(pos) + 4
    {
      ghost var start := pos;
      var w := GetLe(4);
      FromLeBound(input[start..start + 4]);
      Widths();
      v := w;
    }
  }

  lemma {:induction false} FromLeAppend(s: seq<u8>, x: u8)
    ensures FromLe(s + [x]) == FromLe(s) + x * Pow256(|s|)
  {
    if s != [] {
      var rest := s[1..];
      FromLeAppend(rest, x);
      assert (s + [x])[1..] == rest + [x];
      hide FromLe;
      hide Pow256;
      assert 256 * (FromLe(rest) + x * Pow256(|rest|)) == 256 * FromLe(rest) + x * (256 * Pow256(|rest|));
    }
  }

  // ---- Encoders --------------------------------------------------------------

  /** Write all fields of an in-range message behind its type byte. */
  method PutFields(w: LeWriter, m: Message, ghost orig: seq<u8>)
    requires w.Wrote([TypeByte(m)], orig) && Length(m) <= w.out.Length
    modifies w, w.out
    ensures w.Wrote(Encoded(m), orig)
  {
    hide Le;
    ghost var d := [TypeByte(m)];
    match m
    case NewOrder(id, side, price, quantity, arrival) =>
      w.PutLe(id, 8, d, orig);
      d := d + Le(id, 8);
      w.PutU8(SideByte(side), d, orig);
      d := d + [SideByte(side)];
      w.PutLe(price, 8, d, orig);
      d := d + Le(price, 8);
      w.PutLe(quantity, 4, d, orig);
      d := d + Le(quantity, 4);
      w.PutLe(arrival, 8, d, orig);
    case CancelOrder(id) =>
      w.PutLe(id, 8, d, orig);
    case Trade(exec, price, quantity, incoming, resting) =>
      w.PutLe(exec, 8, d, orig);
      d := d + Le(exec, 8);
      w.PutLe(price, 8, d, orig);
      d := d + Le(price, 8);
      w.PutLe(quantity, 4, d, orig);
      d := d + Le(quantity, 4);
      w.PutLe(incoming, 8, d, orig);
      d := d + Le(incoming, 8);
      w.PutLe(resting, 8, d, orig);
    case Ack(id, kind) =>
      w.PutLe(id, 8, d, orig);
      w.PutU8(KindByte(kind), d + Le(id, 8), orig);
    case Reject(id, reason) =>
      w.PutLe(id, 8, d, orig);
      w.PutU8(ReasonByte(reason), d + Le(id, 8), orig);
  }

  lemma TypeByteWritten(w: LeWriter, t: u8, orig: seq<u8>)
    requires w.Wrote([] + [t], orig)
    ensures w.Wrote([t], orig) && orig != [] && w.out[..] == orig[0 := t]
  {
    assert [] + [t] == [t];
  }

  lemma MessageWritten(w: LeWriter, m: Message, orig: seq<u8>)
    requires w.Wrote(Encoded(m), orig)
    ensures w.pos == Length(m) <= |orig| && w.out[..] == Encoded(m) + orig[Length(m)..]
  {
    hide Encoded;
  }

  /**
   * The C++ encoder. On a range error it has already written the type byte, although its header promises
   * that nothing is written on error.
   */
  method CppEncode(m: Message, out: array<u8>) returns (r: Result<nat>)
    modifies out
    ensures r == CppOutcome(m, out.Length)
    ensures r.Ok? ==> out[..] == Encoded(m) + old(out[..])[Length(m)..]
    ensures r.Err? && r.error.InsufficientLength? ==> out[..] == old(out[..])
    ensures r.Err? && r.error.FieldOutOfRange? ==> out[..] == old(out[..])[0 := TypeByte(m)]
  {
    hide Encoded;
    if out.Length < Length(m) {
      return Err(InsufficientLength);
    }
    ghost var orig := out[..];
    var w := new LeWriter(out);
    w.PutU8(TypeByte(m), [], orig);
    TypeByteWritten(w, TypeByte(m), orig);
    hide LeWriter.Wrote;
    if (m.NewOrder? || m.Trade?) && !PriceOk(m.price) {
      return Err(FieldOutOfRange("price_ticks"));
    }
    if (m.NewOrder? || m.Trade?) && !QuantityOk(m.quantity) {
      return Err(FieldOutOfRange("quantity"));
    }
    PutFields(w, m, orig);
    MessageWritten(w, m, orig);
    r := Ok(w.pos);
  }

  /** The Rust encoder: validate, measure, then copy the little-endian bytes of each field. */
  method RustEncode(m: Message, out: array<u8>) returns (r: Result<nat>)
    modifies out
    ensures r == RustOutcome(m, out.Length)
    ensures r.Ok? ==> out[..] == Encoded(m) + old(out[..])[Length(m)..]
    ensures r.Err? ==> out[..] == old(out[..])
  {
    hide Encoded;
    if BadField(m).Some? {
      return Err(FieldOutOfRange(BadField(m).value));
    }
    if out.Length < Length(m) {
      return Err(InsufficientLength);
    }
    var w := new LeWriter(out);
    PutSlices(w, m, out[..]);
    r := Ok(Length(m));
  }

  method PutSlices(w: LeWriter, m: Message, ghost orig: seq<u8>)
    requires w.Wrote([], orig) && Length(m) <= w.out.Length
    modifies w, w.out
    ensures w.Wrote(Encoded(m), orig)
  {
    hide Le;
    w.PutU8(TypeByte(m), [], orig);
    ghost var d := [TypeByte(m)];
    assert [] + d == d;
    match m
    case NewOrder(id, side, price, quantity, arrival) =>
      w.PutSlice(Le(id, 8), d, orig);
      d := d + Le(id, 8);
      w.PutU8(SideByte(side), d, orig);
      d := d + [SideByte(side)];
      w.PutSlice(Le(price, 8), d, orig);
      d := d + Le(price, 8);
      w.PutSlice(Le(quantity, 4), d, orig);
      d := d + Le(quantity, 4);
      w.PutSlice(Le(arrival, 8), d, orig);
    case CancelOrder(id) =>
      w.PutSlice(Le(id, 8), d, orig);
    case Trade(exec, price, quantity, incoming, resting) =>
      w.PutSlice(Le(exec, 8), d, orig);
      d := d + Le(exec, 8);
      w.PutSlice(Le(price, 8), d, orig);
      d := d + Le(price, 8);
      w.PutSlice(Le(quantity, 4), d, orig);
      d := d + Le(quantity, 4);
      w.PutSlice(Le(incoming, 8), d, orig);
      d := d + Le(incoming, 8);
      w.PutSlice(Le(resting, 8), d, orig);
    case Ack(id, kind) =>
      w.PutSlice(Le(id, 8), d, orig);
      w.PutU8(KindByte(kind), d + Le(id, 8), orig);
    case Reject(id, reason) =>
      w.PutSlice(Le(id, 8), d, orig);
      w.PutU8(ReasonByte(reason), d + Le(id, 8), orig);
  }

  // ---- Decoders --------------------------------------------------------------

  /** The C++ decoder. */
  method CppDecode(b: seq<u8>) returns (r: Result<Message>)
    ensures r == Decode(b)
  {
    hide U64At;
    hide U32At;
    if |b| == 0 {
      return Err(InsufficientLength);
    }
    var needed := FrameLength(b[0]);
    if needed.None? {
      return Err(UnknownType(b[0]));
    }
    if |b| < needed.value {
      return Err(InsufficientLength);
    }
    if |b| > needed.value {
      return Err(ExcessTrailingBytes);
    }
    var c := new LeReader(b);
    var t := c.GetU8();
    if t == 0 {
      var id := c.GetU64();
      var sideByte := c.GetU8();
      if SideOf(sideByte).None? {
        return Err(FieldOutOfRange("side"));
      }
      var price := c.GetU64();
      var quantity := c.GetU32();
      var arrival := c.GetU64();
      if !PriceOk(price) {
        return Err(FieldOutOfRange("price_ticks"));
      }
      if !QuantityOk(quantity) {
        return Err(FieldOutOfRange("quantity"));
      }
      r := Ok(NewOrder(id, SideOf(sideByte).value, price, quantity, arrival));
    } else if t == 1 {
      var id := c.GetU64();
      r := Ok(CancelOrder(id));
    } else if t == 2 {
      var exec := c.GetU64();
      var price := c.GetU64();
      var quantity := c.GetU32();
      var incoming := c.GetU64();
      var resting := c.GetU64();
      if !PriceOk(price) {
        return Err(FieldOutOfRange("price_ticks"));
      }
      if !QuantityOk(quantity) {
        return Err(FieldOutOfRange("quantity"));
      }
      r := Ok(Trade(exec, price, quantity, incoming, resting));
    } else {
      var id := c.GetU64();
      var last := c.GetU8();
      if t == 3 {
        r := if KindOf(last).None? then Err(FieldOutOfRange("kind")) else Ok(Ack(id, KindOf(last).value));
      } else {
        r := if ReasonOf(last).None? then Err(FieldOutOfRange("reason")) else Ok(Reject(id, ReasonOf(last).value));
      }
    }
  }

  lemma ReadShifted(b: seq<u8>, i: nat)
    requires i < |b|
    ensures i + 9 <= |b| ==> U64At(b[1..], i) == U64At(b, i + 1)
    ensures i + 5 <= |b| ==> U32At(b[1..], i) == U32At(b, i + 1)
  {
    assert i + 9 <= |b| ==> b[1..][i..i + 8] == b[i + 1..i + 9];
    assert i + 5 <= |b| ==> b[1..][i..i + 4] == b[i + 1..i + 5];
  }

  /** The Rust decoder, whose reader starts behind the type byte. */
  method RustDecode(b: seq<u8>) returns (r: Result<Message>)
    ensures r == Decode(b)
  {
    hide U64At;
    hide U32At;
    if |b| == 0 {
      return Err(InsufficientLength);
    }
    var t := b[0];
    if FrameLength(t).None? {
      return Err(UnknownType(t));
    }
    var required := FrameLength(t).value;
    if |b| < required {
      return Err(InsufficientLength);
    }
    if |b| > required {
      return Err(ExcessTrailingBytes);
    }
    var c := new LeReader(b[1..]);
    ReadShifted(b, 0);
    if t == 0 {
      ReadShifted(b, 9);
      ReadShifted(b, 17);
      ReadShifted(b, 21);
      var id := c.GetU64();
      var sideByte := c.GetU8();
      if SideOf(sideByte).None? {
        return Err(FieldOutOfRange("side"));
      }
      var price := c.GetU64();
      var quantity := c.GetU32();
      var arrival := c.GetU64();
      if !PriceOk(price) {
        return Err(FieldOutOfRange("price_ticks"));
      }
      if !QuantityOk(quantity) {
        return Err(FieldOutOfRange("quantity"));
      }
      r := Ok(NewOrder(id, SideOf(sideByte).value, price, quantity, arrival));
    } else if t == 1 {
      var id := c.GetU64();
      r := Ok(CancelOrder(id));
    } else if t == 2 {
      ReadShifted(b, 8);
      ReadShifted(b, 16);
      ReadShifted(b, 20);
      ReadShifted(b, 28);
      var exec := c.GetU64();
      var price := c.GetU64();
      var quantity := c.GetU32();
      var incoming := c.GetU64();
      var resting := c.GetU64();
      if !PriceOk(price) {
        return Err(FieldOutOfRange("price_ticks"));
      }
      if !QuantityOk(quantity) {
        return Err(FieldOutOfRange("quantity"));
      }
      r := Ok(Trade(exec, price, quantity, incoming, resting));
    } else {
      var id := c.GetU64();
      var last := c.GetU8();
      if t == 3 {
        r := if KindOf(last).None? then Err(FieldOutOfRange("kind")) else Ok(Ack(id, KindOf(last).value));
      } else {
        r := if ReasonOf(last).None? then Err(FieldOutOfRange("reason")) else Ok(Reject(id, ReasonOf(last).value));
      }
    }
  }
}
