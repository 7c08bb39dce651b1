/** The wire format: what a message encodes to, and what a byte string decodes to. */
module Codec {
  import opened Wire

  datatype CodecError =
    | UnknownType(byte: u8)
    | InsufficientLength
    | ExcessTrailingBytes
    | FieldOutOfRange(field: string)
  datatype Result<+T> = Ok(value: T) | Err(error: CodecError)

  // ---- Little-endian integers ---------------------------------------------

  function Pow256(n: nat): (p: nat)
    ensures p > 0
  {
    if n == 0 then 1 else 256 * Pow256(n - 1)
  }

  /** The n little-endian bytes of v. */
  function Le(v: nat, n: nat): (s: seq<u8>)
    ensures |s| == n
  {
    if n == 0 then [] else [v % 256] + Le(v / 256, n - 1)
  }

  function FromLe(s: seq<u8>): nat {
    if s == [] then 0 else s[0] + 256 * FromLe(s[1..])
  }

  lemma {:induction false} FromLeBound(s: seq<u8>)
    ensures FromLe(s) < Pow256(|s|)
  {
    if s != [] {
      FromLeBound(s[1..]);
    }
  }

  lemma {:induction false} FromLeOfLe(v: nat, n: nat)
    requires v < Pow256(n)
    ensures FromLe(Le(v, n)) == v
  {
    if n > 0 {
      FromLeOfLe(v / 256, n - 1);
      assert Le(v, n)[1..] == Le(v / 256, n - 1);
    }
  }

  lemma {:induction false} LeOfFromLe(s: seq<u8>)
    ensures Le(FromLe(s), |s|) == s
  {
    if s != [] {
      LeOfFromLe(s[1..]);
      assert FromLe(s) % 256 == s[0] && FromLe(s) / 256 == FromLe(s[1..]);
    }
  }

  lemma SameQuotient(d: nat, q: nat, r: nat, a: nat, c: nat)
    requires r < d && c < d && d * q + r == d * a + c
    ensures q == a
  {
    if q < a {
      TimesMonotone(d, q + 1, a);
      assert false;
    }
    if a < q {
      TimesMonotone(d, a + 1, q);
      assert false;
    }
  }

  /** A remainder in range determines the quotient. */
  lemma QuotientIs(v: nat, d: nat, a: nat, c: nat)
    requires c < d && v == d * a + c
    ensures v / d == a
  {
    SameQuotient(d, v / d, v % d, a, c);
  }

  lemma ShiftTwice(v: nat, p: nat)
    requires p > 0
    ensures v / (256 * p) == v / 256 / p
  {
    var q := v / 256;
    var a, c := q / p, q % p;
    assert v == 256 * (p * a + c) + v % 256 == 256 * p * a + (256 * c + v % 256);
    QuotientIs(v, 256 * p, a, 256 * c + v % 256);
  }

  /** Byte i of the little-endian form is the i-th base-256 digit. */
  lemma {:induction false} LeDigit(v: nat, n: nat, i: nat)
    requires i < n
    ensures Le(v, n)[i] == v / Pow256(i) % 256
  {
    if i > 0 {
      LeDigit(v / 256, n - 1, i - 1);
      ShiftTwice(v, Pow256(i - 1));
    }
  }

  lemma Widths()
    ensures Pow256(4) == 0x1_0000_0000 && Pow256(8) == TWO64
  {
    assert Pow256(4) == 256 * (256 * (256 * (256 * Pow256(0))));
    assert Pow256(8) == 256 * (256 * (256 * (256 * Pow256(4))));
  }

  function U64At(b: seq<u8>, i: nat): u64
    requires i + 8 <= |b|
  {
    FromLeBound(b[i..i + 8]);
    Widths();
    FromLe(b[i..i + 8])
  }

  function U32At(b: seq<u8>, i: nat): u32
    requires i + 4 <= |b|
  {
    FromLeBound(b[i..i + 4]);
    Widths();
    FromLe(b[i..i + 4])
  }

  // ---- Discriminator bytes -------------------------------------------------

  function SideByte(side: Side): u8 {
    if side.Buy? then 0 else 1
  }

  function SideOf(b: u8): Option<Side> {
    if b == 0 then Some(Buy) else if b == 1 then Some(Sell) else None
  }

  function KindByte(kind: AckKind): u8 {
    if kind.Accepted? then 0 else 1
  }

  function KindOf(b: u8): Option<AckKind> {
    if b == 0 then Some(Accepted) else if b == 1 then Some(Cancelled) else None
  }

  function ReasonByte(reason: RejectReason): u8 {
    match reason
    case InvalidPrice => 0
    case InvalidQuantity => 1
    case OrderNotFound => 2
    case NoLongerResting => 3
    case IntegrityViolation => 4
  }

  function ReasonOf(b: u8): Option<RejectReason> {
    if b == 0 then Some(InvalidPrice) else if b == 1 then Some(InvalidQuantity) else if b == 2 then Some(OrderNotFound)
    else if b == 3 then Some(NoLongerResting) else if b == 4 then Some(IntegrityViolation) else None
  }

  function TypeByte(m: Message): u8 {
    match m
    case NewOrder(_, _, _, _, _) => 0
    case CancelOrder(_) => 1
    case Trade(_, _, _, _, _) => 2
    case Ack(_, _) => 3
    case Reject(_, _) => 4
  }

  /** The fixed length of a message type, or None for an unknown type byte. */
  function FrameLength(b: u8): Option<nat> {
    if b == 0 then Some(30) else if b == 1 then Some(9) else if b == 2 then Some(37)
    else if b == 3 || b == 4 then Some(10) else None
  }

  function Length(m: Message): nat {
    FrameLength(TypeByte(m)).value
  }

  // ---- Encoding and decoding ------------------------------------------------

  predicate PriceOk(price: nat) {
    MIN_PRICE <= price <= MAX_PRICE
  }

  predicate QuantityOk(quantity: nat) {
    MIN_QUANTITY <= quantity <= MAX_GATEWAY_QUANTITY
  }

  /** The first field outside its permitted range; price is looked at before quantity. */
  function BadField(m: Message): Option<string> {
    if !m.NewOrder? && !m.Trade? then None
    else if !PriceOk(m.price) then Some("price_ticks")
    else if !QuantityOk(m.quantity) then Some("quantity")
    else None
  }

  function Encoded(m: Message): (b: seq<u8>)
    ensures |b| == Length(m) && b[0] == TypeByte(m)
  {
    match m
    case NewOrder(id, side, price, quantity, arrival) =>
      [0] + Le(id, 8) + [SideByte(side)] + Le(price, 8) + Le(quantity, 4) + Le(arrival, 8)
    case CancelOrder(id) => [1] + Le(id, 8)
    case Trade(exec, price, quantity, incoming, resting) =>
      [2] + Le(exec, 8) + Le(price, 8) + Le(quantity, 4) + Le(incoming, 8) + Le(resting, 8)
    case Ack(id, kind) => [3] + Le(id, 8) + [KindByte(kind)]
    case Reject(id, reason) => [4] + Le(id, 8) + [ReasonByte(reason)]
  }

  /** The `width` bytes from `at` on are the digits of v, least significant first. */
  ghost predicate FieldAt(b: seq<u8>, at: nat, v: nat, width: nat) {
    at + width <= |b| && forall i :: 0 <= i < width ==> b[at + i] == v / Pow256(i) % 256
  }

  lemma FieldHere(pre: seq<u8>, v: nat, width: nat, post: seq<u8>)
    ensures FieldAt(pre + Le(v, width) + post, |pre|, v, width)
  {
    var b := pre + Le(v, width) + post;
    forall i | 0 <= i < width ensures b[|pre| + i] == v / Pow256(i) % 256 {
      LeDigit(v, width, i);
    }
  }

  lemma NewOrderLayout(id: u64, side: Side, price: u64, quantity: u32, arrival: u64)
    ensures var b := Encoded(NewOrder(id, side, price, quantity, arrival));
      && |b| == 30 && b[0] == 0 && FieldAt(b, 1, id, 8) && b[9] == (if side.Buy? then 0 else 1)
      && FieldAt(b, 10, price, 8) && FieldAt(b, 18, quantity, 4) && FieldAt(b, 22, arrival, 8)
  {
    hide FieldAt;
    hide Le;
    var b := Encoded(NewOrder(id, side, price, quantity, arrival));
    var p, q, a, s := Le(price, 8), Le(quantity, 4), Le(arrival, 8), [SideByte(side)];
    FieldHere([0], id, 8, s + p + q + a);
    assert b == [0] + Le(id, 8) + (s + p + q + a);
    FieldHere([0] + Le(id, 8) + s, price, 8, q + a);
    assert b == [0] + Le(id, 8) + s + p + (q + a);
    FieldHere([0] + Le(id, 8) + s + p, quantity, 4, a);
    FieldHere([0] + Le(id, 8) + s + p + q, arrival, 8, []);
    assert b == [0] + Le(id, 8) + s + p + q + a + [];
  }

  lemma TradeLayout(exec: u64, price: u64, quantity: u32, incoming: u64, resting: u64)
    ensures var b := Encoded(Trade(exec, price, quantity, incoming, resting));
      && |b| == 37 && b[0] == 2 && FieldAt(b, 1, exec, 8) && FieldAt(b, 9, price, 8) && FieldAt(b, 17, quantity, 4)
      && FieldAt(b, 21, incoming, 8) && FieldAt(b, 29, resting, 8)
  {
    var b := Encoded(Trade(exec, price, quantity, incoming, resting));
    var e, p, q, i, r := Le(exec, 8), Le(price, 8), Le(quantity, 4), Le(incoming, 8), Le(resting, 8);
    FieldHere([2], exec, 8, p + q + i + r);
    assert b == [2] + e + (p + q + i + r);
    FieldHere([2] + e, price, 8, q + i + r);
    assert b == [2] + e + p + (q + i + r);
    FieldHere([2] + e + p, quantity, 4, i + r);
    assert b == [2] + e + p + q + (i + r);
    FieldHere([2] + e + p + q, incoming, 8, r);
    FieldHere([2] + e + p + q + i, resting, 8, []);
    assert b == [2] + e + p + q + i + r + [];
  }

  lemma ShortLayouts(id: u64, kind: AckKind, reason: RejectReason)
    ensures var b := Encoded(CancelOrder(id)); |b| == 9 && b[0] == 1 && FieldAt(b, 1, id, 8)
    ensures var b := Encoded(Ack(id, kind)); |b| == 10 && b[0] == 3 && FieldAt(b, 1, id, 8) && b[9] == KindByte(kind)
    ensures var b := Encoded(Reject(id, reason));
      |b| == 10 && b[0] == 4 && FieldAt(b, 1, id, 8) && b[9] == ReasonByte(reason)
  {
    FieldHere([1], id, 8, []);
    assert Encoded(CancelOrder(id)) == [1] + Le(id, 8) + [];
    FieldHere([3], id, 8, [KindByte(kind)]);
    FieldHere([4], id, 8, [ReasonByte(reason)]);
  }

  /** A decoded message, unless one of its numeric fields is out of range. */
  function Checked(m: Message): Result<Message> {
    if BadField(m).Some? then Err(FieldOutOfRange(BadField(m).value)) else Ok(m)
  }

  /** Decode a byte string whose length already matches its type byte. */
  function DecodeFields(b: seq<u8>): Result<Message>
    requires b != [] && FrameLength(b[0]) == Some(|b|)
  {
    if b[0] == 0 then
      if SideOf(b[9]).None? then Err(FieldOutOfRange("side"))
      else Checked(NewOrder(U64At(b, 1), SideOf(b[9]).value, U64At(b, 10), U32At(b, 18), U64At(b, 22)))
    else if b[0] == 1 then Ok(CancelOrder(U64At(b, 1)))
    else if b[0] == 2 then Checked(Trade(U64At(b, 1), U64At(b, 9), U32At(b, 17), U64At(b, 21), U64At(b, 29)))
    else if b[0] == 3 then
      if KindOf(b[9]).None? then Err(FieldOutOfRange("kind")) else Ok(Ack(U64At(b, 1), KindOf(b[9]).value))
    else
      if ReasonOf(b[9]).None? then Err(FieldOutOfRange("reason")) else Ok(Reject(U64At(b, 1), ReasonOf(b[9]).value))
  }

  function Decode(b: seq<u8>): Result<Message> {
    if b == [] then Err(InsufficientLength)
    else if FrameLength(b[0]).None? then Err(UnknownType(b[0]))
    else if |b| < FrameLength(b[0]).value then Err(InsufficientLength)
    else if |b| > FrameLength(b[0]).value then Err(ExcessTrailingBytes)
    else DecodeFields(b)
  }

  lemma ReadBack64(pre: seq<u8>, v: u64, post: seq<u8>)
    ensures U64At(pre + Le(v, 8) + post, |pre|) == v
  {
    Widths();
    FromLeOfLe(v, 8);
    assert (pre + Le(v, 8) + post)[|pre|..|pre| + 8] == Le(v, 8);
  }

  lemma ReadBack32(pre: seq<u8>, v: u32, post: seq<u8>)
    ensures U32At(pre + Le(v, 4) + post, |pre|) == v
  {
    Widths();
    FromLeOfLe(v, 4);
    assert (pre + Le(v, 4) + post)[|pre|..|pre| + 4] == Le(v, 4);
  }

  lemma WriteBack64(b: seq<u8>, i: nat)
    requires i + 8 <= |b|
    ensures Le(U64At(b, i), 8) == b[i..i + 8]
  {
    LeOfFromLe(b[i..i + 8]);
  }

  lemma WriteBack32(b: seq<u8>, i: nat)
    requires i + 4 <= |b|
    ensures Le(U32At(b, i), 4) == b[i..i + 4]
  {
    LeOfFromLe(b[i..i + 4]);
  }

  lemma ReadBackNew(m: Message)
    requires m.NewOrder?
    ensures var b := Encoded(m);
      && b[9] == SideByte(m.side)
      && m == NewOrder(U64At(b, 1), m.side, U64At(b, 10), U32At(b, 18), U64At(b, 22))
  {
    hide Le;
    hide U64At;
    hide U32At;
    var id, side := Le(m.orderId, 8), [SideByte(m.side)];
    var price, quantity, arrival := Le(m.price, 8), Le(m.quantity, 4), Le(m.arrival, 8);
    var b := Encoded(m);
    assert b == [0] + id + (side + price + quantity + arrival);
    assert b == ([0] + id + side) + price + (quantity + arrival);
    assert b == ([0] + id + side + price) + quantity + arrival;
    assert b == ([0] + id + side + price + quantity) + arrival + [];
    ReadBack64([0], m.orderId, side + price + quantity + arrival);
    ReadBack64([0] + id + side, m.price, quantity + arrival);
    ReadBack32([0] + id + side + price, m.quantity, arrival);
    ReadBack64([0] + id + side + price + quantity, m.arrival, []);
  }

  lemma ReadBackTrade(m: Message)
    requires m.Trade?
    ensures var b := Encoded(m);
      m == Trade(U64At(b, 1), U64At(b, 9), U32At(b, 17), U64At(b, 21), U64At(b, 29))
  {
    hide Le;
    hide U64At;
    hide U32At;
    var exec, price, quantity := Le(m.execSeq, 8), Le(m.price, 8), Le(m.quantity, 4);
    var incoming, resting := Le(m.incomingId, 8), Le(m.restingId, 8);
    var b := Encoded(m);
    assert b == [2] + exec + (price + quantity + incoming + resting);
    assert b == ([2] + exec) + price + (quantity + incoming + resting);
    assert b == ([2] + exec + price) + quantity + (incoming + resting);
    assert b == ([2] + exec + price + quantity) + incoming + resting;
    assert b == ([2] + exec + price + quantity + incoming) + resting + [];
    ReadBack64([2], m.execSeq, price + quantity + incoming + resting);
    ReadBack64([2] + exec, m.price, quantity + incoming + resting);
    ReadBack32([2] + exec + price, m.quantity, incoming + resting);
    ReadBack64([2] + exec + price + quantity, m.incomingId, resting);
    ReadBack64([2] + exec + price + quantity + incoming, m.restingId, []);
  }

  lemma ReadBackShort(m: Message)
    requires m.CancelOrder? || m.Ack? || m.Reject?
    ensures U64At(Encoded(m), 1) == m.orderId
    ensures m.Ack? ==> Encoded(m)[9] == KindByte(m.kind)
    ensures m.Reject? ==> Encoded(m)[9] == ReasonByte(m.reason)
  {
    hide Le;
    hide U64At;
    var id := Le(m.orderId, 8);
    assert m.CancelOrder? ==> Encoded(m) == [1] + id + [];
    ReadBack64([TypeByte(m)], m.orderId, Encoded(m)[9..]);
    assert Encoded(m) == [TypeByte(m)] + id + Encoded(m)[9..];
  }

  /** Decoding an encoded message gives the message back, or the range error of its first bad field. */
  lemma DecodeEncoded(m: Message)
    ensures Decode(Encoded(m)) == Checked(m)
  {
    hide Encoded;
    hide U64At;
    hide U32At;
    if m.NewOrder? {
      ReadBackNew(m);
    } else if m.Trade? {
      ReadBackTrade(m);
    } else {
      ReadBackShort(m);
    }
  }

  lemma WriteBackNew(b: seq<u8>)
    requires |b| == 30 && b[0] == 0 && Decode(b).Ok?
    ensures Encoded(Decode(b).value) == b
  {
    hide Le;
    hide U64At;
    hide U32At;
    WriteBack64(b, 1);
    WriteBack64(b, 10);
    WriteBack32(b, 18);
    WriteBack64(b, 22);
    assert b == [b[0]] + b[1..9] + [b[9]] + b[10..18] + b[18..22] + b[22..30];
  }

  lemma WriteBackTrade(b: seq<u8>)
    requires |b| == 37 && b[0] == 2 && Decode(b).Ok?
    ensures Encoded(Decode(b).value) == b
  {
    hide Le;
    hide U64At;
    hide U32At;
    WriteBack64(b, 1);
    WriteBack64(b, 9);
    WriteBack32(b, 17);
    WriteBack64(b, 21);
    WriteBack64(b, 29);
    assert b == [b[0]] + b[1..9] + b[9..17] + b[17..21] + b[21..29] + b[29..37];
  }

  lemma WriteBackShort(b: seq<u8>)
    requires b != [] && b[0] in {1, 3, 4} && Decode(b).Ok?
    ensures Encoded(Decode(b).value) == b
  {
    hide Le;
    hide U64At;
    hide U32At;
    WriteBack64(b, 1);
    assert b == [b[0]] + b[1..9] + b[9..];
    assert |b| == 10 ==> b[9..] == [b[9]];
    assert |b| == 9 ==> b[9..] == [];
  }

  /** A byte string that decodes is the encoding of its message, and of no other. */
  lemma EncodedDecode(b: seq<u8>)
    requires Decode(b).Ok?
    ensures Encoded(Decode(b).value) == b && BadField(Decode(b).value).None?
  {
    hide Encoded;
    hide U64At;
    hide U32At;
    if b[0] == 0 {
      WriteBackNew(b);
    } else if b[0] == 2 {
      WriteBackTrade(b);
    } else {
      WriteBackShort(b);
    }
  }

  /** Decoding accepts exactly the encodings of in-range messages. */
  lemma DecodeCharacterized(b: seq<u8>, m: Message)
    ensures Decode(b) == Ok(m) <==> BadField(m).None? && b == Encoded(m)
  {
    hide Encoded;
    hide DecodeFields;
    DecodeEncoded(m);
    if Decode(b).Ok? {
      EncodedDecode(b);
    }
  }
}
