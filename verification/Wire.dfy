/** Wire_Protocol vocabulary shared by the engine, the two codecs and the gateway. */
module Wire {
  const TWO64: nat := 0x1_0000_0000_0000_0000

  type u8 = x: nat | x < 0x100
  type u32 = x: nat | x < 0x1_0000_0000
  type u64 = x: nat | x < 0x1_0000_0000_0000_0000

  datatype Option<+T> = None | Some(value: T)

  datatype Side = Buy | Sell
  datatype AckKind = Accepted | Cancelled
  datatype RejectReason =
    | InvalidPrice
    | InvalidQuantity
    | OrderNotFound
    | NoLongerResting
    | IntegrityViolation

  datatype Message =
    | NewOrder(orderId: u64, side: Side, price: u64, quantity: u32, arrival: u64)
    | CancelOrder(orderId: u64)
    | Trade(execSeq: u64, price: u64, quantity: u32, incomingId: u64, restingId: u64)
    | Ack(orderId: u64, kind: AckKind)
    | Reject(orderId: u64, reason: RejectReason)

  const MIN_PRICE: nat := 1
  const MAX_PRICE: nat := 99_999_999_999
  const MIN_QUANTITY: nat := 1
  const MAX_GATEWAY_QUANTITY: nat := 1_000_000_000
  const MAX_ENGINE_QUANTITY: nat := 1_000_000

  /** Unsigned 64-bit increment with the wrap-around of the source's counters. */
  function Next64(x: u64): u64 {
    if x + 1 == TWO64 then 0 else x + 1
  }

  function Opposite(side: Side): Side {
    if side.Buy? then Sell else Buy
  }

  function Min(a: nat, b: nat): nat {
    if a < b then a else b
  }

  lemma TimesMonotone(d: nat, m: nat, q: nat)
    requires m <= q
    ensures d * m <= d * q
  {
    assert q == m + (q - m);
    assert d * q == d * m + d * (q - m);
  }
}
