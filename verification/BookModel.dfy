/** Resting orders and their price-time priority, as sorted sequences. */
module BookModel {
  import opened Wire
  import opened LinkedNodes

  datatype Order = Order(id: u64, side: Side, price: u64, arrival: u64, qty: u32)

  /** Higher prices first for bids, lower prices first for asks. */
  predicate PriceRanksFirst(side: Side, a: nat, b: nat) {
    if side.Buy? then a > b else a < b
  }

  predicate HasPriorityOver(aArrival: nat, aId: nat, bArrival: nat, bId: nat) {
    aArrival < bArrival || (aArrival == bArrival && aId < bId)
  }

  /** `a` must match strictly before `b`: better price, then earlier arrival, then lower id. */
  predicate Ahead(a: Order, b: Order) {
    || PriceRanksFirst(a.side, a.price, b.price)
    || (a.price == b.price && HasPriorityOver(a.arrival, a.id, b.arrival, b.id))
  }

  ghost predicate Sorted(s: seq<Order>) {
    forall i, j :: 0 <= i < j < |s| ==> !Ahead(s[j], s[i])
  }

  ghost predicate OnSide(s: seq<Order>, side: Side) {
    forall i :: 0 <= i < |s| ==> s[i].side == side
  }

  /** Stable priority insert: behind everything that is not strictly worse. */
  function InsertSorted(s: seq<Order>, o: Order): seq<Order> {
    if s == [] || Ahead(o, s[0]) then [o] + s else [s[0]] + InsertSorted(s[1..], o)
  }

  lemma {:induction false} InsertSortedAt(s: seq<Order>, o: Order, p: nat)
    requires p <= |s|
    requires forall i :: 0 <= i < p ==> !Ahead(o, s[i])
    requires p < |s| ==> Ahead(o, s[p])
    ensures InsertSorted(s, o) == InsertAt(s, p, o)
  {
    if p > 0 {
      InsertSortedAt(s[1..], o, p - 1);
      assert InsertAt(s, p, o) == [s[0]] + InsertAt(s[1..], p - 1, o);
    }
  }

  /** Where InsertSorted puts `o`. */
  function InsertPoint(s: seq<Order>, o: Order): (p: nat)
    ensures p <= |s|
    ensures forall i :: 0 <= i < p ==> !Ahead(o, s[i])
    ensures p < |s| ==> Ahead(o, s[p])
  {
    if s == [] || Ahead(o, s[0]) then 0 else 1 + InsertPoint(s[1..], o)
  }

  lemma AheadTrans(a: Order, b: Order, c: Order)
    requires a.side == b.side == c.side && Ahead(a, b) && !Ahead(c, b)
    ensures !Ahead(c, a)
  {
  }

  lemma InsertKeepsSorted(s: seq<Order>, o: Order)
    requires Sorted(s) && OnSide(s, o.side)
    ensures Sorted(InsertSorted(s, o)) && OnSide(InsertSorted(s, o), o.side)
  {
    var p := InsertPoint(s, o);
    InsertSortedAt(s, o, p);
    var r := InsertAt(s, p, o);
    forall i, j | 0 <= i < j < |r| ensures !Ahead(r[j], r[i]) {
      if i == p {
        AheadTrans(o, s[p], s[j - 1]);
      } else {
        assert r[i] == s[if i < p then i else i - 1];
        assert j != p ==> r[j] == s[if j < p then j else j - 1];
      }
    }
  }

  lemma {:induction false} InsertAddsOne(s: seq<Order>, o: Order)
    ensures multiset(InsertSorted(s, o)) == multiset(s) + multiset{o}
    ensures |InsertSorted(s, o)| == |s| + 1
  {
    if s != [] && !Ahead(o, s[0]) {
      InsertAddsOne(s[1..], o);
      assert s == [s[0]] + s[1..];
    }
  }

  function Total(s: seq<Order>): nat {
    if s == [] then 0 else s[0].qty + Total(s[1..])
  }

  function Prices(s: seq<Order>): set<u64> {
    set i | 0 <= i < |s| :: s[i].price
  }

  datatype Caps = Caps(orders: nat, levels: nat)

  /** Whether the two pools have room for one more order at (side, price). */
  predicate CanRest(own: seq<Order>, other: seq<Order>, price: u64, caps: Caps) {
    && |own| + |other| < caps.orders
    && (price in Prices(own) || |Prices(own)| + |Prices(other)| < caps.levels)
  }

  /** The first position holding `id`, or |s|. */
  function IndexOf(s: seq<Order>, id: u64): (i: nat)
    ensures i <= |s| && (i < |s| ==> s[i].id == id)
    ensures forall j :: 0 <= j < i ==> s[j].id != id
  {
    if s == [] || s[0].id == id then 0 else 1 + IndexOf(s[1..], id)
  }
}
