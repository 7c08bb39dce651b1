/** The gateway's order-book projection: resting orders by id, with cached price levels. */
module Projection {
  import opened Wire

  datatype Resting = Resting(side: Side, price: u64, remaining: u32)
  datatype Level = Level(quantity: nat, orders: nat)

  type Orders = map<u64, Resting>

  // ---- The three updates on the order map -----------------------------------

  function Insert(m: Orders, id: u64, r: Resting): Orders {
    if r.remaining == 0 then m else m[id := r]
  }

  function Reduce(m: Orders, id: u64, quantity: u32): Orders {
    if id !in m then m
    else if quantity >= m[id].remaining then m - {id}
    else m[id := m[id].(remaining := m[id].remaining - quantity)]
  }

  function Drop(m: Orders, id: u64): Orders {
    m - {id}
  }

  ghost predicate Positive(m: Orders) {
    forall id :: id in m ==> m[id].remaining > 0
  }

  // ---- The level of a price, as a plain fold ---------------------------------

  function Plus(a: Level, b: Level): Level {
    Level(a.quantity + b.quantity, a.orders + b.orders)
  }

  /** What one order contributes to the level of (side, price). */
  function Part(r: Resting, side: Side, price: u64): Level {
    if r.side == side && r.price == price then Level(r.remaining, 1) else Level(0, 0)
  }

  ghost function Sum(ids: set<u64>, m: Orders, side: Side, price: u64): Level
    requires ids <= m.Keys
  {
    if ids == {} then Level(0, 0)
    else
      var id :| id in ids;
      Plus(Part(m[id], side, price), Sum(ids - {id}, m, side, price))
  }

  ghost function LevelAt(m: Orders, side: Side, price: u64): Level {
    Sum(m.Keys, m, side, price)
  }

  lemma {:induction false} SumTake(ids: set<u64>, m: Orders, side: Side, price: u64, id: u64)
    requires ids <= m.Keys && id in ids
    ensures Sum(ids, m, side, price) == Plus(Part(m[id], side, price), Sum(ids - {id}, m, side, price))
    decreases ids
  {
    var x :| x in ids && Sum(ids, m, side, price) == Plus(Part(m[x], side, price), Sum(ids - {x}, m, side, price));
    if x != id {
      var rest := ids - {x} - {id};
      assert rest == ids - {id} - {x};
      SumTake(ids - {x}, m, side, price, id);
      SumTake(ids - {id}, m, side, price, x);
      PlusSwap(Part(m[x], side, price), Part(m[id], side, price), Sum(rest, m, side, price));
    }
  }

  predicate Balanced(l: Level) {
    l.orders == 0 <==> l.quantity == 0
  }

  lemma PlusPositive(a: Level, b: Level)
    requires Balanced(a) && Balanced(b)
    ensures Balanced(Plus(a, b))
  {
    if a.orders == 0 {
      assert a.quantity == 0;
    } else {
      assert a.quantity > 0;
    }
  }

  lemma PlusSwap(a: Level, b: Level, c: Level)
    ensures Plus(a, Plus(b, c)) == Plus(b, Plus(a, c))
  {
  }

  lemma {:induction false} SumSame(ids: set<u64>, m: Orders, m': Orders, side: Side, price: u64)
    requires ids <= m.Keys && ids <= m'.Keys && forall id :: id in ids ==> m[id] == m'[id]
    ensures Sum(ids, m, side, price) == Sum(ids, m', side, price)
    decreases ids
  {
    if ids != {} {
      var id :| id in ids;
      SumTake(ids, m, side, price, id);
      SumTake(ids, m', side, price, id);
      SumSame(ids - {id}, m, m', side, price);
    }
  }

  /** Taking an order out takes its part out of its level. */
  lemma LevelWithout(m: Orders, id: u64, side: Side, price: u64)
    requires id in m
    ensures LevelAt(m, side, price) == Plus(Part(m[id], side, price), LevelAt(m - {id}, side, price))
  {
    SumTake(m.Keys, m, side, price, id);
    assert (m - {id}).Keys == m.Keys - {id};
    SumSame(m.Keys - {id}, m, m - {id}, side, price);
  }

  lemma LevelWith(m: Orders, id: u64, r: Resting, side: Side, price: u64)
    requires id !in m
    ensures LevelAt(m[id := r], side, price) == Plus(Part(r, side, price), LevelAt(m, side, price))
  {
    LevelWithout(m[id := r], id, side, price);
    assert m[id := r] - {id} == m;
  }

  lemma {:induction false} SumPositive(ids: set<u64>, m: Orders, side: Side, price: u64)
    requires ids <= m.Keys && Positive(m)
    ensures Balanced(Sum(ids, m, side, price))
    decreases ids
  {
    if ids != {} {
      var id :| id in ids;
      assert m[id].remaining > 0;
      SumTake(ids, m, side, price, id);
      SumPositive(ids - {id}, m, side, price);
      PlusPositive(Part(m[id], side, price), Sum(ids - {id}, m, side, price));
    }
  }

  /** A level has orders iff it has quantity, when every remaining is positive. */
  lemma LevelPositive(m: Orders, side: Side, price: u64)
    requires Positive(m)
    ensures Balanced(LevelAt(m, side, price))
  {
    SumPositive(m.Keys, m, side, price);
  }

  // ---- The cached levels -----------------------------------------------------

  /** A cached entry is exactly the fold, and is there iff some order is. */
  ghost predicate Caches(levels: map<u64, Level>, m: Orders, side: Side, price: u64) {
    var level := LevelAt(m, side, price);
    if level.orders == 0 then price !in levels else price in levels && levels[price] == level
  }

  ghost predicate AllCached(levels: map<u64, Level>, m: Orders, side: Side) {
    forall price: u64 :: Caches(levels, m, side, price)
  }

  function SatSub(a: nat, b: nat): nat {
    if a < b then 0 else a - b
  }

  function Added(levels: map<u64, Level>, price: u64, remaining: u32): map<u64, Level> {
    var l := if price in levels then levels[price] else Level(0, 0);
    levels[price := Level(l.quantity + remaining, l.orders + 1)]
  }

  /** Take `quantity`, and an order when `emptied`, off a level; drop the level when nothing is left. */
  function Taken(levels: map<u64, Level>, price: u64, quantity: nat, emptied: bool): map<u64, Level> {
    if price !in levels then levels
    else
      var l := Level(SatSub(levels[price].quantity, quantity), SatSub(levels[price].orders, if emptied then 1 else 0));
      if l.orders == 0 || l.quantity == 0 then levels - {price} else levels[price := l]
  }

  lemma AddedCaches(levels: map<u64, Level>, m: Orders, side: Side, id: u64, r: Resting)
    requires AllCached(levels, m, side) && Positive(m) && id !in m && r.remaining > 0
    ensures AllCached(if r.side == side then Added(levels, r.price, r.remaining) else levels, m[id := r], side)
  {
    hide LevelAt;
    var levels' := if r.side == side then Added(levels, r.price, r.remaining) else levels;
    var m' := m[id := r];
    forall price: u64 ensures Caches(levels', m', side, price) {
      LevelWith(m, id, r, side, price);
      LevelPositive(m, side, price);
      assert Caches(levels, m, side, price);
    }
  }

  /** Removing an order from its cached level leaves exactly the rest, and no level when there is no rest. */
  lemma TakenExact(levels: map<u64, Level>, price: u64, quantity: u32, rest: Level)
    requires price in levels && levels[price] == Plus(Level(quantity, 1), rest) && Balanced(rest)
    ensures Taken(levels, price, quantity, true) == if rest.orders == 0 then levels - {price} else levels[price := rest]
  {
    if rest.orders != 0 {
      assert rest.quantity > 0;
    }
  }

  lemma RemovedCaches(levels: map<u64, Level>, m: Orders, side: Side, id: u64)
    requires AllCached(levels, m, side) && Positive(m) && id in m
    ensures AllCached(if m[id].side == side then Taken(levels, m[id].price, m[id].remaining, true) else levels,
                      m - {id}, side)
  {
    hide LevelAt;
    hide Taken;
    hide Balanced;
    var r, m' := m[id], m - {id};
    var levels' := if r.side == side then Taken(levels, r.price, r.remaining, true) else levels;
    if r.side == side {
      LevelWithout(m, id, side, r.price);
      LevelPositive(m', side, r.price);
      assert Caches(levels, m, side, r.price);
      TakenExact(levels, r.price, r.remaining, LevelAt(m', side, r.price));
    }
    forall price: u64 ensures Caches(levels', m', side, price) {
      LevelWithout(m, id, side, price);
      assert Caches(levels, m, side, price);
    }
  }

  lemma ReducedCaches(levels: map<u64, Level>, m: Orders, side: Side, id: u64, quantity: u32)
    requires AllCached(levels, m, side) && Positive(m) && id in m && quantity < m[id].remaining
    ensures AllCached(if m[id].side == side then Taken(levels, m[id].price, quantity, false) else levels,
                      Reduce(m, id, quantity), side)
  {
    hide LevelAt;
    var r, r' := m[id], m[id].(remaining := m[id].remaining - quantity);
    var levels' := if r.side == side then Taken(levels, r.price, quantity, false) else levels;
    var base, m' := m - {id}, Reduce(m, id, quantity);
    assert m' == base[id := r'];
    forall price: u64 ensures Caches(levels', m', side, price) {
      LevelWithout(m, id, side, price);
      LevelWith(base, id, r', side, price);
      assert Caches(levels, m, side, price);
    }
  }

  // ---- The projection as an object -------------------------------------------

  class OrderBook {
    var orders: Orders
    var bids: map<u64, Level>
    var asks: map<u64, Level>
    var sequence: nat

    /** The cached levels of both sides are the fold over the order map. */
    ghost predicate Valid()
      reads this
    {
      Positive(orders) && AllCached(bids, orders, Buy) && AllCached(asks, orders, Sell)
    }

    constructor ()
      ensures Valid() && orders == map[] && sequence == 0
    {
      orders, bids, asks, sequence := map[], map[], map[], 0;
    }

    /** Insert the residual of an accepted order, replacing any prior tracking of its id. */
    method InsertResting(id: u64, r: Resting)
      requires Valid()
      modifies this
      ensures Valid() && orders == Insert(old(orders), id, r)
    {
      hide AllCached;
      if r.remaining == 0 {
        return;
      }
      if id in orders {
        Remove(id);
      }
      AddedCaches(bids, orders, Buy, id, r);
      AddedCaches(asks, orders, Sell, id, r);
      orders := orders[id := r];
      if r.side.Buy? {
        bids := Added(bids, r.price, r.remaining);
      } else {
        asks := Added(asks, r.price, r.remaining);
      }
      sequence := sequence + 1;
    }

    /** Reduce a resting order by a fill, removing it once consumed; unknown ids are ignored. */
    method ApplyTrade(id: u64, quantity: u32)
      requires Valid()
      modifies this
      ensures Valid() && orders == Reduce(old(orders), id, quantity)
    {
      hide AllCached;
      if id !in orders {
        return;
      }
      var r := orders[id];
      var decrement: u32 := Min(quantity, r.remaining);
      var emptied := r.remaining == decrement;
      if emptied {
        RemovedCaches(bids, orders, Buy, id);
        RemovedCaches(asks, orders, Sell, id);
        orders := orders - {id};
      } else {
        ReducedCaches(bids, orders, Buy, id, decrement);
        ReducedCaches(asks, orders, Sell, id, decrement);
        orders := orders[id := r.(remaining := r.remaining - decrement)];
      }
      if r.side.Buy? {
        bids := Taken(bids, r.price, decrement, emptied);
      } else {
        asks := Taken(asks, r.price, decrement, emptied);
      }
      sequence := sequence + 1;
    }

    /** Remove a resting order outright. */
    method Remove(id: u64)
      requires Valid()
      modifies this
      ensures Valid() && orders == Drop(old(orders), id)
    {
      hide AllCached;
      if id !in orders {
        return;
      }
      var r := orders[id];
      RemovedCaches(bids, orders, Buy, id);
      RemovedCaches(asks, orders, Sell, id);
      orders := orders - {id};
      if r.side.Buy? {
        bids := Taken(bids, r.price, r.remaining, true);
      } else {
        asks := Taken(asks, r.price, r.remaining, true);
      }
      sequence := sequence + 1;
    }
  }
}
