/** The order book over pre-allocated pools: every operation in place, specified by two sorted sequences. */
module OrderBook {
  import opened Wire
  import opened LinkedNodes
  import opened Pool
  import opened BookModel
  import opened BookShape
  import opened BookUpdates
  import opened BookOrders
  import opened BookState

  class Book {
    const caps: Caps
    const orders: FreeListPool<Node<Order>>
    const levels: FreeListPool<Node<Level>>
    var bidHead: nat
    var askHead: nat
    ghost var bids: seq<nat>
    ghost var asks: seq<nat>
    ghost var queue: seq<seq<nat>>
    ghost var use: seq<Use>
    ghost var levelUse: seq<LevelUse>

    ghost function Repr(): set<object> {
      {this, orders, orders.slots, orders.nextFree, levels, levels.slots, levels.nextFree}
    }

    ghost predicate Separate() {
      orders.nextFree != levels.nextFree
    }

    ghost function St(): Store
      reads this, orders.slots, levels.slots
    {
      Store(orders.slots[..], levels.slots[..], bidHead, askHead, bids, asks, queue, use, levelUse)
    }

    ghost function PoolState(): Pools
      reads orders, levels
    {
      Pools(orders.free, orders.inUse, levels.free, levels.inUse)
    }

    /** The representation invariant, up to one empty level and one slot in transit. */
    ghost predicate Consistent(hole: nat, loose: nat)
      reads Repr()
    {
      && Separate() && orders.Valid() && levels.Valid()
      && 0 < caps.orders == orders.slots.Length && 0 < caps.levels == levels.slots.Length
      && BookOk(St(), PoolState(), hole, loose)
    }

    ghost predicate Valid()
      reads Repr()
    {
      Consistent(NULL, NULL)
    }

    /** The resting orders of a side, best first. */
    ghost function Resting(side: Side): seq<Order>
      reads this, orders.slots, levels.slots
    {
      Orders(St(), side)
    }

    constructor (caps: Caps)
      requires 0 < caps.orders <= NULL && 0 < caps.levels <= NULL
      ensures Valid() && fresh(Repr()) && this.caps == caps
      ensures Resting(Buy) == [] && Resting(Sell) == []
    {
      hide BookOk;
      hide FreeListPool.Valid;
      this.caps := caps;
      orders := new FreeListPool(caps.orders, Node(Order(0, Buy, 0, 0, 0), NULL, NULL));
      levels := new FreeListPool(caps.levels, Node(Level(0, 0, NULL, NULL), NULL, NULL));
      bidHead, askHead, bids, asks := NULL, NULL, [], [];
      queue := seq(caps.levels, i => []);
      use := seq(caps.orders, i => Free);
      levelUse := seq(caps.levels, i => Unused);
      new;
      orders.FreeInRange();
      levels.FreeInRange();
      EmptyOk(St(), PoolState());
    }

    /** The fixed layout, whatever the contents. */
    ghost predicate Shaped()
      reads Repr()
    {
      && Separate() && 0 < caps.orders == orders.slots.Length == orders.nextFree.Length <= NULL
      && 0 < caps.levels == levels.slots.Length == levels.nextFree.Length <= NULL
    }

    lemma ValidIsShaped()
      requires Valid()
      ensures Shaped()
    {
      hide BookOk;
    }

    /** Free every slot of both pools. */
    method ResetPools()
      requires Shaped()
      modifies orders, orders.nextFree, levels, levels.nextFree
      ensures orders.Valid() && levels.Valid() && orders.inUse == levels.inUse == 0
      ensures forall i :: 0 <= i < caps.orders ==> i in orders.free
      ensures forall l :: 0 <= l < caps.levels ==> l in levels.free
    {
      hide FreeListPool.Valid;
      orders.Reset();
      levels.Reset();
    }

    /** Drop every order and level. */
    method Clear()
      requires Shaped()
      modifies Repr()
      ensures Valid() && Resting(Buy) == [] && Resting(Sell) == []
    {
      hide BookOk;
      hide FreeListPool.Valid;
      hide Orders;
      bidHead, askHead, bids, asks := NULL, NULL, [], [];
      queue := seq(caps.levels, i => []);
      use := seq(caps.orders, i => Free);
      levelUse := seq(caps.levels, i => Unused);
      ResetPools();
      orders.FreeInRange();
      levels.FreeInRange();
      EmptyOk(St(), PoolState());
    }

    /** Copy the heads, and with them the ladders and queues they stand for. */
    method CopyLinks(other: Book)
      requires Repr() !! other.Repr()
      modifies this
      ensures St() == other.St().(nodes := orders.slots[..], levels := levels.slots[..])
    {
      bidHead, askHead, bids, asks := other.bidHead, other.askHead, other.bids, other.asks;
      queue, use, levelUse := other.queue, other.use, other.levelUse;
    }

    /** Copy both pools of another book. */
    method CopyPools(other: Book)
      requires Shaped() && other.Shaped() && caps == other.caps && Repr() !! other.Repr()
      modifies orders, orders.slots, orders.nextFree, levels, levels.slots, levels.nextFree
      ensures other.St() == old(other.St())
      ensures St() == old(St()).(nodes := other.St().nodes, levels := other.St().levels)
      ensures PoolState() == other.PoolState()
      ensures (other.orders.Valid() ==> orders.Valid()) && (other.levels.Valid() ==> levels.Valid())
    {
      hide FreeListPool.Valid;
      orders.CopyFrom(other.orders);
      assert other.orders.Valid() ==> orders.Valid();
      levels.CopyFrom(other.levels);
    }

    /** Member-wise copy of another book of the same capacities. */
    method CopyFrom(other: Book)
      requires Shaped() && other.Shaped() && caps == other.caps && Repr() !! other.Repr()
      modifies Repr()
      ensures St() == other.St() && PoolState() == other.PoolState() && Shaped()
      ensures other.Valid() ==> Valid()
      ensures forall side :: Resting(side) == other.Resting(side)
    {
      hide BookOk;
      hide FreeListPool.Valid;
      hide Orders;
      CopyLinks(other);
      CopyPools(other);
      SameIsValid(other);
    }

    lemma SameIsValid(other: Book)
      requires Shaped() && other.Shaped() && caps == other.caps && St() == other.St()
      requires PoolState() == other.PoolState()
      requires (other.orders.Valid() ==> orders.Valid()) && (other.levels.Valid() ==> levels.Valid())
      ensures other.Valid() ==> Valid()
    {
      hide BookOk;
      hide FreeListPool.Valid;
    }

    /** The level holding (side, price), or NULL when that side has no such level. */
    method LocateLevel(side: Side, price: u64) returns (level: nat, ghost k: nat)
      requires St().LadderOk(side) && St().LadderSorted(side)
      ensures level == At(St().Ladder(side), k)
      ensures level != NULL ==> level < levels.slots.Length && levels.slots[level].item.price == price
      ensures level == NULL ==> NoLevelAt(St(), side, price)
    {
      hide Store.LadderOk;
      hide Store.LadderSorted;
      hide RankedBefore;
      hide NoLevelAt;
      ghost var st := St();
      ghost var ladder := st.Ladder(side);
      LadderStart(st, side);
      RankedNone(st, side, price);
      level, k := if side.Buy? then bidHead else askHead, 0;
      while level != NULL
        invariant k <= |ladder| && level == At(ladder, k)
        invariant RankedBefore(st, side, k, price)
        decreases |ladder| - k
      {
        LadderStep(st, side, k);
        var lp := levels.slots[level].item.price;
        if lp == price {
          return level, k;
        }
        if PriceRanksFirst(side, price, lp) {
          PlaceFound(st, side, k, price);
          return NULL, |ladder|;
        }
        RankedNext(st, side, k, price);
        level, k := levels.slots[level].next, k + 1;
      }
      PlaceFound(st, side, k, price);
    }

    /** Walk a ladder to `price` or to the place where it belongs. */
    method WalkLadder(side: Side, price: u64) returns (prev: nat, cur: nat, found: bool, ghost k: nat)
      requires St().LadderOk(side) && St().LadderSorted(side)
      ensures cur == At(St().Ladder(side), k) && prev == At(St().Ladder(side), k - 1)
      ensures found ==> cur < levels.slots.Length && levels.slots[cur].item.price == price
      ensures found ==> cur != NULL && k < |St().Ladder(side)| && !NoLevelAt(St(), side, price)
      ensures !found ==> PricePlace(St(), side, k, price) && NoLevelAt(St(), side, price)
    {
      hide Store.LadderOk;
      hide Store.LadderSorted;
      hide RankedBefore;
      hide PricePlace;
      hide NoLevelAt;
      ghost var st := St();
      ghost var ladder := st.Ladder(side);
      LadderStart(st, side);
      RankedNone(st, side, price);
      prev, cur, k := NULL, if side.Buy? then bidHead else askHead, 0;
      while cur != NULL
        invariant k <= |ladder| && cur == At(ladder, k) && prev == At(ladder, k - 1)
        invariant RankedBefore(st, side, k, price)
        decreases |ladder| - k
      {
        LadderStep(st, side, k);
        var lp := levels.slots[cur].item.price;
        if lp == price {
          LevelFound(st, side, k, price);
          return prev, cur, true, k;
        }
        if PriceRanksFirst(side, price, lp) {
          PlaceFound(st, side, k, price);
          return prev, cur, false, k;
        }
        RankedNext(st, side, k, price);
        prev, cur, k := cur, levels.slots[cur].next, k + 1;
      }
      PlaceFound(st, side, k, price);
      found := false;
    }

    /** The pointer writes that put an empty level between prev and cur. */
    method LinkLevelNode(node: nat, price: u64, prev: nat, cur: nat)
      requires node < levels.slots.Length <= NULL
      requires (prev < levels.slots.Length || prev == NULL) && (cur < levels.slots.Length || cur == NULL)
      modifies levels.slots
      ensures levels.slots[..] == LinkBetween(old(levels.slots[..]), node, Level(price, 0, NULL, NULL), prev, cur)
    {
      levels.slots[node] := Node(Level(price, 0, NULL, NULL), cur, prev);
      if prev != NULL {
        levels.slots[prev] := levels.slots[prev].(next := node);
      }
      if cur != NULL {
        levels.slots[cur] := levels.slots[cur].(prev := node);
      }
    }

    /** Acquire a level slot and link it in between prev and cur. */
    method LinkLevel(side: Side, price: u64, prev: nat, cur: nat, ghost k: nat) returns (node: nat)
      requires levels.Valid() && !levels.Full() && |queue| == |levelUse| == levels.slots.Length
      requires k <= |St().Ladder(side)| && InRange(St().Ladder(side), levels.slots.Length)
      requires prev == At(St().Ladder(side), k - 1) && cur == At(St().Ladder(side), k)
      modifies this, levels, levels.slots
      ensures levels.Valid() && node < levels.slots.Length && node !in levels.free
      ensures old(levels.free) == [node] + levels.free && levels.inUse == old(levels.inUse) + 1
      ensures St() == AddedLevel(old(St()), side, k, node, price) && use == old(use)
    {
      hide FreeListPool.Valid;
      hide InsertAt;
      hide LinkBetween;
      node := levels.Acquire();
      LinkLevelNode(node, price, prev, cur);
      if prev == NULL {
        if side.Buy? { bidHead := node; } else { askHead := node; }
      }
      if side.Buy? { bids := InsertAt(bids, k, node); } else { asks := InsertAt(asks, k, node); }
      queue := queue[node := []];
      levelUse := levelUse[node := On(side)];
    }

    /** A level for a price that has none, at its sorted place. */
    method CreateLevel(side: Side, price: u64, prev: nat, cur: nat, ghost k: nat) returns (node: nat)
      requires Valid() && !levels.Full() && PricePlace(St(), side, k, price)
      requires prev == At(St().Ladder(side), k - 1) && cur == At(St().Ladder(side), k)
      modifies this, levels, levels.slots
      ensures Consistent(node, NULL) && LevelIs(side, price, node, k)
      ensures St().Slots(Buy) == old(St().Slots(Buy)) && St().Slots(Sell) == old(St().Slots(Sell))
      ensures St().nodes == old(St().nodes) && use == old(use)
    {
      hide BookOk;
      hide AddedLevel;
      hide FreeListPool.Valid;
      hide Flatten;
      ghost var st, pools := St(), PoolState();
      SizeFacts(st, pools, NULL, NULL, side);
      node := LinkLevel(side, price, prev, cur, k);
      AddedLevelOk(st, pools, side, k, node, levels.free, price);
      assert PoolState() == pools.(levelFree := levels.free, levelsInUse := levels.inUse);
    }

    /** `level` is the k-th level of a side and holds `price`. */
    ghost predicate LevelIs(side: Side, price: u64, level: nat, k: nat)
      reads this, orders.slots, levels.slots
    {
      && k < |St().Ladder(side)| && St().Ladder(side)[k] == level
      && level < levels.slots.Length && levels.slots[level].item.price == price
    }

    /**
     * The level of (side, price), linked in at its sorted place when missing; NULL, with nothing
     * changed, exactly when it is missing and the level pool is full.
     */
    method FindOrCreateLevel(side: Side, price: u64) returns (level: nat, ghost k: nat)
      requires Valid()
      modifies this, levels, levels.slots
      ensures level == NULL <==> old(levels.Full() && NoLevelAt(St(), side, price))
      ensures level == NULL ==> unchanged(this) && unchanged(levels) && unchanged(levels.slots)
      ensures level != NULL ==> Consistent(level, NULL) && LevelIs(side, price, level, k)
      ensures level != NULL ==> St().Slots(Buy) == old(St().Slots(Buy)) && St().Slots(Sell) == old(St().Slots(Sell))
      ensures St().nodes == old(St().nodes) && use == old(use)
    {
      hide BookOk;
      hide FreeListPool.Valid;
      hide PricePlace;
      hide NoLevelAt;
      hide Flatten;
      hide Store.LadderOk;
      hide Store.LadderSorted;
      LadderFacts(St(), PoolState(), NULL, NULL, side);
      var prev, cur, found;
      prev, cur, found, k := WalkLadder(side, price);
      if found {
        MayEmpty(St(), PoolState(), cur, NULL);
        return cur, k;
      }
      if levels.Full() {
        return NULL, k;
      }
      level := CreateLevel(side, price, prev, cur, k);
    }

    /** Scan a level from its tail to the last order that does not yield to `node`. */
    method ScanBack(level: nat, node: nat) returns (cur: nat, ghost p: nat)
      requires level < levels.slots.Length && level < |queue| && node < orders.slots.Length
      requires Threaded(orders.slots[..], queue[level]) && Ends(levels.slots[level].item, queue[level])
      requires TimeOrdered(orders.slots[..], queue[level])
      ensures p <= |queue[level]| && cur == At(queue[level], p - 1)
      ensures TimePlace(orders.slots[..], queue[level], p, orders.slots[node].item)
    {
      ghost var nodes, q := orders.slots[..], queue[level];
      var o := orders.slots[node].item;
      cur, p := levels.slots[level].item.tail, |q|;
      while cur != NULL && Earlier(o, orders.slots[cur].item)
        invariant p <= |q| && cur == At(q, p - 1)
        invariant p < |q| ==> Earlier(o, nodes[q[p]].item)
        decreases p
      {
        assert Link(nodes, q, p - 1);
        cur, p := orders.slots[cur].prev, p - 1;
      }
    }

    /** Write `node` into the queue of `level` right after `cur`, or at its head. */
    method LinkOrder(level: nat, node: nat, cur: nat, ghost p: nat)
      requires level < levels.slots.Length == |queue| && node < orders.slots.Length == |use| <= NULL
      requires p <= |queue[level]|
      requires Threaded(orders.slots[..], queue[level]) && Ends(levels.slots[level].item, queue[level])
      requires cur == At(queue[level], p - 1) && node !in queue[level]
      modifies this`queue, this`use, orders.slots, levels.slots
      ensures St() == Queued(old(St()), level, p, node)
    {
      hide InsertAt;
      ghost var q := queue[level];
      var lv := levels.slots[level].item;
      if p > 0 { assert Link(orders.slots[..], q, p - 1); }
      var next := if cur == NULL then lv.head else orders.slots[cur].next;
      assert next == At(q, p);
      orders.slots[node] := orders.slots[node].(prev := cur, next := next);
      if cur != NULL {
        orders.slots[cur] := orders.slots[cur].(next := node);
      }
      if next != NULL {
        orders.slots[next] := orders.slots[next].(prev := node);
      }
      var head := if cur == NULL then node else lv.head;
      var tail := if next == NULL then node else lv.tail;
      levels.slots[level] := levels.slots[level].(item := Level(lv.price, lv.count + 1, head, tail));
      queue := queue[level := InsertAt(q, p, node)];
      use := use[node := In(level)];
    }

    /** Insert a loose slot into its level at its time-priority place. */
    method InsertIntoLevel(level: nat, node: nat, ghost side: Side, ghost k: nat)
      requires Consistent(level, node) && node < orders.slots.Length
      requires LevelIs(side, orders.slots[node].item.price, level, k)
      requires orders.slots[node].item.side == side
      modifies this`queue, this`use, orders.slots, levels.slots
      ensures Valid()
      ensures Resting(side) == InsertSorted(old(Resting(side)), old(orders.slots[node].item))
      ensures Resting(Opposite(side)) == old(Resting(Opposite(side)))
    {
      hide BookOk;
      hide Store.Linked;
      hide Queued;
      ghost var st, pools := St(), PoolState();
      LevelUseAt(st, pools, level, node, side, k);
      QueueFacts(st, pools, level, node, level);
      var cur, p := ScanBack(level, node);
      LinkOrder(level, node, cur, p);
      BookLinked(st, pools, level, node);
      QueuedOk(st, pools, side, k, p, node);
    }

    /** Acquire an order slot and store `o` in it. */
    method TakeSlot(o: Order, ghost hole: nat) returns (node: nat)
      requires Consistent(hole, NULL) && !orders.Full()
      modifies this`use, orders, orders.slots
      ensures Consistent(hole, node) && node < orders.slots.Length && orders.slots[node].item == o
      ensures Resting(Buy) == old(Resting(Buy)) && Resting(Sell) == old(Resting(Sell))
      ensures St().levels == old(St().levels)
    {
      hide BookOk;
      ghost var st, pools := St(), PoolState();
      SizeFacts(st, pools, hole, NULL, Buy);
      node := orders.Acquire();
      LoosenedOk(st, pools, hole, node, orders.free, o);
      orders.slots[node] := Node(o, NULL, NULL);
      use := use[node := Detached];
      assert St() == Loosened(st, node, o);
      assert PoolState() == pools.(free := orders.free, inUse := orders.inUse);
    }

    /** What the two pools say is what the two order sequences say. */
    lemma RoomExactly(side: Side, price: u64)
      requires Valid()
      ensures CanRest(Resting(side), Resting(Opposite(side)), price, caps)
         <==> !orders.Full() && (levels.Full() ==> !NoLevelAt(St(), side, price))
    {
      hide BookOk;
      hide NoLevelAt;
      hide Orders;
      PoolsCount(St(), PoolState());
    }

    /**
     * Insert a resting order: a stable sorted insert on its side when both pools have room, and no
     * change at all otherwise.
     */
    method InsertOrder(o: Order) returns (ok: bool)
      requires Valid()
      modifies Repr()
      ensures ok <==> CanRest(old(Resting(o.side)), old(Resting(Opposite(o.side))), o.price, caps)
      ensures Resting(o.side) == if ok then InsertSorted(old(Resting(o.side)), o) else old(Resting(o.side))
      ensures Resting(Opposite(o.side)) == old(Resting(Opposite(o.side)))
      ensures !ok ==> unchanged(this, orders, orders.slots, orders.nextFree, levels, levels.slots, levels.nextFree)
      ensures Valid()
    {
      hide BookOk;
      hide NoLevelAt;
      hide CanRest;
      hide Items;
      hide Flatten;
      hide FreeListPool.Valid;
      RoomExactly(o.side, o.price);
      if orders.Full() {
        return false;
      }
      var level, k := FindOrCreateLevel(o.side, o.price);
      if level == NULL {
        return false;
      }
      var node := TakeSlot(o, level);
      InsertIntoLevel(level, node, o.side, k);
      ok := true;
    }

    /** Take `node` out of the queue of `level`. */
    method UnlinkFromLevel(level: nat, node: nat, ghost p: nat)
      requires level < levels.slots.Length == |queue| && orders.slots.Length == |use| <= NULL
      requires Threaded(orders.slots[..], queue[level]) && Ends(levels.slots[level].item, queue[level])
      requires p < |queue[level]| && queue[level][p] == node < orders.slots.Length
      modifies this`queue, this`use, orders.slots, levels.slots
      ensures St() == Unqueued(old(St()), level, p)
    {
      hide Threaded;
      hide RemoveAt;
      ghost var q := queue[level];
      var lv, ro := levels.slots[level].item, orders.slots[node];
      QueueNeighbours(orders.slots[..], q, p);
      if ro.prev != NULL {
        orders.slots[ro.prev] := orders.slots[ro.prev].(next := ro.next);
      }
      if ro.next != NULL {
        orders.slots[ro.next] := orders.slots[ro.next].(prev := ro.prev);
      }
      var head := if ro.prev == NULL then ro.next else lv.head;
      var tail := if ro.next == NULL then ro.prev else lv.tail;
      levels.slots[level] := levels.slots[level].(item := Level(lv.price, lv.count - 1, head, tail));
      queue := queue[level := RemoveAt(q, p)];
      use := use[node := Detached];
    }

    /** Unlink an empty level from its ladder and release its slot. */
    method RemoveLevel(side: Side, level: nat, ghost k: nat)
      requires Consistent(level, NULL) && k < |St().Ladder(side)| && St().Ladder(side)[k] == level
      requires level < |queue| && queue[level] == []
      modifies this, levels, levels.nextFree, levels.slots
      ensures Valid() && Resting(Buy) == old(Resting(Buy)) && Resting(Sell) == old(Resting(Sell))
    {
      hide BookOk;
      hide Store.Linked;
      hide DroppedLevel;
      hide Flatten;
      hide FreeListPool.Valid;
      hide Covers;
      hide BestFirst;
      hide Threaded;
      ghost var st, pools := St(), PoolState();
      BookLinked(st, pools, level, NULL);
      LadderFacts(st, pools, level, NULL, side);
      DroppedLevelOk(st, pools, side, k, NULL);
      UnlinkLevel(side, level, k);
      LevelNotFree(st, pools, level, NULL, side, k);
      levels.Release(level);
      assert PoolState() == pools.(levelFree := levels.free, levelsInUse := levels.inUse);
    }

    /** The pointer writes that take `level` out of its ladder. */
    method UnlinkLevel(side: Side, level: nat, ghost k: nat)
      requires |levelUse| == levels.slots.Length <= NULL && k < |St().Ladder(side)| && St().Ladder(side)[k] == level
      requires St().LadderOk(side)
      modifies this, levels.slots
      ensures St() == DroppedLevel(old(St()), side, k)
    {
      hide Store.LadderOk;
      hide RemoveAt;
      LadderNeighbours(St(), side, k);
      var lv := levels.slots[level];
      if lv.prev == NULL {
        if side.Buy? { bidHead := lv.next; } else { askHead := lv.next; }
      } else {
        levels.slots[lv.prev] := levels.slots[lv.prev].(next := lv.next);
      }
      if lv.next != NULL {
        levels.slots[lv.next] := levels.slots[lv.next].(prev := lv.prev);
      }
      if side.Buy? { bids := RemoveAt(bids, k); } else { asks := RemoveAt(asks, k); }
      levelUse := levelUse[level := Unused];
    }

    /** Put a loose slot back on the free list. */
    method ReleaseSlot(node: nat, ghost hole: nat)
      requires Consistent(hole, node) && node < orders.slots.Length
      modifies this`use, orders, orders.nextFree
      ensures Consistent(hole, NULL)
      ensures Resting(Buy) == old(Resting(Buy)) && Resting(Sell) == old(Resting(Sell))
      ensures orders.slots[..] == old(orders.slots[..])
    {
      hide BookOk;
      ghost var st, pools := St(), PoolState();
      LooseNotFree(st, pools, hole, node);
      FreedOk(st, pools, hole, node);
      orders.Release(node);
      use := use[node := Free];
      assert St() == Freed(st, node);
      assert PoolState() == pools.(free := orders.free, inUse := orders.inUse);
    }

    /** Take the i-th order of a side out of its queue, leaving its slot loose. */
    method Detach(node: nat, ghost side: Side, ghost i: nat) returns (level: nat, ghost k: nat)
      requires Valid() && i < |St().Slots(side)| && St().Slots(side)[i] == node
      modifies this`queue, this`use, orders.slots, levels.slots
      ensures Consistent(level, node) && node < orders.slots.Length && level < levels.slots.Length == |queue|
      ensures k < |St().Ladder(side)| && St().Ladder(side)[k] == level
      ensures levels.slots[level].item.count == |queue[level]|
      ensures i < |old(Resting(side))| && Resting(side) == RemoveAt(old(Resting(side)), i)
      ensures Resting(Opposite(side)) == old(Resting(Opposite(side)))
      ensures orders.slots[node].item.side == side
    {
      hide BookOk;
      hide Store.Linked;
      hide Unqueued;
      hide Store.LadderOk;
      hide BestFirst;
      hide Flatten;
      hide Threaded;
      hide TimeOrdered;
      hide FreeListPool.Valid;
      ghost var st, pools := St(), PoolState();
      ghost var place, p := PlaceOf(st, pools, side, i);
      LadderFacts(st, pools, NULL, NULL, side);
      var ro := orders.slots[node].item;
      level, k := LocateLevel(ro.side, ro.price);
      LevelUseAt(st, pools, NULL, NULL, side, k);
      QueueFacts(st, pools, NULL, NULL, level);
      UnlinkFromLevel(level, node, p);
      BookLinked(st, pools, NULL, NULL);
      UnqueuedOk(st, pools, side, k, p);
      UnqueuedFacts(st, level, p);
    }

    /** Remove the i-th order of a side, and its level when it was the last one there. */
    method RemoveOrder(node: nat, ghost side: Side, ghost i: nat)
      requires Valid() && i < |St().Slots(side)| && St().Slots(side)[i] == node
      modifies Repr()
      ensures Valid()
      ensures i < |old(Resting(side))| && Resting(side) == RemoveAt(old(Resting(side)), i)
      ensures Resting(Opposite(side)) == old(Resting(Opposite(side)))
    {
      hide BookOk;
      var level, k := Detach(node, side, i);
      ReleaseSlot(node, level);
      if levels.slots[level].item.count == 0 {
        RemoveLevel(orders.slots[node].item.side, level, k);
      } else {
        NotEmptyAfterAll(St(), PoolState(), level);
      }
    }

    /** The first order of a level with this id, or NULL. */
    method FindInLevel(level: nat, id: u64) returns (node: nat, ghost m: nat)
      requires level < levels.slots.Length && level < |queue| && orders.slots.Length <= NULL
      requires Threaded(orders.slots[..], queue[level]) && Ends(levels.slots[level].item, queue[level])
      ensures m <= |queue[level]| && node == At(queue[level], m) && NoneQueued(orders.slots[..], queue[level], m, id)
      ensures node != NULL ==> node < orders.slots.Length && orders.slots[node].item.id == id
    {
      ghost var nodes, q := orders.slots[..], queue[level];
      node, m := levels.slots[level].item.head, 0;
      while node != NULL && orders.slots[node].item.id != id
        invariant m <= |q| && node == At(q, m) && NoneQueued(nodes, q, m, id)
        decreases |q| - m
      {
        assert Link(nodes, q, m);
        node, m := orders.slots[node].next, m + 1;
      }
    }

    /** The first order of a side with this id, or NULL. */
    method FindOnSide(side: Side, id: u64) returns (node: nat, ghost i: nat)
      requires Valid()
      ensures i == IndexOf(Resting(side), id)
      ensures node == NULL <==> i == |Resting(side)|
      ensures node != NULL ==> i < |St().Slots(side)| && St().Slots(side)[i] == node
    {
      hide BookOk;
      hide Flatten;
      hide BestFirst;
      hide Store.LadderOk;
      hide TimeOrdered;
      hide FreeListPool.Valid;
      hide NoneBefore;
      hide NoneQueued;
      hide IndexOf;
      ghost var st, pools := St(), PoolState();
      ghost var ladder := st.Ladder(side);
      NoneAtStart(Orders(st, side), id);
      LadderFacts(st, pools, NULL, NULL, side);
      LadderStart(st, side);
      BaseEnds(st, side);
      var level := if side.Buy? then bidHead else askHead;
      ghost var k := 0;
      while level != NULL
        invariant k <= |ladder| && level == At(ladder, k)
        invariant NoneBefore(Orders(st, side), Base(st.queue, ladder, k), id)
        decreases |ladder| - k
      {
        LevelUseAt(st, pools, NULL, NULL, side, k);
        QueueFacts(st, pools, NULL, NULL, level);
        ghost var m;
        node, m := FindInLevel(level, id);
        SearchedUpTo(st, side, k, m, id);
        if node != NULL {
          i := Base(st.queue, ladder, k) + m;
          assert Orders(st, side)[i] == st.nodes[node].item;
          FirstHit(Orders(st, side), i, id);
          return;
        }
        LadderStep(st, side, k);
        level, k := levels.slots[level].next, k + 1;
      }
      FirstHit(Orders(st, side), |Orders(st, side)|, id);
      return NULL, |Orders(st, side)|;
    }

    /** The first order with this id, bids before asks, or NULL when it is not resting. */
    method FindOrder(id: u64) returns (node: nat, ghost side: Side, ghost i: nat)
      requires Valid()
      ensures node == NULL <==>
        IndexOf(Resting(Buy), id) == |Resting(Buy)| && IndexOf(Resting(Sell), id) == |Resting(Sell)|
      ensures side == (if IndexOf(Resting(Buy), id) < |Resting(Buy)| then Buy else Sell)
      ensures i == IndexOf(Resting(side), id)
      ensures node == NULL <==> i == |Resting(side)|
      ensures node != NULL ==> i < |St().Slots(side)| && St().Slots(side)[i] == node
    {
      node, i := FindOnSide(Buy, id);
      if node != NULL {
        return node, Buy, i;
      }
      node, i := FindOnSide(Sell, id);
      side := Sell;
    }

    /** The best price of a side and its highest-priority order slot, or NULL when the side is empty. */
    method Front(side: Side) returns (node: nat, price: u64)
      requires Valid()
      ensures node == NULL <==> Resting(side) == []
      ensures node != NULL ==> St().Slots(side) != [] && St().Slots(side)[0] == node < orders.slots.Length
      ensures node != NULL ==> orders.slots[node].item == Resting(side)[0] && price == Resting(side)[0].price
    {
      hide BookOk;
      ghost var st, pools := St(), PoolState();
      LadderFacts(st, pools, NULL, NULL, side);
      FrontFacts(st, pools, side);
      var level := if side.Buy? then bidHead else askHead;
      if level == NULL {
        return NULL, 0;
      }
      node, price := levels.slots[level].item.head, levels.slots[level].item.price;
    }

    /** Set the remaining quantity of the i-th order of a side. */
    method SetQuantity(node: nat, qty: u32, ghost side: Side, ghost i: nat)
      requires Valid() && i < |St().Slots(side)| && St().Slots(side)[i] == node < orders.slots.Length
      modifies orders.slots
      ensures Valid() && i < |old(Resting(side))| && St().Slots(side) == old(St().Slots(side))
      ensures Resting(side) == old(Resting(side))[i := old(Resting(side))[i].(qty := qty)]
      ensures Resting(Opposite(side)) == old(Resting(Opposite(side)))
    {
      hide BookOk;
      ghost var st, pools := St(), PoolState();
      RefilledOk(st, pools, side, i, qty);
      orders.slots[node] := orders.slots[node].(item := orders.slots[node].item.(qty := qty));
      assert St() == Refilled(st, node, qty);
    }
  }
}
