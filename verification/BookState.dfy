/** The book's storage together with its two free lists, and the four structural steps on it. */
module BookState {
  import opened Wire
  import opened LinkedNodes
  import opened BookModel
  import opened BookShape
  import opened BookUpdates
  import opened BookOrders

  datatype Pools = Pools(free: seq<nat>, inUse: nat, levelFree: seq<nat>, levelsInUse: nat)

  /**
   * Every slot is free exactly once, in a queue, or the one slot `loose` in transit; only level `hole`
   * may be empty; both counters are exact for `resting` queued orders.
   */
  ghost predicate Accounted(st: Store, pools: Pools, hole: nat, loose: nat, resting: nat) {
    && st.Sized() && st.NoEmptyBut(hole)
    && Covers(st.use, Free, pools.free) && Covers(st.levelUse, Unused, pools.levelFree)
    && (forall i :: 0 <= i < |st.use| && st.use[i].Detached? ==> i == loose)
    && (loose != NULL ==> loose < |st.use| && st.use[loose].Detached?)
    && pools.inUse == resting + (if loose == NULL then 0 else 1)
    && pools.levelsInUse == |st.bids| + |st.asks|
  }

  ghost predicate BookOk(st: Store, pools: Pools, hole: nat, loose: nat) {
    && st.Linked() && st.Ordered()
    && Accounted(st, pools, hole, loose, |st.Slots(Buy)| + |st.Slots(Sell)|)
  }

  lemma BookLinked(st: Store, pools: Pools, hole: nat, loose: nat)
    requires BookOk(st, pools, hole, loose)
    ensures st.Linked()
  {
    hide Store.Linked;
  }

  lemma LadderFacts(st: Store, pools: Pools, hole: nat, loose: nat, side: Side)
    requires BookOk(st, pools, hole, loose)
    ensures st.Sized() && st.LadderOk(side) && st.LadderSorted(side) && InRange(st.Ladder(side), |st.levels|)
  {
  }

  lemma SizeFacts(st: Store, pools: Pools, hole: nat, loose: nat, side: Side)
    requires BookOk(st, pools, hole, loose)
    ensures st.Sized() && InRange(st.Ladder(side), |st.levels|)
  {
  }

  lemma MayEmpty(st: Store, pools: Pools, hole: nat, loose: nat)
    requires BookOk(st, pools, NULL, loose)
    ensures BookOk(st, pools, hole, loose)
  {
    hide Store.Linked;
    hide Store.Ordered;
  }

  lemma EmptyOk(st: Store, pools: Pools)
    requires st.Sized() && st.bidHead == st.askHead == NULL && st.bids == st.asks == []
    requires forall i :: 0 <= i < |st.use| ==> st.use[i] == Free && i in pools.free
    requires forall l :: 0 <= l < |st.levelUse| ==> st.levelUse[l] == Unused && l in pools.levelFree
    requires InRange(pools.free, |st.use|) && InRange(pools.levelFree, |st.levels|)
    requires pools.inUse == pools.levelsInUse == 0
    ensures BookOk(st, pools, NULL, NULL) && Orders(st, Buy) == Orders(st, Sell) == []
  {
    assert st.LadderSorted(Buy) && st.LadderSorted(Sell);
  }

  // ---- Adding a level -----------------------------------------------------

  function WithLadder(st: Store, side: Side, head: nat, ladder: seq<nat>): Store {
    if side.Buy? then st.(bidHead := head, bids := ladder) else st.(askHead := head, asks := ladder)
  }

  function AddedLevel(st: Store, side: Side, k: nat, x: nat, price: u64): Store
    requires x < |st.levels| == |st.queue| == |st.levelUse| && k <= |st.Ladder(side)|
  {
    var ladder := st.Ladder(side);
    var st1 := WithLadder(st, side, if k == 0 then x else st.Head(side), InsertAt(ladder, k, x));
    st1.(levels := LinkBetween(st.levels, x, Level(price, 0, NULL, NULL), At(ladder, k - 1), At(ladder, k)),
         queue := st.queue[x := []],
         levelUse := st.levelUse[x := On(side)])
  }

  /** `price` belongs at position k of the ladder and is not there yet. */
  ghost predicate PricePlace(st: Store, side: Side, k: nat, price: u64) {
    var ladder := st.Ladder(side);
    && k <= |ladder|
    && (forall i :: 0 <= i < k && ladder[i] < |st.levels| ==>
          PriceRanksFirst(side, st.levels[ladder[i]].item.price, price))
    && (k < |ladder| && ladder[k] < |st.levels| ==> PriceRanksFirst(side, price, st.levels[ladder[k]].item.price))
  }

  lemma LadderThreaded(st: Store, side: Side)
    requires st.Linked()
    ensures Threaded(st.levels, st.Ladder(side)) && st.Head(side) == At(st.Ladder(side), 0)
  {
  }

  lemma LadderStart(st: Store, side: Side)
    requires st.LadderOk(side)
    ensures st.Head(side) == At(st.Ladder(side), 0) && InRange(st.Ladder(side), |st.levels|) && |st.levels| <= NULL
  {
  }

  lemma LadderStep(st: Store, side: Side, k: nat)
    requires st.LadderOk(side) && k < |st.Ladder(side)|
    ensures st.Ladder(side)[k] < |st.levels| && st.levels[st.Ladder(side)[k]].next == At(st.Ladder(side), k + 1)
  {
    assert Link(st.levels, st.Ladder(side), k);
  }

  /** The first k levels all rank before `price`. */
  ghost predicate RankedBefore(st: Store, side: Side, k: nat, price: u64) {
    var ladder := st.Ladder(side);
    forall i :: 0 <= i < k <= |ladder| && ladder[i] < |st.levels| ==>
      PriceRanksFirst(side, st.levels[ladder[i]].item.price, price)
  }

  lemma RankedNone(st: Store, side: Side, price: u64)
    ensures RankedBefore(st, side, 0, price)
  {
  }

  lemma RankedNext(st: Store, side: Side, k: nat, price: u64)
    requires RankedBefore(st, side, k, price) && k < |st.Ladder(side)| && st.Ladder(side)[k] < |st.levels|
    requires PriceRanksFirst(side, st.levels[st.Ladder(side)[k]].item.price, price)
    ensures RankedBefore(st, side, k + 1, price)
  {
  }

  /** The walk ends at the place of a missing price. */
  lemma PlaceFound(st: Store, side: Side, k: nat, price: u64)
    requires RankedBefore(st, side, k, price) && st.LadderSorted(side) && InRange(st.Ladder(side), |st.levels|)
    requires k <= |st.Ladder(side)|
    requires k < |st.Ladder(side)| ==> PriceRanksFirst(side, price, st.levels[st.Ladder(side)[k]].item.price)
    ensures PricePlace(st, side, k, price) && NoLevelAt(st, side, price)
  {
    var ladder := st.Ladder(side);
    forall i | 0 <= i < |ladder| ensures st.levels[ladder[i]].item.price != price {
      if i > k {
        assert PriceRanksFirst(side, st.levels[ladder[k]].item.price, st.levels[ladder[i]].item.price);
      }
    }
  }

  lemma LevelFound(st: Store, side: Side, k: nat, price: u64)
    requires k < |st.Ladder(side)| && st.Ladder(side)[k] < |st.levels|
    requires st.levels[st.Ladder(side)[k]].item.price == price
    ensures !NoLevelAt(st, side, price)
  {
  }

  lemma LadderNeighbours(st: Store, side: Side, k: nat)
    requires st.LadderOk(side) && k < |st.Ladder(side)|
    ensures st.Ladder(side)[k] < |st.levels|
    ensures var lv := st.levels[st.Ladder(side)[k]];
      (lv.prev == NULL || lv.prev < |st.levels|) && (lv.next == NULL || lv.next < |st.levels|)
  {
    assert Link(st.levels, st.Ladder(side), k);
  }

  lemma QueueNeighbours(nodes: seq<Node<Order>>, q: seq<nat>, p: nat)
    requires Threaded(nodes, q) && p < |q|
    ensures q[p] < |nodes|
    ensures var n := nodes[q[p]]; (n.prev == NULL || n.prev < |nodes|) && (n.next == NULL || n.next < |nodes|)
  {
    assert Link(nodes, q, p);
  }

  lemma AddedLevelLinked(st: Store, side: Side, k: nat, x: nat, price: u64)
    requires st.Linked() && st.Ordered() && PricePlace(st, side, k, price) && x < |st.levels| && st.levelUse[x].Unused?
    ensures var st' := AddedLevel(st, side, k, x, price);
      && st'.Linked() && st'.Ordered() && st'.Slots(Buy) == st.Slots(Buy) && st'.Slots(Sell) == st.Slots(Sell)
      && |st'.Ladder(side)| == |st.Ladder(side)| + 1 && st'.Ladder(side)[k] == x
      && |st'.levels| == |st.levels| && st'.levels[x].item.price == price
  {
    hide Store.Linked;
    hide Store.LadderOk;
    hide LinkBetween;
    hide Flatten;
    LadderParts(st, side);
    LadderUses(st, side);
    var st' := AddedLevel(st, side, k, x, price);
    assert x !in st.Ladder(side);
    LadderThreaded(st, side);
    LinkBetweenLinksIn(st.levels, st.Ladder(side), k, x, Level(price, 0, NULL, NULL));
    LevelAddedFrame(st, st', side, k, x, price);
    AddLevel(st, st', side, k, x, price);
    AddLevelSlots(st, st', side, k, x);
  }

  lemma CoversTail<U>(use: seq<U>, u: U, x: nat, rest: seq<nat>, v: U)
    requires Covers(use, u, [x] + rest) && x !in rest && u != v
    ensures x < |use| && use[x] == u && Covers(use[x := v], u, rest)
  {
    assert ([x] + rest)[0] == x;
    forall k | 0 <= k < |rest| ensures rest[k] < |use| && use[x := v][rest[k]] == u {
      assert ([x] + rest)[k + 1] == rest[k];
    }
  }

  lemma CoversCons<U>(use: seq<U>, u: U, x: nat, rest: seq<nat>)
    requires Covers(use, u, rest) && x < |use|
    ensures Covers(use[x := u], u, [x] + rest)
  {
  }

  lemma AddedLevelAccounted(st: Store, pools: Pools, side: Side, k: nat, x: nat, rest: seq<nat>, price: u64, n: nat)
    requires Accounted(st, pools, NULL, NULL, n) && k <= |st.Ladder(side)|
    requires pools.levelFree == [x] + rest && x !in rest
    ensures x < |st.levels| && st.levelUse[x].Unused?
    ensures Accounted(AddedLevel(st, side, k, x, price),
                      pools.(levelFree := rest, levelsInUse := pools.levelsInUse + 1), x, NULL, n)
  {
    CoversTail(st.levelUse, Unused, x, rest, On(side));
  }

  lemma AddedLevelOk(st: Store, pools: Pools, side: Side, k: nat, x: nat, rest: seq<nat>, price: u64)
    requires BookOk(st, pools, NULL, NULL) && PricePlace(st, side, k, price)
    requires pools.levelFree == [x] + rest && x !in rest
    ensures x < |st.levels|
    ensures BookOk(AddedLevel(st, side, k, x, price),
                   pools.(levelFree := rest, levelsInUse := pools.levelsInUse + 1), x, NULL)
    ensures var st' := AddedLevel(st, side, k, x, price);
      && st'.Slots(Buy) == st.Slots(Buy) && st'.Slots(Sell) == st.Slots(Sell)
      && |st'.Ladder(side)| == |st.Ladder(side)| + 1 && st'.Ladder(side)[k] == x
      && |st'.levels| == |st.levels| && st'.levels[x].item.price == price
  {
    hide Store.Linked;
    hide Store.Ordered;
    hide Accounted;
    hide LinkBetween;
    hide Flatten;
    hide InsertAt;
    AddedLevelAccounted(st, pools, side, k, x, rest, price, |st.Slots(Buy)| + |st.Slots(Sell)|);
    AddedLevelLinked(st, side, k, x, price);
  }

  // ---- Dropping an empty level --------------------------------------------

  function DroppedLevel(st: Store, side: Side, k: nat): Store
    requires |st.levels| == |st.levelUse| && k < |st.Ladder(side)| && st.Ladder(side)[k] < |st.levels|
  {
    var ladder := st.Ladder(side);
    var x := ladder[k];
    var head := if st.levels[x].prev == NULL then st.levels[x].next else st.Head(side);
    var st' := WithLadder(st, side, head, RemoveAt(ladder, k));
    st'.(levels := Unlink(st.levels, x), levelUse := st.levelUse[x := Unused])
  }

  lemma DroppedLevelLinked(st: Store, side: Side, k: nat)
    requires st.Linked() && st.Ordered() && k < |st.Ladder(side)| && st.queue[st.Ladder(side)[k]] == []
    ensures var st' := DroppedLevel(st, side, k);
      st'.Linked() && st'.Ordered() && st'.Slots(Buy) == st.Slots(Buy) && st'.Slots(Sell) == st.Slots(Sell)
  {
    hide Store.Linked;
    hide Unlink;
    hide Flatten;
    hide RemoveAt;
    LadderParts(st, side);
    LadderUses(st, side);
    var st' := DroppedLevel(st, side, k);
    LadderThreaded(st, side);
    assert Link(st.levels, st.Ladder(side), k);
    UnlinkLinksOut(st.levels, st.Ladder(side), k);
    DropLevel(st, st', side, k);
    DropLevelSlots(st, st', side, k);
  }

  /** The pools after level slot x has been released. */
  function LevelFreed(pools: Pools, x: nat): Pools
    requires pools.levelsInUse > 0
  {
    pools.(levelFree := [x] + pools.levelFree, levelsInUse := pools.levelsInUse - 1)
  }

  lemma DroppedLevelAccounted(st: Store, pools: Pools, side: Side, k: nat, loose: nat, n: nat)
    requires st.Linked() && k < |st.Ladder(side)| && Accounted(st, pools, st.Ladder(side)[k], loose, n)
    ensures pools.levelsInUse > 0
    ensures Accounted(DroppedLevel(st, side, k),
                      LevelFreed(pools, st.Ladder(side)[k]), NULL, loose, n)
  {
    hide Store.Linked;
    LadderRanges(st, side);
    CoversCons(st.levelUse, Unused, st.Ladder(side)[k], pools.levelFree);
  }

  lemma DroppedLevelOk(st: Store, pools: Pools, side: Side, k: nat, loose: nat)
    requires st.Linked() && k < |st.Ladder(side)| && BookOk(st, pools, st.Ladder(side)[k], loose)
    requires st.queue[st.Ladder(side)[k]] == []
    ensures pools.levelsInUse > 0
    ensures BookOk(DroppedLevel(st, side, k), LevelFreed(pools, st.Ladder(side)[k]), NULL, loose)
    ensures var st' := DroppedLevel(st, side, k);
      st'.Slots(Buy) == st.Slots(Buy) && st'.Slots(Sell) == st.Slots(Sell)
  {
    hide Store.Linked;
    hide Store.Ordered;
    DroppedLevelAccounted(st, pools, side, k, loose, |st.Slots(Buy)| + |st.Slots(Sell)|);
    DroppedLevelLinked(st, side, k);
  }

  // ---- Writes that move no queued order -----------------------------------

  /** Same links, price, side and time rank. */
  predicate SameStanding(a: Node<Order>, b: Node<Order>) {
    a.next == b.next && a.prev == b.prev && b.item == a.item.(qty := b.item.qty)
  }

  /** Queued slots keep their standing and no other slot joins a queue. */
  ghost predicate QueuedStand(st: Store, st': Store) {
    && |st'.nodes| == |st.nodes| == |st.use| == |st'.use|
    && forall i :: 0 <= i < |st.use| && (st.use[i].In? || st'.use[i].In?) ==>
         st'.use[i] == st.use[i] && SameStanding(st.nodes[i], st'.nodes[i])
  }

  lemma QueueStands(st: Store, st': Store, l: nat)
    requires st.Sized() && st'.Sized() && QueuedStand(st, st')
    requires l < |st.levels| && st.levelUse[l].On? && st.QueueOk(l) && st.QueueSorted(l)
    requires st'.levels == st.levels && st'.queue == st.queue && st'.levelUse == st.levelUse
    ensures st'.QueueOk(l) && st'.QueueSorted(l)
  {
    ThreadedSame(st.nodes, st'.nodes, st.queue[l]);
  }

  lemma QueuesStand(st: Store, st': Store)
    requires st.Linked() && st.Ordered() && QueuedStand(st, st')
    requires st' == st.(nodes := st'.nodes, use := st'.use)
    ensures st'.Linked() && st'.Ordered()
  {
    hide Store.QueueOk;
    hide Store.QueueSorted;
    hide BestFirst;
    hide Threaded;
    hide Covers;
    forall l | 0 <= l < |st'.levels| && st'.levelUse[l].On? ensures st'.QueueOk(l) && st'.QueueSorted(l) {
      QueueStands(st, st', l);
    }
  }

  // ---- A slot leaving and rejoining the free list -------------------------

  function Loosened(st: Store, x: nat, o: Order): Store
    requires x < |st.nodes| == |st.use|
  {
    st.(nodes := st.nodes[x := Node(o, NULL, NULL)], use := st.use[x := Detached])
  }

  lemma LoosenedLinked(st: Store, x: nat, o: Order)
    requires st.Linked() && st.Ordered() && x < |st.nodes| && !st.use[x].In?
    ensures Loosened(st, x, o).Linked() && Loosened(st, x, o).Ordered()
  {
    hide Store.Linked;
    hide Store.Ordered;
    LadderParts(st, Buy);
    QueuesStand(st, Loosened(st, x, o));
  }

  lemma LoosenedOrders(st: Store, x: nat, o: Order, side: Side)
    requires st.Linked() && x < |st.nodes| && !st.use[x].In?
    ensures Orders(Loosened(st, x, o), side) == Orders(st, side)
  {
    SlotsInRange(st, side);
  }

  lemma LoosenedOk(st: Store, pools: Pools, hole: nat, x: nat, rest: seq<nat>, o: Order)
    requires BookOk(st, pools, hole, NULL) && pools.free == [x] + rest && x !in rest
    ensures x < |st.nodes| && BookOk(Loosened(st, x, o), pools.(free := rest, inUse := pools.inUse + 1), hole, x)
    ensures Orders(Loosened(st, x, o), Buy) == Orders(st, Buy) && Orders(Loosened(st, x, o), Sell) == Orders(st, Sell)
  {
    hide Store.Linked;
    hide Store.Ordered;
    hide Orders;
    CoversTail(st.use, Free, x, rest, Detached);
    LoosenedLinked(st, x, o);
    LoosenedOrders(st, x, o, Buy);
    LoosenedOrders(st, x, o, Sell);
  }

  function Freed(st: Store, x: nat): Store
    requires x < |st.use|
  {
    st.(use := st.use[x := Free])
  }

  lemma FreedOk(st: Store, pools: Pools, hole: nat, x: nat)
    requires BookOk(st, pools, hole, x) && x != NULL
    ensures pools.inUse > 0
    ensures BookOk(Freed(st, x), pools.(free := [x] + pools.free, inUse := pools.inUse - 1), hole, NULL)
    ensures Orders(Freed(st, x), Buy) == Orders(st, Buy) && Orders(Freed(st, x), Sell) == Orders(st, Sell)
  {
    hide Store.Linked;
    hide Store.Ordered;
    CoversCons(st.use, Free, x, pools.free);
    QueuesStand(st, Freed(st, x));
  }

  // ---- Queueing and unqueueing an order -----------------------------------

  function Enqueued(lv: Level, x: nat, prev: nat, next: nat): Level {
    Level(lv.price, lv.count + 1, if prev == NULL then x else lv.head, if next == NULL then x else lv.tail)
  }

  function Dequeued(lv: Level, prev: nat, next: nat): Level {
    Level(lv.price, if lv.count > 0 then lv.count - 1 else 0,
          if prev == NULL then next else lv.head, if next == NULL then prev else lv.tail)
  }

  function Queued(st: Store, l: nat, p: nat, x: nat): Store
    requires l < |st.levels| == |st.queue| && p <= |st.queue[l]| && x < |st.nodes| == |st.use|
  {
    var q := st.queue[l];
    var prev, next := At(q, p - 1), At(q, p);
    st.(nodes := LinkBetween(st.nodes, x, st.nodes[x].item, prev, next),
        levels := st.levels[l := st.levels[l].(item := Enqueued(st.levels[l].item, x, prev, next))],
        queue := st.queue[l := InsertAt(q, p, x)],
        use := st.use[x := In(l)])
  }

  lemma EarlierFrom(nodes: seq<Node<Order>>, q: seq<nat>, p: nat, o: Order)
    requires InRange(q, |nodes|) && TimeOrdered(nodes, q) && p < |q| && Earlier(o, nodes[q[p]].item)
    ensures forall i :: p <= i < |q| ==> Earlier(o, nodes[q[i]].item)
  {
  }

  lemma QueuedWrites(st: Store, l: nat, p: nat, x: nat)
    requires st.Linked() && l < |st.levels| && st.levelUse[l].On? && x < |st.nodes| && st.use[x].Detached?
    requires p <= |st.queue[l]| && st.QueueOk(l)
    ensures OrderWrites(st, Queued(st, l, p, x), l, p, x)
  {
    hide Store.Linked;
    hide LinkBetween;
    QueueUses(st, l);
    assert x !in st.queue[l];
    LinkBetweenLinksIn(st.nodes, st.queue[l], p, x, st.nodes[x].item);
  }

  lemma QueuedLinked(st: Store, l: nat, p: nat, x: nat)
    requires st.Linked() && st.Ordered() && l < |st.levels| && st.levelUse[l].On? && x < |st.nodes|
    requires st.use[x].Detached?
    requires st.nodes[x].item.price == st.levels[l].item.price && st.nodes[x].item.side == st.levelUse[l].side
    requires p <= |st.queue[l]| && st.QueueOk(l)
    requires p > 0 ==> !Earlier(st.nodes[x].item, st.nodes[st.queue[l][p - 1]].item)
    requires p < |st.queue[l]| ==> Earlier(st.nodes[x].item, st.nodes[st.queue[l][p]].item)
    ensures Queued(st, l, p, x).Linked() && Queued(st, l, p, x).Ordered()
  {
    hide Store.Linked;
    hide InsertAt;
    hide LinkBetween;
    QueueUses(st, l);
    assert st.QueueSorted(l);
    if p < |st.queue[l]| {
      EarlierFrom(st.nodes, st.queue[l], p, st.nodes[x].item);
    }
    QueuedWrites(st, l, p, x);
    AddOrder(st, Queued(st, l, p, x), l, p, x);
  }

  lemma QueuedAccounted(st: Store, pools: Pools, l: nat, p: nat, x: nat, n: nat)
    requires Accounted(st, pools, l, x, n) && l < |st.levels| && p <= |st.queue[l]| && x < |st.nodes|  && x != NULL
    ensures Accounted(Queued(st, l, p, x), pools, NULL, NULL, n + 1)
  {
    var st' := Queued(st, l, p, x);
    assert forall m :: 0 <= m < |st.levels| && m != l ==> st'.queue[m] == st.queue[m];
  }

  lemma QueuedEffect(st: Store, st': Store, side: Side, k: nat, p: nat, x: nat)
    requires st.Linked() && st.LadderSorted(side) && st'.Linked() && k < |st.Ladder(side)|
    requires |st'.levels| == |st.levels|
    requires x < |st.nodes| == |st'.nodes| && Fits(st, side, k, p, st.nodes[x].item)
    requires st'.bids == st.bids && st'.asks == st.asks
    requires st'.queue == st.queue[st.Ladder(side)[k] := InsertAt(st.queue[st.Ladder(side)[k]], p, x)]
    requires forall i :: 0 <= i < |st.nodes| ==> st'.nodes[i].item == st.nodes[i].item
    ensures Orders(st', side) == InsertSorted(Orders(st, side), st.nodes[x].item)
    ensures Orders(st', Opposite(side)) == Orders(st, Opposite(side))
  {
    hide Store.Linked;
    hide Orders;
    hide Fits;
    LadderUses(st, side);
    LadderUses(st, Opposite(side));
    AddOrderSorted(st, st', side, k, p, x);
    OtherSideKept(st, st', Opposite(side), st.Ladder(side)[k]);
  }

  lemma LinkBetweenItems<T>(nodes: seq<Node<T>>, x: nat, prev: nat, next: nat)
    requires x < |nodes|
    ensures var nodes' := LinkBetween(nodes, x, nodes[x].item, prev, next);
      |nodes'| == |nodes| && forall i :: 0 <= i < |nodes| ==> nodes'[i].item == nodes[i].item
  {
  }

  lemma UnlinkItems<T>(nodes: seq<Node<T>>, x: nat)
    requires x < |nodes|
    ensures |Unlink(nodes, x)| == |nodes|
    ensures forall i :: 0 <= i < |nodes| ==> Unlink(nodes, x)[i].item == nodes[i].item
  {
  }

  lemma FitsLinked(st: Store, side: Side, k: nat, p: nat, x: nat)
    requires st.Linked() && st.Ordered() && k < |st.Ladder(side)|
    requires x < |st.nodes| && st.use[x].Detached? && Fits(st, side, k, p, st.nodes[x].item)
    ensures var st' := Queued(st, st.Ladder(side)[k], p, x);
      st'.Linked() && st'.Ordered()
  {
    hide Store.Linked;
    hide Store.Ordered;
    LadderUses(st, side);
    QueueOkAt(st, st.Ladder(side)[k]);
    QueuedLinked(st, st.Ladder(side)[k], p, x);
  }

  lemma LooseDetached(st: Store, pools: Pools, hole: nat, loose: nat)
    requires BookOk(st, pools, hole, loose) && loose != NULL
    ensures loose < |st.use| && st.use[loose].Detached?
  {
    hide Store.Linked;
    hide Store.Ordered;
  }

  lemma SlotsCount(st: Store)
    ensures |Orders(st, Buy)| == |st.Slots(Buy)| && |Orders(st, Sell)| == |st.Slots(Sell)|
  {
  }

  /** Queueing a loose slot at its place completes a stable sorted insert. */
  lemma QueuedOk(st: Store, pools: Pools, side: Side, k: nat, p: nat, x: nat)
    requires st.Linked() && k < |st.Ladder(side)| && BookOk(st, pools, st.Ladder(side)[k], x) && x != NULL
    requires x < |st.nodes| && Fits(st, side, k, p, st.nodes[x].item)
    ensures BookOk(Queued(st, st.Ladder(side)[k], p, x), pools, NULL, NULL)
    ensures Orders(Queued(st, st.Ladder(side)[k], p, x), side) == InsertSorted(Orders(st, side), st.nodes[x].item)
    ensures Orders(Queued(st, st.Ladder(side)[k], p, x), Opposite(side)) == Orders(st, Opposite(side))
  {
    hide Store.Linked;
    hide Store.Ordered;
    hide Accounted;
    hide Orders;
    hide LinkBetween;
    hide InsertAt;
    hide Flatten;
    LadderUses(st, side);
    var q := st.queue[st.Ladder(side)[k]];
    LooseDetached(st, pools, st.Ladder(side)[k], x);
    LadderFacts(st, pools, st.Ladder(side)[k], x, side);
    LinkBetweenItems(st.nodes, x, At(q, p - 1), At(q, p));
    FitsLinked(st, side, k, p, x);
    QueuedEffect(st, Queued(st, st.Ladder(side)[k], p, x), side, k, p, x);
    QueuedAccounted(st, pools, st.Ladder(side)[k], p, x, |st.Slots(Buy)| + |st.Slots(Sell)|);
    InsertAddsOne(Orders(st, side), st.nodes[x].item);
    SlotsCount(st);
    SlotsCount(Queued(st, st.Ladder(side)[k], p, x));
  }

  function Unqueued(st: Store, l: nat, p: nat): Store
    requires l < |st.levels| == |st.queue| && p < |st.queue[l]| && st.queue[l][p] < |st.nodes| == |st.use|
  {
    var q := st.queue[l];
    var x := q[p];
    var lv := Dequeued(st.levels[l].item, st.nodes[x].prev, st.nodes[x].next);
    st.(nodes := Unlink(st.nodes, x),
        levels := st.levels[l := st.levels[l].(item := lv)],
        queue := st.queue[l := RemoveAt(q, p)],
        use := st.use[x := Detached])
  }

  lemma EndsRemove(lv: Level, q: seq<nat>, p: nat)
    requires Ends(lv, q) && InRange(q, NULL) && p < |q|
    ensures Ends(Dequeued(lv, At(q, p - 1), At(q, p + 1)), RemoveAt(q, p))
  {
  }

  lemma UnqueuedLinked(st: Store, l: nat, p: nat)
    requires st.Linked() && st.Ordered() && l < |st.levels| && st.levelUse[l].On? && p < |st.queue[l]| && st.QueueOk(l)
    ensures Unqueued(st, l, p).Linked() && Unqueued(st, l, p).Ordered()
  {
    hide Store.Linked;
    hide Store.Ordered;
    hide Unlink;
    hide RemoveAt;
    QueueUses(st, l);
    UnlinkLinksOut(st.nodes, st.queue[l], p);
    assert Link(st.nodes, st.queue[l], p);
    EndsRemove(st.levels[l].item, st.queue[l], p);
    assert OrderUnwrites(st, Unqueued(st, l, p), l, p);
    DropOrder(st, Unqueued(st, l, p), l, p);
  }

  lemma UnqueuedEffect(st: Store, st': Store, side: Side, k: nat, p: nat)
    requires st.Linked() && st'.Linked() && k < |st.Ladder(side)| && |st'.levels| == |st.levels|
    requires |st.nodes| == |st'.nodes|
    requires st'.bids == st.bids && st'.asks == st.asks && p < |st.queue[st.Ladder(side)[k]]|
    requires st'.queue == st.queue[st.Ladder(side)[k] := RemoveAt(st.queue[st.Ladder(side)[k]], p)]
    requires forall i :: 0 <= i < |st.nodes| ==> st'.nodes[i].item == st.nodes[i].item
    ensures Base(st.queue, st.Ladder(side), k) + p < |Orders(st, side)|
    ensures Orders(st', side) == RemoveAt(Orders(st, side), Base(st.queue, st.Ladder(side), k) + p)
    ensures Orders(st', Opposite(side)) == Orders(st, Opposite(side))
  {
    hide Store.Linked;
    hide Orders;
    LadderUses(st, side);
    LadderUses(st, Opposite(side));
    DropOrderSlots(st, st', side, k, p);
    OtherSideKept(st, st', Opposite(side), st.Ladder(side)[k]);
  }

  lemma UnqueuedAccounted(st: Store, pools: Pools, l: nat, p: nat, n: nat)
    requires Accounted(st, pools, NULL, NULL, n) && n > 0
    requires l < |st.levels| && p < |st.queue[l]| && st.queue[l][p] < |st.nodes| && st.use[st.queue[l][p]].In?
    ensures Accounted(Unqueued(st, l, p), pools, l, st.queue[l][p], n - 1)
  {
    var st' := Unqueued(st, l, p);
    assert forall m :: 0 <= m < |st.levels| && m != l ==> st'.queue[m] == st.queue[m];
  }

  lemma RemovesOne<T>(s: seq<T>, p: nat)
    requires p < |s|
    ensures |RemoveAt(s, p)| == |s| - 1
  {
  }

  /** Unqueueing an order deletes exactly its entry. */
  lemma UnqueuedOk(st: Store, pools: Pools, side: Side, k: nat, p: nat)
    requires st.Linked() && k < |st.Ladder(side)| && BookOk(st, pools, NULL, NULL)
    requires p < |st.queue[st.Ladder(side)[k]]| && st.queue[st.Ladder(side)[k]][p] < |st.nodes|
    ensures BookOk(Unqueued(st, st.Ladder(side)[k], p), pools, st.Ladder(side)[k], st.queue[st.Ladder(side)[k]][p])
    ensures Base(st.queue, st.Ladder(side), k) + p < |Orders(st, side)|
    ensures Orders(Unqueued(st, st.Ladder(side)[k], p), side)
         == RemoveAt(Orders(st, side), Base(st.queue, st.Ladder(side), k) + p)
    ensures Orders(Unqueued(st, st.Ladder(side)[k], p), Opposite(side)) == Orders(st, Opposite(side))
  {
    hide Store.Linked;
    hide Store.Ordered;
    hide Store.QueueOk;
    hide Accounted;
    hide Orders;
    hide Unlink;
    hide RemoveAt;
    hide Flatten;
    LadderUses(st, side);
    var l := st.Ladder(side)[k];
    QueueOkAt(st, l);
    QueueUses(st, l);
    UnlinkItems(st.nodes, st.queue[l][p]);
    UnqueuedLinked(st, l, p);
    UnqueuedEffect(st, Unqueued(st, l, p), side, k, p);
    RemovesOne(Orders(st, side), Base(st.queue, st.Ladder(side), k) + p);
    SlotsCount(st);
    SlotsCount(Unqueued(st, l, p));
    UnqueuedAccounted(st, pools, l, p, |st.Slots(Buy)| + |st.Slots(Sell)|);
  }

  // ---- What the operations read off the invariant -------------------------

  lemma QueueFacts(st: Store, pools: Pools, hole: nat, loose: nat, l: nat)
    requires BookOk(st, pools, hole, loose) && l < |st.levelUse| && st.levelUse[l].On?
    ensures st.Sized() && Threaded(st.nodes, st.queue[l]) && Ends(st.levels[l].item, st.queue[l])
    ensures TimeOrdered(st.nodes, st.queue[l])
    ensures loose != NULL ==> loose < |st.nodes| && loose !in st.queue[l]
  {
    assert st.QueueOk(l) && st.QueueSorted(l);
  }

  lemma LevelUseAt(st: Store, pools: Pools, hole: nat, loose: nat, side: Side, k: nat)
    requires BookOk(st, pools, hole, loose) && k < |st.Ladder(side)|
    ensures st.Ladder(side)[k] < |st.levelUse| && st.levelUse[st.Ladder(side)[k]] == On(side)
    ensures st.Ladder(side)[k] < |st.levels| == |st.queue|
  {
  }

  /** The place of the i-th order of a side: its level, found by price alone, and its queue position. */
  lemma PlaceOf(st: Store, pools: Pools, side: Side, i: nat) returns (k: nat, m: nat)
    requires BookOk(st, pools, NULL, NULL) && i < |st.Slots(side)|
    ensures k < |st.Ladder(side)| && st.Ladder(side)[k] < |st.levels| == |st.queue|
    ensures m < |st.queue[st.Ladder(side)[k]]| && st.queue[st.Ladder(side)[k]][m] == st.Slots(side)[i] < |st.nodes|
    ensures i == Base(st.queue, st.Ladder(side), k) + m
    ensures st.nodes[st.Slots(side)[i]].item.price == st.levels[st.Ladder(side)[k]].item.price
    ensures st.nodes[st.Slots(side)[i]].item.side == side
    ensures forall j | 0 <= j < |st.Ladder(side)| && st.Ladder(side)[j] < |st.levels| && j != k ::
      st.levels[st.Ladder(side)[j]].item.price != st.levels[st.Ladder(side)[k]].item.price
  {
    k, m := SlotAt(st, side, i);
    assert st.LadderSorted(side);
  }

  // ---- Levels are the distinct prices -------------------------------------

  ghost function LadderPrices(st: Store, ladder: seq<nat>): set<u64> {
    set i | 0 <= i < |ladder| && ladder[i] < |st.levels| :: st.levels[ladder[i]].item.price
  }

  lemma LadderPricesSnoc(st: Store, ladder: seq<nat>, l: nat)
    requires InRange(ladder, |st.levels|) && l < |st.levels|
    ensures LadderPrices(st, ladder + [l]) == LadderPrices(st, ladder) + {st.levels[l].item.price}
  {
    var more := ladder + [l];
    assert more[|ladder|] == l;
    assert forall i :: 0 <= i < |ladder| ==> more[i] == ladder[i];
    forall q | q in LadderPrices(st, ladder) ensures q in LadderPrices(st, more) {
      var i :| 0 <= i < |ladder| && st.levels[ladder[i]].item.price == q;
      assert more[i] == ladder[i];
    }
  }

  /** Levels that are strictly best first have as many prices as levels. */
  lemma {:induction false} LadderPricesSize(st: Store, ladder: seq<nat>, side: Side)
    requires InRange(ladder, |st.levels|) && BestFirst(st.levels, ladder, side)
    ensures |LadderPrices(st, ladder)| == |ladder|
  {
    if ladder != [] {
      var rest, l := ladder[..|ladder| - 1], ladder[|ladder| - 1];
      assert ladder == rest + [l];
      LadderPricesSize(st, rest, side);
      LadderPricesSnoc(st, rest, l);
      forall i | 0 <= i < |rest| ensures st.levels[rest[i]].item.price != st.levels[l].item.price {
        assert PriceRanksFirst(side, st.levels[ladder[i]].item.price, st.levels[l].item.price);
      }
    }
  }

  lemma LevelFront(st: Store, pools: Pools, side: Side, k: nat)
    requires BookOk(st, pools, NULL, NULL) && k < |st.Ladder(side)|
    ensures InRange(st.Ladder(side), |st.queue|) && st.Ladder(side)[k] < |st.levels|
    ensures var q := st.queue[st.Ladder(side)[k]];
      q != [] && q[0] < |st.nodes| && st.nodes[q[0]].item.price == st.levels[st.Ladder(side)[k]].item.price
  {
    assert st.levelUse[st.Ladder(side)[k]] == On(side);
    assert st.QueueOk(st.Ladder(side)[k]);
  }

  lemma PriceHasOrder(st: Store, pools: Pools, side: Side, k: nat)
    requires BookOk(st, pools, NULL, NULL) && k < |st.Ladder(side)| && st.Ladder(side)[k] < |st.levels|
    ensures st.levels[st.Ladder(side)[k]].item.price in Prices(Orders(st, side))
  {
    hide BookOk;
    hide Flatten;
    var ladder := st.Ladder(side);
    LevelFront(st, pools, side, k);
    FlattenAround(st.queue, ladder, k);
    var i := Base(st.queue, ladder, k);
    assert st.Slots(side)[i] == st.queue[ladder[k]][0];
    assert Orders(st, side)[i].price == st.levels[ladder[k]].item.price;
  }

  /** The levels of a side are its distinct resting prices. */
  lemma LevelsArePrices(st: Store, pools: Pools, side: Side)
    requires BookOk(st, pools, NULL, NULL)
    ensures Prices(Orders(st, side)) == LadderPrices(st, st.Ladder(side))
  {
    hide BookOk;
    hide Flatten;
    var prices, ladder := Prices(Orders(st, side)), st.Ladder(side);
    forall q | q in prices ensures q in LadderPrices(st, ladder) {
      var i :| 0 <= i < |Orders(st, side)| && Orders(st, side)[i].price == q;
      var k, m := PlaceOf(st, pools, side, i);
    }
    forall q | q in LadderPrices(st, ladder) ensures q in prices {
      var k :| 0 <= k < |ladder| && ladder[k] < |st.levels| && st.levels[ladder[k]].item.price == q;
      PriceHasOrder(st, pools, side, k);
    }
  }

  lemma CountFacts(st: Store, pools: Pools)
    requires BookOk(st, pools, NULL, NULL)
    ensures pools.inUse == |Orders(st, Buy)| + |Orders(st, Sell)| && pools.levelsInUse == |st.bids| + |st.asks|
  {
    hide Store.Linked;
    hide Store.Ordered;
    OrdersSize(st, Buy);
    OrdersSize(st, Sell);
  }

  lemma PriceHasLevel(st: Store, side: Side, price: u64)
    ensures price in LadderPrices(st, st.Ladder(side)) <==> !NoLevelAt(st, side, price)
  {
  }

  /** Both pools are exactly as full as the two order sequences say. */
  lemma PoolsCount(st: Store, pools: Pools)
    requires BookOk(st, pools, NULL, NULL)
    ensures pools.inUse == |Orders(st, Buy)| + |Orders(st, Sell)|
    ensures pools.levelsInUse == |Prices(Orders(st, Buy))| + |Prices(Orders(st, Sell))|
    ensures forall side, price :: price in Prices(Orders(st, side)) <==> !NoLevelAt(st, side, price)
  {
    hide BookOk;
    hide Orders;
    hide BestFirst;
    hide LadderPrices;
    hide NoLevelAt;
    CountFacts(st, pools);
    LadderFacts(st, pools, NULL, NULL, Buy);
    LadderFacts(st, pools, NULL, NULL, Sell);
    LadderPricesSize(st, st.bids, Buy);
    LadderPricesSize(st, st.asks, Sell);
    LevelsArePrices(st, pools, Buy);
    LevelsArePrices(st, pools, Sell);
    forall side, price ensures price in Prices(Orders(st, side)) <==> !NoLevelAt(st, side, price) {
      LevelsArePrices(st, pools, side);
      PriceHasLevel(st, side, price);
    }
  }

  lemma OrdersSize(st: Store, side: Side)
    ensures |Orders(st, side)| == |st.Slots(side)|
  {
  }

  // ---- Reducing a resting quantity ----------------------------------------

  function Refilled(st: Store, x: nat, qty: u32): Store
    requires x < |st.nodes|
  {
    st.(nodes := st.nodes[x := st.nodes[x].(item := st.nodes[x].item.(qty := qty))])
  }

  lemma RefilledLinked(st: Store, x: nat, qty: u32)
    requires st.Linked() && st.Ordered() && x < |st.nodes|
    ensures Refilled(st, x, qty).Linked() && Refilled(st, x, qty).Ordered()
  {
    hide Store.Linked;
    hide Store.Ordered;
    LadderParts(st, Buy);
    QueuesStand(st, Refilled(st, x, qty));
  }

  lemma RefilledItems(nodes: seq<Node<Order>>, slots: seq<nat>, x: nat, item: Order)
    requires x < |nodes|
    ensures var items := Items(nodes[x := nodes[x].(item := item)], slots);
      forall j :: 0 <= j < |slots| ==> items[j] == if slots[j] == x then item else Items(nodes, slots)[j]
  {
  }

  lemma OtherSideSlots(st: Store, side: Side, i: nat)
    requires st.Linked() && i < |st.Slots(side)|
    ensures st.Slots(side)[i] !in st.Slots(Opposite(side))
  {
    forall j | 0 <= j < |st.Slots(Opposite(side))| ensures st.Slots(Opposite(side))[j] != st.Slots(side)[i] {
      if side.Buy? { SidesDisjoint(st, i, j); } else { SidesDisjoint(st, j, i); }
    }
  }

  lemma RefilledOrders(st: Store, side: Side, i: nat, qty: u32)
    requires st.Linked() && i < |st.Slots(side)| && st.Slots(side)[i] < |st.nodes|
    ensures var st' := Refilled(st, st.Slots(side)[i], qty);
      && Orders(st', side) == Orders(st, side)[i := Orders(st, side)[i].(qty := qty)]
      && Orders(st', Opposite(side)) == Orders(st, Opposite(side))
  {
    hide Store.Linked;
    var x := st.Slots(side)[i];
    SlotsDistinct(st, side);
    OtherSideSlots(st, side, i);
    RefilledItems(st.nodes, st.Slots(side), x, st.nodes[x].item.(qty := qty));
    RefilledItems(st.nodes, st.Slots(Opposite(side)), x, st.nodes[x].item.(qty := qty));
  }

  /** Changing one resting quantity changes exactly that entry. */
  lemma RefilledOk(st: Store, pools: Pools, side: Side, i: nat, qty: u32)
    requires BookOk(st, pools, NULL, NULL) && i < |st.Slots(side)| && st.Slots(side)[i] < |st.nodes|
    ensures BookOk(Refilled(st, st.Slots(side)[i], qty), pools, NULL, NULL)
    ensures Orders(Refilled(st, st.Slots(side)[i], qty), side)
         == Orders(st, side)[i := Orders(st, side)[i].(qty := qty)]
    ensures Orders(Refilled(st, st.Slots(side)[i], qty), Opposite(side)) == Orders(st, Opposite(side))
  {
    hide Store.Linked;
    hide Store.Ordered;
    RefilledLinked(st, st.Slots(side)[i], qty);
    RefilledOrders(st, side, i, qty);
  }

  lemma LevelNotFree(st: Store, pools: Pools, hole: nat, loose: nat, side: Side, k: nat)
    requires BookOk(st, pools, hole, loose) && k < |st.Ladder(side)|
    ensures st.Ladder(side)[k] !in pools.levelFree && pools.levelsInUse > 0
  {
    LevelUseAt(st, pools, hole, loose, side, k);
  }

  lemma LooseNotFree(st: Store, pools: Pools, hole: nat, loose: nat)
    requires BookOk(st, pools, hole, loose) && loose != NULL
    ensures loose !in pools.free && pools.inUse > 0 && loose < |st.use|
  {
  }

  lemma NotEmptyAfterAll(st: Store, pools: Pools, hole: nat)
    requires BookOk(st, pools, hole, NULL) && hole < |st.queue| && st.queue[hole] != []
    ensures BookOk(st, pools, NULL, NULL)
  {
    hide Store.Linked;
    hide Store.Ordered;
  }

  lemma UnqueuedFacts(st: Store, l: nat, p: nat)
    requires l < |st.levels| == |st.queue| && p < |st.queue[l]| && st.queue[l][p] < |st.nodes| == |st.use|
    requires Ends(st.levels[l].item, st.queue[l])
    ensures var st' := Unqueued(st, l, p);
      && st'.bids == st.bids && st'.asks == st.asks && |st'.levels| == |st.levels| == |st'.queue|
      && st'.levels[l].item.count == |st'.queue[l]|
      && |st'.nodes| == |st.nodes| && st'.nodes[st.queue[l][p]].item == st.nodes[st.queue[l][p]].item
  {
  }

  // ---- Searching by id ----------------------------------------------------

  ghost predicate NoneBefore(s: seq<Order>, n: nat, id: u64) {
    forall j :: 0 <= j < n && j < |s| ==> s[j].id != id
  }

  ghost predicate NoneQueued(nodes: seq<Node<Order>>, q: seq<nat>, n: nat, id: u64) {
    forall m :: 0 <= m < n && m < |q| ==> ItemAt(nodes, q[m]).id != id
  }

  lemma NoneAtStart(s: seq<Order>, id: u64)
    ensures NoneBefore(s, 0, id)
  {
  }

  lemma FirstHit(s: seq<Order>, i: nat, id: u64)
    requires NoneBefore(s, i, id) && i <= |s| && (i < |s| ==> s[i].id == id)
    ensures IndexOf(s, id) == i
  {
  }

  /** Having searched the levels before k and the first m orders of level k. */
  lemma SearchedUpTo(st: Store, side: Side, k: nat, m: nat, id: u64)
    requires k < |st.Ladder(side)| && InRange(st.Ladder(side), |st.queue|) && m <= |st.queue[st.Ladder(side)[k]]|
    requires NoneBefore(Orders(st, side), Base(st.queue, st.Ladder(side), k), id)
    requires NoneQueued(st.nodes, st.queue[st.Ladder(side)[k]], m, id)
    ensures NoneBefore(Orders(st, side), Base(st.queue, st.Ladder(side), k) + m, id)
    ensures m < |st.queue[st.Ladder(side)[k]]| ==>
      && Base(st.queue, st.Ladder(side), k) + m < |st.Slots(side)|
      && st.Slots(side)[Base(st.queue, st.Ladder(side), k) + m] == st.queue[st.Ladder(side)[k]][m]
    ensures Base(st.queue, st.Ladder(side), k + 1)
         == Base(st.queue, st.Ladder(side), k) + |st.queue[st.Ladder(side)[k]]|
  {
    hide Flatten;
    var ladder := st.Ladder(side);
    FlattenAround(st.queue, ladder, k);
    FlattenPrefix(st.queue, ladder, k, k + 1);
    forall j | 0 <= j < Base(st.queue, ladder, k) + m && j < |Orders(st, side)| ensures Orders(st, side)[j].id != id {
      var m' := j - Base(st.queue, ladder, k);
      assert m' >= 0 ==> st.Slots(side)[j] == st.queue[ladder[k]][m'];
    }
  }

  lemma BaseEnds(st: Store, side: Side)
    ensures Base(st.queue, st.Ladder(side), 0) == 0
    ensures Base(st.queue, st.Ladder(side), |st.Ladder(side)|) == |Orders(st, side)|
  {
    assert st.Ladder(side)[..|st.Ladder(side)|] == st.Ladder(side);
  }

  lemma FrontFacts(st: Store, pools: Pools, side: Side)
    requires BookOk(st, pools, NULL, NULL)
    ensures st.Ladder(side) == [] <==> st.Slots(side) == []
    ensures st.Ladder(side) != [] ==>
      && st.Ladder(side)[0] < |st.levels| && st.Slots(side) != []
      && st.levels[st.Ladder(side)[0]].item.head == st.Slots(side)[0] < |st.nodes|
      && st.levels[st.Ladder(side)[0]].item.price == st.nodes[st.Slots(side)[0]].item.price
  {
    hide BookOk;
    if st.Ladder(side) != [] {
      LevelFront(st, pools, side, 0);
      LevelUseAt(st, pools, NULL, NULL, side, 0);
      QueueFacts(st, pools, NULL, NULL, st.Ladder(side)[0]);
    }
  }
}
