/** How the four pointer updates of the order book change its linked storage and its order sequences. */
module BookUpdates {
  import opened Wire
  import opened LinkedNodes
  import opened BookModel
  import opened BookShape

  lemma SlotAt(st: Store, side: Side, i: nat) returns (k: nat, m: nat)
    requires st.Linked() && i < |st.Slots(side)|
    ensures k < |st.Ladder(side)|
    ensures var l := st.Ladder(side)[k];
      && l < |st.levels| && st.levelUse[l] == On(side) && m < |st.queue[l]| && st.Slots(side)[i] == st.queue[l][m]
      && i == |Flatten(st.queue, st.Ladder(side)[..k])| + m
      && st.Slots(side)[i] < |st.nodes| && st.use[st.Slots(side)[i]] == In(l)
      && st.nodes[st.Slots(side)[i]].item.price == st.levels[l].item.price
      && st.nodes[st.Slots(side)[i]].item.side == side
  {
    k, m := FlattenMember(st.queue, st.Ladder(side), i);
    var l := st.Ladder(side)[k];
    assert st.levelUse[l] == On(side) && st.QueueOk(l);
  }

  lemma SlotsInRange(st: Store, side: Side)
    requires st.Linked()
    ensures InRange(st.Slots(side), |st.nodes|)
    ensures forall i :: 0 <= i < |st.Slots(side)| ==> st.use[st.Slots(side)[i]].In?
  {
    forall i | 0 <= i < |st.Slots(side)| ensures st.Slots(side)[i] < |st.nodes| && st.use[st.Slots(side)[i]].In? {
      var k, m := SlotAt(st, side, i);
    }
  }

  lemma LadderRanges(st: Store, side: Side)
    requires st.Linked()
    ensures st.Sized() && InRange(st.Ladder(side), |st.queue|) && Distinct(st.Ladder(side))
    ensures InRange(st.Slots(side), |st.nodes|)
  {
    SlotsInRange(st, side);
  }

  /** No slot appears twice in a side. */
  lemma SlotsDistinct(st: Store, side: Side)
    requires st.Linked()
    ensures Distinct(st.Slots(side))
  {
    var s := st.Slots(side);
    forall i, j | 0 <= i < j < |s| ensures s[i] != s[j] {
      var k, m := SlotAt(st, side, i);
      var k', m' := SlotAt(st, side, j);
      assert k != k' ==> st.Ladder(side)[k] != st.Ladder(side)[k'];
      assert st.QueueOk(st.Ladder(side)[k]);
    }
  }

  /** No slot appears on both sides. */
  lemma SidesDisjoint(st: Store, i: nat, j: nat)
    requires st.Linked() && i < |st.Slots(Buy)| && j < |st.Slots(Sell)|
    ensures st.Slots(Buy)[i] != st.Slots(Sell)[j]
  {
    var k, m := SlotAt(st, Buy, i);
    var k', m' := SlotAt(st, Sell, j);
  }

  function ItemAt(nodes: seq<Node<Order>>, i: nat): Order {
    if i < |nodes| then nodes[i].item else Order(0, Buy, 0, 0, 0)
  }

  function Items(nodes: seq<Node<Order>>, slots: seq<nat>): seq<Order> {
    seq(|slots|, k requires 0 <= k < |slots| => ItemAt(nodes, slots[k]))
  }

  /** The abstraction: the resting orders of a side in matching order. */
  ghost function Orders(st: Store, side: Side): seq<Order> {
    Items(st.nodes, st.Slots(side))
  }

  lemma LadderParts(st: Store, side: Side)
    requires st.Linked()
    ensures st.Sized() && st.LadderOk(side) && st.LadderOk(Opposite(side))
    ensures InRange(st.Ladder(side), |st.levels|) && Distinct(st.Ladder(side))
  {
  }

  lemma QueueOkAt(st: Store, l: nat)
    requires st.Linked() && l < |st.levels| && st.levelUse[l].On?
    ensures st.Sized() && st.QueueOk(l)
  {
  }

  // ---- A new, empty level -------------------------------------------------

  /** The writes that make slot x the k-th level of a side. */
  ghost predicate LevelWrites(st: Store, st': Store, side: Side, k: nat, x: nat, price: u64)
    requires st.Linked() && x < |st.levels| && k <= |st.Ladder(side)|
  {
    && st'.nodes == st.nodes && st'.use == st.use && |st'.levels| == |st.levels|
    && LinkedIn(st.levels, st'.levels, st.Ladder(side), k, x)
    && st'.levels[x].item == Level(price, 0, NULL, NULL)
    && st'.Head(side) == (if k == 0 then x else st.Head(side))
    && st'.Head(Opposite(side)) == st.Head(Opposite(side))
    && st'.Ladder(side) == InsertAt(st.Ladder(side), k, x)
    && st'.Ladder(Opposite(side)) == st.Ladder(Opposite(side))
    && st'.queue == st.queue[x := []]
    && st'.levelUse == st.levelUse[x := On(side)]
  }

  /** No level other than x changes its contents, and none of the other side changes at all. */
  ghost predicate LevelsKept(st: Store, st': Store, side: Side, x: nat)
    requires st.Sized() && |st'.levels| == |st.levels|
  {
    && (forall l :: 0 <= l < |st.levels| && l != x ==> st'.levels[l].item == st.levels[l].item)
    && (forall l :: 0 <= l < |st.levels| && l != x && st.levelUse[l] != On(side) ==> st'.levels[l] == st.levels[l])
  }

  lemma LevelAddedFrame(st: Store, st': Store, side: Side, k: nat, x: nat, price: u64)
    requires st.Linked() && x < |st.levels| && k <= |st.Ladder(side)| && st.levelUse[x].Unused?
    requires LevelWrites(st, st', side, k, x, price)
    ensures LevelsKept(st, st', side, x) && st'.Sized() && x !in st.Ladder(Buy) && x !in st.Ladder(Sell)
  {
    var ladder := st.Ladder(side);
    assert k > 0 ==> st.levelUse[ladder[k - 1]] == On(side);
    assert k < |ladder| ==> st.levelUse[ladder[k]] == On(side);
  }

  lemma LevelAddedLadders(st: Store, st': Store, side: Side, k: nat, x: nat, price: u64)
    requires st.Sized() && st.LadderOk(side) && st.LadderOk(Opposite(side))
    requires x < |st.levels| == |st'.levels| && k <= |st.Ladder(side)| && st.levelUse[x].Unused?
    requires LinkedIn(st.levels, st'.levels, st.Ladder(side), k, x) && LevelsKept(st, st', side, x)
    requires st'.Head(side) == (if k == 0 then x else st.Head(side))
    requires st'.Head(Opposite(side)) == st.Head(Opposite(side))
    requires st'.Ladder(side) == InsertAt(st.Ladder(side), k, x)
    requires st'.Ladder(Opposite(side)) == st.Ladder(Opposite(side))
    requires st'.levelUse == st.levelUse[x := On(side)]
    ensures st'.LadderOk(side) && st'.LadderOk(Opposite(side))
  {
    ThreadedInsert(st.levels, st'.levels, st.Ladder(side), k, x);
    CoversInsert(st.levelUse, On(side), st.Ladder(side), k, x);
    ThreadedSame(st.levels, st'.levels, st.Ladder(Opposite(side)));
  }

  lemma NothingQueued(nodes: seq<Node<Order>>, price: u64, side: Side)
    requires |nodes| <= NULL
    ensures Threaded(nodes, []) && Stamped(nodes, [], price, side)
  {
  }

  lemma LevelAddedQueues(st: Store, st': Store, side: Side, x: nat, price: u64)
    requires st.Linked() && x < |st.levels| == |st'.levels| && st.levelUse[x].Unused? && LevelsKept(st, st', side, x)
    requires st'.Sized()
    requires st'.nodes == st.nodes && st'.use == st.use && st'.queue == st.queue[x := []]
    requires st'.levels[x].item == Level(price, 0, NULL, NULL) && st'.levelUse == st.levelUse[x := On(side)]
    requires st'.LadderOk(side) && st'.LadderOk(Opposite(side))
    ensures st'.Linked()
  {
    hide Threaded;
    hide Stamped;
    hide Store.LadderOk;
    forall l | 0 <= l < |st'.levels| && st'.levelUse[l].On? ensures st'.QueueOk(l) {
      if l == x {
        NothingQueued(st'.nodes, st'.levels[x].item.price, side);
      } else {
        assert st.QueueOk(l);
      }
    }
  }

  /** Inserting a level with an empty queue does not change the flattened order. */
  lemma FlattenEmptyLevel(queue: seq<seq<nat>>, ladder: seq<nat>, k: nat, x: nat)
    requires InRange(ladder, |queue|) && k <= |ladder| && x < |queue| && x !in ladder
    ensures Flatten(queue[x := []], InsertAt(ladder, k, x)) == Flatten(queue, ladder)
  {
    hide Flatten;
    var queue' := queue[x := []];
    assert InsertAt(ladder, k, x)[..k] == ladder[..k] && InsertAt(ladder, k, x)[k + 1..] == ladder[k..];
    FlattenAround(queue', InsertAt(ladder, k, x), k);
    FlattenSame(queue, queue', ladder[..k]);
    FlattenSame(queue, queue', ladder[k..]);
    FlattenSplit(queue, ladder[..k], ladder[k..]);
    assert ladder == ladder[..k] + ladder[k..];
  }

  lemma BestFirstInsert(
    levels: seq<Node<Level>>, levels': seq<Node<Level>>, ladder: seq<nat>, side: Side, k: nat, x: nat)
    requires |levels'| == |levels| && InRange(ladder, |levels|) && BestFirst(levels, ladder, side)
    requires x < |levels| && k <= |ladder|
    requires forall i :: 0 <= i < |ladder| ==> levels'[ladder[i]].item == levels[ladder[i]].item
    requires forall i :: 0 <= i < k ==> PriceRanksFirst(side, levels[ladder[i]].item.price, levels'[x].item.price)
    requires k < |ladder| ==> PriceRanksFirst(side, levels'[x].item.price, levels[ladder[k]].item.price)
    ensures InRange(InsertAt(ladder, k, x), |levels'|) && BestFirst(levels', InsertAt(ladder, k, x), side)
  {
    var ladder' := InsertAt(ladder, k, x);
    forall i, j | 0 <= i < j < |ladder'|
      ensures PriceRanksFirst(side, levels'[ladder'[i]].item.price, levels'[ladder'[j]].item.price)
    {
      assert i != k ==> ladder'[i] == ladder[if i < k then i else i - 1];
      assert j != k ==> ladder'[j] == ladder[if j < k then j else j - 1];
    }
  }

  lemma OrderedKept(st: Store, st': Store, side: Side, x: nat)
    requires st.Sized() && st'.Sized() && st.Ordered() && |st'.levels| == |st.levels| && st'.nodes == st.nodes
    requires st'.LadderSorted(side) && st'.Ladder(Opposite(side)) == st.Ladder(Opposite(side))
    requires LevelsKept(st, st', side, x) && x !in st.Ladder(Opposite(side))
    requires forall l :: 0 <= l < |st.levels| && l != x ==>
      st'.queue[l] == st.queue[l] && st'.levelUse[l] == st.levelUse[l]
    requires x < |st.levels| ==> st'.levelUse[x].Unused? || st'.queue[x] == []
    ensures st'.Ordered()
  {
    assert st.LadderSorted(Opposite(side));
    assert st'.LadderSorted(Opposite(side));
    forall l | 0 <= l < |st'.levels| && st'.levelUse[l].On? ensures st'.QueueSorted(l) {
      assert l != x ==> st.QueueSorted(l);
    }
  }

  /** Adding a level at its sorted position keeps the order and both order sequences. */
  lemma AddLevel(st: Store, st': Store, side: Side, k: nat, x: nat, price: u64)
    requires st.Linked() && st.Ordered() && x < |st.levels| && k <= |st.Ladder(side)|
    requires st.levelUse[x].Unused? && LevelWrites(st, st', side, k, x, price)
    requires forall i :: 0 <= i < k ==> PriceRanksFirst(side, st.levels[st.Ladder(side)[i]].item.price, price)
    requires k < |st.Ladder(side)| ==> PriceRanksFirst(side, price, st.levels[st.Ladder(side)[k]].item.price)
    ensures st'.Linked() && st'.Ordered()
  {
    hide Store.Linked;
    hide Store.LadderOk;
    hide InsertAt;
    LadderParts(st, side);
    LevelAddedFrame(st, st', side, k, x, price);
    LevelAddedLadders(st, st', side, k, x, price);
    LevelAddedQueues(st, st', side, x, price);
    BestFirstInsert(st.levels, st'.levels, st.Ladder(side), side, k, x);
    OrderedKept(st, st', side, x);
  }

  lemma AddLevelSlots(st: Store, st': Store, side: Side, k: nat, x: nat)
    requires st.Linked() && st'.Linked() && x < |st.levels| && k <= |st.Ladder(side)|
    requires x !in st.Ladder(Buy) && x !in st.Ladder(Sell) && st'.queue == st.queue[x := []]
    requires st'.Ladder(side) == InsertAt(st.Ladder(side), k, x)
    requires st'.Ladder(Opposite(side)) == st.Ladder(Opposite(side))
    ensures st'.Slots(Buy) == st.Slots(Buy) && st'.Slots(Sell) == st.Slots(Sell)
  {
    hide Store.Linked;
    hide Flatten;
    LadderRanges(st, Buy);
    LadderRanges(st, Sell);
    FlattenEmptyLevel(st.queue, st.Ladder(side), k, x);
    FlattenSame(st.queue, st'.queue, st.Ladder(Opposite(side)));
  }

  // ---- An empty level taken out -------------------------------------------

  /** The writes that take the k-th level of a side out of its ladder. */
  ghost predicate LevelUnwrites(st: Store, st': Store, side: Side, k: nat)
    requires st.Linked() && k < |st.Ladder(side)|
  {
    && st'.nodes == st.nodes && st'.use == st.use && |st'.levels| == |st.levels| && st'.queue == st.queue
    && LinkedOut(st.levels, st'.levels, st.Ladder(side), k)
    && st'.Head(side) == (if k == 0 then st.levels[st.Ladder(side)[k]].next else st.Head(side))
    && st'.Head(Opposite(side)) == st.Head(Opposite(side))
    && st'.Ladder(side) == RemoveAt(st.Ladder(side), k)
    && st'.Ladder(Opposite(side)) == st.Ladder(Opposite(side))
    && st'.levelUse == st.levelUse[st.Ladder(side)[k] := Unused]
  }

  lemma LadderUses(st: Store, side: Side)
    requires st.Linked()
    ensures st.Sized() && forall k :: 0 <= k < |st.Ladder(side)| ==>
      st.Ladder(side)[k] < |st.levelUse| && st.levelUse[st.Ladder(side)[k]] == On(side)
  {
  }

  lemma LevelDroppedFrame(st: Store, st': Store, side: Side, k: nat)
    requires st.Linked() && k < |st.Ladder(side)| && LevelUnwrites(st, st', side, k)
    ensures LevelsKept(st, st', side, st.Ladder(side)[k]) && st'.Sized()
    ensures st.Ladder(side)[k] !in st.Ladder(Opposite(side))
  {
    hide Store.Linked;
    hide RemoveAt;
    var ladder := st.Ladder(side);
    LadderUses(st, side);
    LadderUses(st, Opposite(side));
    assert st.levelUse[ladder[k]] == On(side);
    assert k > 0 ==> st.levelUse[ladder[k - 1]] == On(side);
    assert k + 1 < |ladder| ==> st.levelUse[ladder[k + 1]] == On(side);
  }

  lemma LevelDroppedLadders(st: Store, st': Store, side: Side, k: nat)
    requires st.Sized() && st.LadderOk(side) && st.LadderOk(Opposite(side))
    requires |st.levels| == |st'.levels| && k < |st.Ladder(side)|
    requires LinkedOut(st.levels, st'.levels, st.Ladder(side), k) && LevelsKept(st, st', side, st.Ladder(side)[k])
    requires st'.Head(side) == (if k == 0 then st.levels[st.Ladder(side)[k]].next else st.Head(side))
    requires st'.Head(Opposite(side)) == st.Head(Opposite(side))
    requires st'.Ladder(side) == RemoveAt(st.Ladder(side), k) && st'.Ladder(Opposite(side)) == st.Ladder(Opposite(side))
    requires st'.levelUse == st.levelUse[st.Ladder(side)[k] := Unused]
    ensures st'.LadderOk(side) && st'.LadderOk(Opposite(side))
  {
    assert Link(st.levels, st.Ladder(side), k);
    ThreadedRemove(st.levels, st'.levels, st.Ladder(side), k);
    CoversRemove(st.levelUse, On(side), st.Ladder(side), k, Unused);
    ThreadedSame(st.levels, st'.levels, st.Ladder(Opposite(side)));
  }

  lemma EmptyQueueUnused(st: Store, l: nat)
    requires st.Linked() && l < |st.levels| && st.levelUse[l].On? && st.queue[l] == []
    ensures forall i :: 0 <= i < |st.use| ==> st.use[i] != In(l)
  {
    assert st.QueueOk(l);
  }

  lemma LevelDroppedQueues(st: Store, st': Store, side: Side, x: nat)
    requires st.Linked() && x < |st.levels| == |st'.levels| && st.levelUse[x].On? && st.queue[x] == []
    requires LevelsKept(st, st', side, x) && st'.Sized()
    requires st'.nodes == st.nodes && st'.use == st.use && st'.queue == st.queue
    requires st'.levelUse == st.levelUse[x := Unused]
    requires st'.LadderOk(side) && st'.LadderOk(Opposite(side))
    ensures st'.Linked()
  {
    hide Threaded;
    hide Covers;
    hide Stamped;
    hide Ends;
    hide Store.LadderOk;
    EmptyQueueUnused(st, x);
    forall l | 0 <= l < |st'.levels| && st'.levelUse[l].On? ensures st'.QueueOk(l) {
      assert st.QueueOk(l);
    }
  }

  lemma BestFirstRemove(levels: seq<Node<Level>>, levels': seq<Node<Level>>, ladder: seq<nat>, side: Side, k: nat)
    requires |levels'| == |levels| && InRange(ladder, |levels|) && BestFirst(levels, ladder, side) && k < |ladder|
    requires forall i :: 0 <= i < |ladder| && i != k ==> levels'[ladder[i]].item == levels[ladder[i]].item
    ensures BestFirst(levels', RemoveAt(ladder, k), side)
  {
    var ladder' := RemoveAt(ladder, k);
    forall i, j | 0 <= i < j < |ladder'|
      ensures PriceRanksFirst(side, levels'[ladder'[i]].item.price, levels'[ladder'[j]].item.price)
    {
      var a, b := if i < k then i else i + 1, if j < k then j else j + 1;
      assert ladder'[i] == ladder[a] && ladder'[j] == ladder[b];
    }
  }

  /** Taking an empty level out keeps the structure and its order. */
  lemma DropLevel(st: Store, st': Store, side: Side, k: nat)
    requires st.Linked() && st.Ordered() && k < |st.Ladder(side)| && LevelUnwrites(st, st', side, k)
    requires st.queue[st.Ladder(side)[k]] == []
    ensures st'.Linked() && st'.Ordered()
  {
    hide Store.Linked;
    hide Store.LadderOk;
    hide RemoveAt;
    LadderParts(st, side);
    LadderUses(st, side);
    LevelDroppedFrame(st, st', side, k);
    LevelDroppedLadders(st, st', side, k);
    LevelDroppedQueues(st, st', side, st.Ladder(side)[k]);
    BestFirstRemove(st.levels, st'.levels, st.Ladder(side), side, k);
    OrderedKept(st, st', side, st.Ladder(side)[k]);
  }

  lemma {:induction false} FlattenDrop(queue: seq<seq<nat>>, ladder: seq<nat>, k: nat)
    requires InRange(ladder, |queue|) && k < |ladder| && queue[ladder[k]] == []
    ensures Flatten(queue, RemoveAt(ladder, k)) == Flatten(queue, ladder)
  {
    if k == 0 {
      assert RemoveAt(ladder, 0) == ladder[1..];
    } else {
      FlattenDrop(queue, ladder[1..], k - 1);
      assert RemoveAt(ladder, k)[1..] == RemoveAt(ladder[1..], k - 1);
    }
  }

  lemma DropLevelSlots(st: Store, st': Store, side: Side, k: nat)
    requires st.Linked() && st'.Linked() && k < |st.Ladder(side)| && st.queue[st.Ladder(side)[k]] == []
    requires st'.Ladder(side) == RemoveAt(st.Ladder(side), k) && st'.Ladder(Opposite(side)) == st.Ladder(Opposite(side))
    requires st'.queue == st.queue
    ensures st'.Slots(Buy) == st.Slots(Buy) && st'.Slots(Sell) == st.Slots(Sell)
  {
    FlattenDrop(st.queue, st.Ladder(side), k);
  }

  // ---- An order queued at, or taken from, a level -------------------------

  /** Levels keep their links and prices; only l may change its ends and count. */
  ghost predicate SameLadders(st: Store, st': Store, l: nat)
    requires l < |st.levels|
  {
    && |st'.levels| == |st.levels| && st'.levelUse == st.levelUse
    && st'.bidHead == st.bidHead && st'.askHead == st.askHead && st'.bids == st.bids && st'.asks == st.asks
    && (forall m :: 0 <= m < |st.levels| && m != l ==> st'.levels[m] == st.levels[m])
    && st'.levels[l].next == st.levels[l].next && st'.levels[l].prev == st.levels[l].prev
    && st'.levels[l].item.price == st.levels[l].item.price
  }

  /** Nodes keep their orders; only slots of l and slot x may change their links. */
  ghost predicate NodesKept(st: Store, st': Store, l: nat, x: nat)
    requires st.Sized() && |st'.nodes| == |st.nodes|
  {
    && (forall i :: 0 <= i < |st.nodes| ==> st'.nodes[i].item == st.nodes[i].item)
    && (forall i :: 0 <= i < |st.nodes| && i != x && st.use[i] != In(l) ==> st'.nodes[i] == st.nodes[i])
  }

  lemma SameLaddersOk(st: Store, st': Store, l: nat)
    requires st.Sized() && st.LadderOk(Buy) && st.LadderOk(Sell) && l < |st.levels| && SameLadders(st, st', l)
    ensures st'.LadderOk(Buy) && st'.LadderOk(Sell)
  {
    ThreadedSame(st.levels, st'.levels, st.bids);
    ThreadedSame(st.levels, st'.levels, st.asks);
  }

  lemma QueueKept(st: Store, st': Store, l: nat, x: nat, m: nat)
    requires st.Sized() && st'.Sized() && |st'.nodes| == |st.nodes| && NodesKept(st, st', l, x)
    requires m < |st.levels| == |st'.levels| && m != l && st.levelUse[m].On? && st.QueueOk(m)
    requires st'.queue[m] == st.queue[m] && st'.levels[m] == st.levels[m] && st'.levelUse[m] == st.levelUse[m]
    requires forall i :: 0 <= i < |st.nodes| && i != x ==> st'.use[i] == st.use[i]
    requires x < |st.nodes| && st.use[x] != In(m) && st'.use[x] != In(m)
    ensures st'.QueueOk(m)
  {
    assert Covers(st.use, In(m), st.queue[m]);
    ThreadedSame(st.nodes, st'.nodes, st.queue[m]);
  }

  /** One queue is replaced by an equally well-formed one; everything else carries over. */
  lemma QueueReplaced(st: Store, st': Store, l: nat, x: nat)
    requires st.Linked() && l < |st.levels| && st.levelUse[l].On? && x < |st.nodes| == |st'.nodes|
    requires st'.Sized() && SameLadders(st, st', l) && NodesKept(st, st', l, x)
    requires forall m :: 0 <= m < |st.levels| && m != l ==> st'.queue[m] == st.queue[m]
    requires forall i :: 0 <= i < |st.nodes| && i != x ==> st'.use[i] == st.use[i]
    requires st.use[x] == Detached || st.use[x] == In(l)
    requires st'.use[x] == Detached || st'.use[x] == In(l)
    requires st'.QueueOk(l)
    ensures st'.Linked()
  {
    hide Store.LadderOk;
    hide Store.QueueOk;
    SameLaddersOk(st, st', l);
    forall m | 0 <= m < |st'.levels| && st'.levelUse[m].On? ensures st'.QueueOk(m) {
      assert st.QueueOk(m);
      if m != l { QueueKept(st, st', l, x, m); }
    }
  }

  lemma QueueReplacedOrdered(st: Store, st': Store, l: nat, x: nat)
    requires st.Sized() && st'.Sized() && st.Ordered() && l < |st.levels| && |st'.nodes| == |st.nodes|
    requires SameLadders(st, st', l) && NodesKept(st, st', l, x)
    requires forall m :: 0 <= m < |st.levels| && m != l ==> st'.queue[m] == st.queue[m]
    requires st'.QueueSorted(l)
    ensures st'.Ordered()
  {
    assert st.LadderSorted(Buy) && st.LadderSorted(Sell);
    assert forall m :: 0 <= m < |st.levels| ==> st'.levels[m].item.price == st.levels[m].item.price;
    assert st'.LadderSorted(Buy) && st'.LadderSorted(Sell);
    forall m | 0 <= m < |st'.levels| && st'.levelUse[m].On? ensures st'.QueueSorted(m) {
      assert st.QueueSorted(m);
    }
  }

  /** The writes that queue slot x at position p of level l. */
  ghost predicate OrderWrites(st: Store, st': Store, l: nat, p: nat, x: nat)
    requires st.Linked() && l < |st.levels| && st.levelUse[l].On? && p <= |st.queue[l]| && x < |st.nodes|
  {
    && |st'.nodes| == |st.nodes| && SameLadders(st, st', l)
    && st.QueueOk(l) && LinkedIn(st.nodes, st'.nodes, st.queue[l], p, x)
    && st'.nodes[x].item == st.nodes[x].item
    && st'.queue == st.queue[l := InsertAt(st.queue[l], p, x)]
    && st'.use == st.use[x := In(l)]
    && Ends(st'.levels[l].item, st'.queue[l])
  }

  lemma OrderAddedFrame(st: Store, st': Store, l: nat, p: nat, x: nat)
    requires st.Linked() && l < |st.levels| && st.levelUse[l].On? && p <= |st.queue[l]| && x < |st.nodes|
    requires OrderWrites(st, st', l, p, x)
    ensures NodesKept(st, st', l, x)
  {
    hide Store.Linked;
    hide InsertAt;
    QueueUses(st, l);
    var q := st.queue[l];
    assert p > 0 ==> st.use[q[p - 1]] == In(l);
    assert p < |q| ==> st.use[q[p]] == In(l);
  }

  lemma TimeOrderedInsert(nodes: seq<Node<Order>>, nodes': seq<Node<Order>>, q: seq<nat>, p: nat, x: nat)
    requires |nodes'| == |nodes| && InRange(q, |nodes|) && TimeOrdered(nodes, q) && p <= |q| && x < |nodes|
    requires forall i :: 0 <= i < |nodes| ==> nodes'[i].item == nodes[i].item
    requires p > 0 ==> !Earlier(nodes[x].item, nodes[q[p - 1]].item)
    requires forall i :: p <= i < |q| ==> Earlier(nodes[x].item, nodes[q[i]].item)
    ensures TimeOrdered(nodes', InsertAt(q, p, x))
  {
    var q' := InsertAt(q, p, x);
    forall i, j | 0 <= i < j < |q'| && q'[i] < |nodes'| && q'[j] < |nodes'|
      ensures !Earlier(nodes'[q'[j]].item, nodes'[q'[i]].item)
    {
      assert i != p ==> q'[i] == q[if i < p then i else i - 1];
      assert j != p ==> q'[j] == q[if j < p then j else j - 1];
      assert j == p && i < p - 1 ==> !Earlier(nodes[q[p - 1]].item, nodes[q[i]].item);
    }
  }

  lemma TimeOrderedRemove(nodes: seq<Node<Order>>, nodes': seq<Node<Order>>, q: seq<nat>, p: nat)
    requires |nodes'| == |nodes| && InRange(q, |nodes|) && TimeOrdered(nodes, q) && p < |q|
    requires forall i :: 0 <= i < |nodes| ==> nodes'[i].item == nodes[i].item
    ensures TimeOrdered(nodes', RemoveAt(q, p))
  {
    var q' := RemoveAt(q, p);
    forall i, j | 0 <= i < j < |q'| && q'[i] < |nodes'| && q'[j] < |nodes'|
      ensures !Earlier(nodes'[q'[j]].item, nodes'[q'[i]].item)
    {
      var a, b := if i < p then i else i + 1, if j < p then j else j + 1;
      assert q'[i] == q[a] && q'[j] == q[b];
    }
  }

  lemma OrderAddedQueue(st: Store, st': Store, l: nat, p: nat, x: nat)
    requires st.Linked() && l < |st.levels| && st.levelUse[l].On? && p <= |st.queue[l]| && x < |st.nodes|
    requires st.use[x].Detached?
    requires OrderWrites(st, st', l, p, x) && NodesKept(st, st', l, x)
    requires st.nodes[x].item.price == st.levels[l].item.price && st.nodes[x].item.side == st.levelUse[l].side
    ensures st'.Sized() && st'.QueueOk(l)
  {
    hide Store.Linked;
    QueueOkAt(st, l);
    var q := st.queue[l];
    assert x !in q;
    ThreadedInsert(st.nodes, st'.nodes, q, p, x);
    CoversInsert(st.use, In(l), q, p, x);
    assert Stamped(st.nodes, q, st.levels[l].item.price, st.levelUse[l].side);
  }

  /** Queueing an order at its time position keeps the structure and its order. */
  lemma AddOrder(st: Store, st': Store, l: nat, p: nat, x: nat)
    requires st.Linked() && st.Ordered() && l < |st.levels| && st.levelUse[l].On? && p <= |st.queue[l]|
    requires x < |st.nodes|
    requires st.use[x].Detached? && OrderWrites(st, st', l, p, x)
    requires st.nodes[x].item.price == st.levels[l].item.price && st.nodes[x].item.side == st.levelUse[l].side
    requires p > 0 ==> !Earlier(st.nodes[x].item, st.nodes[st.queue[l][p - 1]].item)
    requires forall i :: p <= i < |st.queue[l]| ==> Earlier(st.nodes[x].item, st.nodes[st.queue[l][i]].item)
    ensures st'.Linked() && st'.Ordered()
  {
    OrderAddedFrame(st, st', l, p, x);
    OrderAddedQueue(st, st', l, p, x);
    QueueReplaced(st, st', l, x);
    assert st.QueueSorted(l);
    TimeOrderedInsert(st.nodes, st'.nodes, st.queue[l], p, x);
    QueueReplacedOrdered(st, st', l, x);
  }

  /** The writes that take position p out of the queue of level l. */
  ghost predicate OrderUnwrites(st: Store, st': Store, l: nat, p: nat)
    requires st.Linked() && l < |st.levels| && st.levelUse[l].On? && p < |st.queue[l]|
  {
    && |st'.nodes| == |st.nodes| && SameLadders(st, st', l)
    && st.QueueOk(l) && LinkedOut(st.nodes, st'.nodes, st.queue[l], p)
    && st'.queue == st.queue[l := RemoveAt(st.queue[l], p)]
    && st'.use == st.use[st.queue[l][p] := Detached]
    && Ends(st'.levels[l].item, st'.queue[l])
  }

  lemma QueueUses(st: Store, l: nat)
    requires st.Linked() && l < |st.levels| && st.levelUse[l].On?
    ensures st.Sized()
    ensures forall m :: 0 <= m < |st.queue[l]| ==> st.queue[l][m] < |st.use| && st.use[st.queue[l][m]] == In(l)
  {
    assert st.QueueOk(l);
  }

  lemma OrderDroppedFrame(st: Store, st': Store, l: nat, p: nat)
    requires st.Linked() && l < |st.levels| && st.levelUse[l].On? && p < |st.queue[l]| && OrderUnwrites(st, st', l, p)
    ensures NodesKept(st, st', l, st.queue[l][p]) && st.use[st.queue[l][p]] == In(l)
  {
    hide Store.Linked;
    hide RemoveAt;
    QueueUses(st, l);
    var q := st.queue[l];
    assert p > 0 ==> st.use[q[p - 1]] == In(l);
    assert p + 1 < |q| ==> st.use[q[p + 1]] == In(l);
  }

  lemma OrderDroppedQueue(st: Store, st': Store, l: nat, p: nat)
    requires st.Linked() && l < |st.levels| && st.levelUse[l].On? && p < |st.queue[l]| && OrderUnwrites(st, st', l, p)
    requires NodesKept(st, st', l, st.queue[l][p])
    ensures st'.Sized() && st'.QueueOk(l)
  {
    hide Store.Linked;
    QueueOkAt(st, l);
    var q := st.queue[l];
    ThreadedRemove(st.nodes, st'.nodes, q, p);
    CoversRemove(st.use, In(l), q, p, Detached);
    assert Stamped(st.nodes, q, st.levels[l].item.price, st.levelUse[l].side);
  }

  /** Taking an order out of its queue keeps the structure and its order. */
  lemma DropOrder(st: Store, st': Store, l: nat, p: nat)
    requires st.Linked() && st.Ordered() && l < |st.levels| && st.levelUse[l].On? && p < |st.queue[l]|
    requires OrderUnwrites(st, st', l, p)
    ensures st'.Linked() && st'.Ordered()
  {
    OrderDroppedFrame(st, st', l, p);
    OrderDroppedQueue(st, st', l, p);
    QueueReplaced(st, st', l, st.queue[l][p]);
    assert st.QueueSorted(l);
    TimeOrderedRemove(st.nodes, st'.nodes, st.queue[l], p);
    QueueReplacedOrdered(st, st', l, st.queue[l][p]);
  }
}
