/**
 * The two-layer linked storage of the order book, as values: a ladder of price levels per side and a
 * queue of orders per level, both threaded through pool slots.
 */
module BookShape {
  import opened Wire
  import opened LinkedNodes
  import opened BookModel

  datatype Level = Level(price: u64, count: nat, head: nat, tail: nat)

  /** What an order slot is used for. */
  datatype Use = Free | Detached | In(level: nat)
  /** What a level slot is used for. */
  datatype LevelUse = Unused | On(side: Side)

  datatype Store = Store(
    nodes: seq<Node<Order>>, levels: seq<Node<Level>>, bidHead: nat, askHead: nat,
    bids: seq<nat>, asks: seq<nat>, queue: seq<seq<nat>>, use: seq<Use>, levelUse: seq<LevelUse>)
  {
    function Ladder(side: Side): seq<nat> {
      if side.Buy? then bids else asks
    }

    function Head(side: Side): nat {
      if side.Buy? then bidHead else askHead
    }

    ghost predicate Sized() {
      |queue| == |levels| == |levelUse| <= NULL && |use| == |nodes| <= NULL
    }

    /** The levels of a side are exactly the slots threaded from its head. */
    ghost predicate LadderOk(side: Side) {
      && Threaded(levels, Ladder(side))
      && Head(side) == At(Ladder(side), 0)
      && Covers(levelUse, On(side), Ladder(side))
    }

    /** The orders of level l are exactly the slots threaded from its head to its tail. */
    ghost predicate QueueOk(l: nat)
      requires Sized() && l < |levels| && levelUse[l].On?
    {
      && Threaded(nodes, queue[l])
      && Ends(levels[l].item, queue[l])
      && Covers(use, In(l), queue[l])
      && Stamped(nodes, queue[l], levels[l].item.price, levelUse[l].side)
    }

    ghost predicate Linked() {
      && Sized()
      && LadderOk(Buy) && LadderOk(Sell)
      && (forall l {:trigger QueueOk(l)} :: 0 <= l < |levels| && levelUse[l].On? ==> QueueOk(l))
      && (forall i :: 0 <= i < |nodes| && use[i].In? ==> use[i].level < |levels| && levelUse[use[i].level].On?)
    }

    /** Distinct prices, best first. */
    ghost predicate LadderSorted(side: Side)
    {
      BestFirst(levels, Ladder(side), side)
    }

    /** Arrival order, ties by id. */
    ghost predicate QueueSorted(l: nat)
      requires l < |queue|
    {
      TimeOrdered(nodes, queue[l])
    }

    ghost predicate Ordered()
      requires Sized()
    {
      && LadderSorted(Buy) && LadderSorted(Sell)
      && (forall l {:trigger QueueSorted(l)} :: 0 <= l < |levels| && levelUse[l].On? ==> QueueSorted(l))
    }

    /** No level is empty, except possibly `hole`. */
    ghost predicate NoEmptyBut(hole: nat)
      requires Sized()
    {
      forall l :: 0 <= l < |levels| && levelUse[l].On? && l != hole ==> queue[l] != []
    }

    /** The order slots of a side in matching order. */
    ghost function Slots(side: Side): seq<nat> {
      Flatten(queue, Ladder(side))
    }
  }

  /** The head, tail and count of a level agree with its queue. */
  ghost predicate Ends(lv: Level, q: seq<nat>) {
    lv.head == At(q, 0) && lv.tail == At(q, |q| - 1) && lv.count == |q|
  }

  ghost predicate Stamped(nodes: seq<Node<Order>>, q: seq<nat>, price: u64, side: Side)
  {
    forall m :: 0 <= m < |q| && q[m] < |nodes| ==> nodes[q[m]].item.price == price && nodes[q[m]].item.side == side
  }

  ghost predicate BestFirst(levels: seq<Node<Level>>, ladder: seq<nat>, side: Side)
  {
    forall i, j :: 0 <= i < j < |ladder| && ladder[i] < |levels| && ladder[j] < |levels| ==>
      PriceRanksFirst(side, levels[ladder[i]].item.price, levels[ladder[j]].item.price)
  }

  ghost predicate TimeOrdered(nodes: seq<Node<Order>>, q: seq<nat>)
  {
    forall i, j :: 0 <= i < j < |q| && q[i] < |nodes| && q[j] < |nodes| ==> !Earlier(nodes[q[j]].item, nodes[q[i]].item)
  }

  predicate Earlier(a: Order, b: Order) {
    HasPriorityOver(a.arrival, a.id, b.arrival, b.id)
  }

  ghost predicate NoLevelAt(st: Store, side: Side, price: u64) {
    var ladder := st.Ladder(side);
    forall i :: 0 <= i < |ladder| && ladder[i] < |st.levels| ==> st.levels[ladder[i]].item.price != price
  }

  /** The queues of a ladder one after the other. */
  function Flatten(queue: seq<seq<nat>>, ladder: seq<nat>): seq<nat> {
    if ladder == [] then []
    else (if ladder[0] < |queue| then queue[ladder[0]] else []) + Flatten(queue, ladder[1..])
  }

  lemma {:induction false} FlattenSplit(queue: seq<seq<nat>>, a: seq<nat>, b: seq<nat>)
    requires InRange(a, |queue|) && InRange(b, |queue|)
    ensures Flatten(queue, a + b) == Flatten(queue, a) + Flatten(queue, b)
  {
    if a == [] {
      assert a + b == b;
    } else {
      assert (a + b)[1..] == a[1..] + b;
      FlattenSplit(queue, a[1..], b);
    }
  }

  /** A ladder around its k-th level. */
  lemma FlattenAround(queue: seq<seq<nat>>, ladder: seq<nat>, k: nat)
    requires InRange(ladder, |queue|) && k < |ladder|
    ensures Flatten(queue, ladder) == Flatten(queue, ladder[..k]) + queue[ladder[k]] + Flatten(queue, ladder[k + 1..])
  {
    assert ladder == ladder[..k] + ladder[k..];
    FlattenSplit(queue, ladder[..k], ladder[k..]);
  }

  lemma {:induction false} FlattenSame(queue: seq<seq<nat>>, queue': seq<seq<nat>>, ladder: seq<nat>)
    requires |queue| == |queue'| && InRange(ladder, |queue|)
    requires forall k :: 0 <= k < |ladder| ==> queue'[ladder[k]] == queue[ladder[k]]
    ensures Flatten(queue', ladder) == Flatten(queue, ladder)
  {
    if ladder != [] {
      FlattenSame(queue, queue', ladder[1..]);
    }
  }

  /** Every slot of a flattened ladder belongs to one of its levels. */
  lemma {:induction false} FlattenMember(queue: seq<seq<nat>>, ladder: seq<nat>, i: nat) returns (k: nat, m: nat)
    requires InRange(ladder, |queue|) && i < |Flatten(queue, ladder)|
    ensures k < |ladder| && m < |queue[ladder[k]]| && Flatten(queue, ladder)[i] == queue[ladder[k]][m]
    ensures i == |Flatten(queue, ladder[..k])| + m
  {
    var q := queue[ladder[0]];
    if i < |q| {
      k, m := 0, i;
    } else {
      k, m := FlattenMember(queue, ladder[1..], i - |q|);
      assert ladder[..k + 1][1..] == ladder[1..][..k];
      k := k + 1;
    }
  }
}
