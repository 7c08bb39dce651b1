/** The effect of the pointer updates on the sorted order sequences. */
module BookOrders {
  import opened Wire
  import opened LinkedNodes
  import opened BookModel
  import opened BookShape
  import opened BookUpdates

  /** Position of the first order of the k-th level. */
  function Base(queue: seq<seq<nat>>, ladder: seq<nat>, k: nat): nat
    requires k <= |ladder|
  {
    |Flatten(queue, ladder[..k])|
  }

  lemma FlattenReplace(queue: seq<seq<nat>>, ladder: seq<nat>, k: nat, q: seq<nat>)
    requires InRange(ladder, |queue|) && Distinct(ladder) && k < |ladder|
    ensures Flatten(queue[ladder[k] := q], ladder)
         == Flatten(queue, ladder[..k]) + q + Flatten(queue, ladder[k + 1..])
  {
    hide Flatten;
    var queue' := queue[ladder[k] := q];
    FlattenAround(queue', ladder, k);
    FlattenSame(queue, queue', ladder[..k]);
    FlattenSame(queue, queue', ladder[k + 1..]);
  }

  lemma SpliceInsert<T>(a: seq<T>, q: seq<T>, b: seq<T>, p: nat, x: T)
    requires p <= |q|
    ensures a + InsertAt(q, p, x) + b == InsertAt(a + q + b, |a| + p, x)
  {
  }

  lemma SpliceRemove<T>(a: seq<T>, q: seq<T>, b: seq<T>, p: nat)
    requires p < |q|
    ensures a + RemoveAt(q, p) + b == RemoveAt(a + q + b, |a| + p)
  {
  }

  lemma FlattenInsert(queue: seq<seq<nat>>, ladder: seq<nat>, k: nat, p: nat, x: nat)
    requires InRange(ladder, |queue|) && Distinct(ladder) && k < |ladder| && p <= |queue[ladder[k]]|
    ensures Base(queue, ladder, k) + p <= |Flatten(queue, ladder)|
    ensures Flatten(queue[ladder[k] := InsertAt(queue[ladder[k]], p, x)], ladder)
         == InsertAt(Flatten(queue, ladder), Base(queue, ladder, k) + p, x)
  {
    hide Flatten;
    FlattenReplace(queue, ladder, k, InsertAt(queue[ladder[k]], p, x));
    FlattenAround(queue, ladder, k);
    SpliceInsert(Flatten(queue, ladder[..k]), queue[ladder[k]], Flatten(queue, ladder[k + 1..]), p, x);
  }

  lemma FlattenRemove(queue: seq<seq<nat>>, ladder: seq<nat>, k: nat, p: nat)
    requires InRange(ladder, |queue|) && Distinct(ladder) && k < |ladder| && p < |queue[ladder[k]]|
    ensures Base(queue, ladder, k) + p < |Flatten(queue, ladder)|
    ensures Flatten(queue[ladder[k] := RemoveAt(queue[ladder[k]], p)], ladder)
         == RemoveAt(Flatten(queue, ladder), Base(queue, ladder, k) + p)
  {
    hide Flatten;
    FlattenReplace(queue, ladder, k, RemoveAt(queue[ladder[k]], p));
    FlattenAround(queue, ladder, k);
    SpliceRemove(Flatten(queue, ladder[..k]), queue[ladder[k]], Flatten(queue, ladder[k + 1..]), p);
  }

  lemma {:induction false} FlattenPrefix(queue: seq<seq<nat>>, ladder: seq<nat>, j: nat, k: nat)
    requires InRange(ladder, |queue|) && j < k <= |ladder|
    ensures Base(queue, ladder, j) + |queue[ladder[j]]| <= Base(queue, ladder, k)
    ensures k == j + 1 ==> Base(queue, ladder, j) + |queue[ladder[j]]| == Base(queue, ladder, k)
  {
    FlattenAround(queue, ladder[..k], j);
    assert ladder[..k][..j] == ladder[..j];
  }

  /** Where the i-th flattened slot lies relative to position p of the k-th level. */
  lemma FlattenPlace(queue: seq<seq<nat>>, ladder: seq<nat>, k: nat, p: nat, i: nat) returns (k': nat, m: nat)
    requires InRange(ladder, |queue|) && k < |ladder| && p <= |queue[ladder[k]]| && i < |Flatten(queue, ladder)|
    ensures k' < |ladder| && m < |queue[ladder[k']]| && Flatten(queue, ladder)[i] == queue[ladder[k']][m]
    ensures i < Base(queue, ladder, k) + p ==> k' < k || (k' == k && m < p)
    ensures i == Base(queue, ladder, k) + p ==> k' > k || (k' == k && m == p)
  {
    k', m := FlattenMember(queue, ladder, i);
    if k' < k {
      FlattenPrefix(queue, ladder, k', k);
    } else if k < k' {
      FlattenPrefix(queue, ladder, k, k');
    }
  }

  /** Position p is where `o` belongs in a queue: behind everyone it does not precede. */
  ghost predicate TimePlace(nodes: seq<Node<Order>>, q: seq<nat>, p: nat, o: Order) {
    && (forall m :: 0 <= m < p && m < |q| && q[m] < |nodes| ==> !Earlier(o, nodes[q[m]].item))
    && (p < |q| && q[p] < |nodes| ==> Earlier(o, nodes[q[p]].item))
  }

  /** Position p of the k-th level is the time-priority place of `o`, whose price is that level's. */
  ghost predicate Fits(st: Store, side: Side, k: nat, p: nat, o: Order)
    requires st.Linked() && k < |st.Ladder(side)|
  {
    var l := st.Ladder(side)[k];
    var q := st.queue[l];
    && p <= |q| && o.side == side && o.price == st.levels[l].item.price
    && TimePlace(st.nodes, q, p, o)
  }

  lemma QueuedStamp(st: Store, side: Side, k: nat, m: nat)
    requires st.Linked() && k < |st.Ladder(side)| && m < |st.queue[st.Ladder(side)[k]]|
    ensures var x := st.queue[st.Ladder(side)[k]][m];
      && x < |st.nodes| && st.nodes[x].item.side == side
      && st.nodes[x].item.price == st.levels[st.Ladder(side)[k]].item.price
  {
    assert st.levelUse[st.Ladder(side)[k]] == On(side);
    assert st.QueueOk(st.Ladder(side)[k]);
  }

  /** How `o` compares with an order at (k', m) when its own place is at level k. */
  lemma LevelsDecide(st: Store, side: Side, k: nat, k': nat, m: nat, o: Order)
    requires st.Linked() && st.LadderSorted(side) && k < |st.Ladder(side)| && k' < |st.Ladder(side)|
    requires o.side == side && o.price == st.levels[st.Ladder(side)[k]].item.price
    requires m < |st.queue[st.Ladder(side)[k']]|
    ensures st.queue[st.Ladder(side)[k']][m] < |st.nodes|
    ensures var x := st.nodes[st.queue[st.Ladder(side)[k']][m]].item;
      && (k' < k ==> !Ahead(o, x)) && (k' > k ==> Ahead(o, x)) && (k' == k ==> (Ahead(o, x) <==> Earlier(o, x)))
  {
    hide Store.Linked;
    LadderUses(st, side);
    QueuedStamp(st, side, k', m);
  }

  /** Orders of a side before the insertion point do not yield to the new order. */
  lemma NotAheadBefore(st: Store, side: Side, k: nat, p: nat, o: Order, i: nat)
    requires st.Linked() && st.LadderSorted(side) && k < |st.Ladder(side)| && Fits(st, side, k, p, o)
    requires i < Base(st.queue, st.Ladder(side), k) + p && i < |Orders(st, side)|
    ensures !Ahead(o, Orders(st, side)[i])
  {
    hide Store.Linked;
    hide Flatten;
    LadderParts(st, side);
    var k', m := FlattenPlace(st.queue, st.Ladder(side), k, p, i);
    LevelsDecide(st, side, k, k', m, o);
  }

  /** The order at the insertion point yields to the new order. */
  lemma AheadAfter(st: Store, side: Side, k: nat, p: nat, o: Order)
    requires st.Linked() && st.LadderSorted(side) && k < |st.Ladder(side)| && Fits(st, side, k, p, o)
    requires Base(st.queue, st.Ladder(side), k) + p < |Orders(st, side)|
    ensures Ahead(o, Orders(st, side)[Base(st.queue, st.Ladder(side), k) + p])
  {
    hide Store.Linked;
    hide Flatten;
    LadderParts(st, side);
    var k', m := FlattenPlace(st.queue, st.Ladder(side), k, p, Base(st.queue, st.Ladder(side), k) + p);
    LevelsDecide(st, side, k, k', m, o);
  }

  lemma FitsIsSortedPlace(st: Store, side: Side, k: nat, p: nat, o: Order)
    requires st.Linked() && st.LadderSorted(side) && k < |st.Ladder(side)| && Fits(st, side, k, p, o)
    requires Base(st.queue, st.Ladder(side), k) + p <= |Orders(st, side)|
    ensures InsertSorted(Orders(st, side), o) == InsertAt(Orders(st, side), Base(st.queue, st.Ladder(side), k) + p, o)
  {
    hide Store.Linked;
    hide Orders;
    hide Fits;
    hide Base;
    hide Ahead;
    hide InsertSorted;
    hide InsertAt;
    LadderParts(st, side);
    var at := Base(st.queue, st.Ladder(side), k) + p;
    forall i | 0 <= i < at ensures !Ahead(o, Orders(st, side)[i]) {
      NotAheadBefore(st, side, k, p, o, i);
    }
    if at < |Orders(st, side)| {
      AheadAfter(st, side, k, p, o);
    }
    InsertSortedAt(Orders(st, side), o, at);
  }

  lemma ItemsInsert(nodes: seq<Node<Order>>, nodes': seq<Node<Order>>, slots: seq<nat>, p: nat, x: nat)
    requires |nodes'| == |nodes| && InRange(slots, |nodes|) && p <= |slots| && x < |nodes|
    requires forall i :: 0 <= i < |nodes| ==> nodes'[i].item == nodes[i].item
    ensures InRange(InsertAt(slots, p, x), |nodes'|)
    ensures Items(nodes', InsertAt(slots, p, x)) == InsertAt(Items(nodes, slots), p, nodes[x].item)
  {
  }

  lemma ItemsRemove(nodes: seq<Node<Order>>, nodes': seq<Node<Order>>, slots: seq<nat>, p: nat)
    requires |nodes'| == |nodes| && InRange(slots, |nodes|) && p < |slots|
    requires forall i :: 0 <= i < |nodes| ==> nodes'[i].item == nodes[i].item
    ensures InRange(RemoveAt(slots, p), |nodes'|)
    ensures Items(nodes', RemoveAt(slots, p)) == RemoveAt(Items(nodes, slots), p)
  {
  }

  lemma AddOrderSlots(st: Store, st': Store, side: Side, k: nat, p: nat, x: nat)
    requires st.Linked() && st'.Linked() && k < |st.Ladder(side)| && x < |st.nodes| == |st'.nodes|
    requires var l := st.Ladder(side)[k]; p <= |st.queue[l]| && st'.queue == st.queue[l := InsertAt(st.queue[l], p, x)]
    requires st'.Ladder(side) == st.Ladder(side)
    requires forall i :: 0 <= i < |st.nodes| ==> st'.nodes[i].item == st.nodes[i].item
    ensures Base(st.queue, st.Ladder(side), k) + p <= |Orders(st, side)|
    ensures Orders(st', side) == InsertAt(Orders(st, side), Base(st.queue, st.Ladder(side), k) + p, st.nodes[x].item)
  {
    hide Store.Linked;
    hide Flatten;
    LadderRanges(st, side);
    FlattenInsert(st.queue, st.Ladder(side), k, p, x);
    ItemsInsert(st.nodes, st'.nodes, st.Slots(side), Base(st.queue, st.Ladder(side), k) + p, x);
  }

  /** Queueing slot x at its place in the k-th level is the stable sorted insert. */
  lemma AddOrderSorted(st: Store, st': Store, side: Side, k: nat, p: nat, x: nat)
    requires st.Linked() && st.LadderSorted(side) && st'.Linked() && k < |st.Ladder(side)|
    requires x < |st.nodes| == |st'.nodes|
    requires Fits(st, side, k, p, st.nodes[x].item)
    requires var l := st.Ladder(side)[k]; st'.queue == st.queue[l := InsertAt(st.queue[l], p, x)]
    requires st'.Ladder(side) == st.Ladder(side)
    requires forall i :: 0 <= i < |st.nodes| ==> st'.nodes[i].item == st.nodes[i].item
    ensures Orders(st', side) == InsertSorted(Orders(st, side), st.nodes[x].item)
  {
    AddOrderSlots(st, st', side, k, p, x);
    FitsIsSortedPlace(st, side, k, p, st.nodes[x].item);
  }

  lemma DropOrderSlots(st: Store, st': Store, side: Side, k: nat, p: nat)
    requires st.Linked() && st'.Linked() && k < |st.Ladder(side)| && |st.nodes| == |st'.nodes|
    requires var l := st.Ladder(side)[k]; p < |st.queue[l]| && st'.queue == st.queue[l := RemoveAt(st.queue[l], p)]
    requires st'.Ladder(side) == st.Ladder(side)
    requires forall i :: 0 <= i < |st.nodes| ==> st'.nodes[i].item == st.nodes[i].item
    ensures Base(st.queue, st.Ladder(side), k) + p < |Orders(st, side)|
    ensures Orders(st', side) == RemoveAt(Orders(st, side), Base(st.queue, st.Ladder(side), k) + p)
  {
    hide Store.Linked;
    hide Flatten;
    LadderRanges(st, side);
    FlattenRemove(st.queue, st.Ladder(side), k, p);
    ItemsRemove(st.nodes, st'.nodes, st.Slots(side), Base(st.queue, st.Ladder(side), k) + p);
  }

  /** The side that owns none of the touched slots keeps its orders. */
  lemma OtherSideKept(st: Store, st': Store, side: Side, l: nat)
    requires st.Linked() && st'.Linked() && l < |st.levels| == |st'.levels| && l !in st.Ladder(side)
    requires |st'.nodes| == |st.nodes| && st'.Ladder(side) == st.Ladder(side)
    requires forall m :: 0 <= m < |st.queue| && m != l ==> st'.queue[m] == st.queue[m]
    requires forall i :: 0 <= i < |st.nodes| ==> st'.nodes[i].item == st.nodes[i].item
    ensures Orders(st', side) == Orders(st, side)
  {
    hide Store.Linked;
    hide Flatten;
    LadderRanges(st, side);
    LadderRanges(st', side);
    FlattenSame(st.queue, st'.queue, st.Ladder(side));
  }
}
