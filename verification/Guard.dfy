/** The integrity guard: its checks on the linked book, and committing an operation under it. */
module Guard {
  import opened Wire
  import opened LinkedNodes
  import opened BookModel
  import opened BookShape
  import opened BookUpdates
  import opened BookOrders
  import opened BookState
  import opened OrderBook
  import opened Matching
  import opened RetiredIds
  import E = Engine
  import R = EngineRuns
  import M = MatchingEngine

  // ---- Price ordering ---------------------------------------------------------

  /** Every bid level is priced below every ask level. */
  ghost predicate LevelsApart(st: Store) {
    forall i, j :: 0 <= i < |st.bids| && 0 <= j < |st.asks| && st.bids[i] < |st.levels| && st.asks[j] < |st.levels| ==>
      st.levels[st.bids[i]].item.price < st.levels[st.asks[j]].item.price
  }

  ghost predicate PricesOrdered(st: Store) {
    st.LadderSorted(Buy) && st.LadderSorted(Sell) && LevelsApart(st)
  }

  /** One more level keeps a ladder sorted iff it ranks behind the last one. */
  lemma BestFirstExtends(levels: seq<Node<Level>>, ladder: seq<nat>, side: Side, k: nat)
    requires InRange(ladder, |levels|) && k < |ladder| && BestFirst(levels, ladder[..k], side)
    ensures BestFirst(levels, ladder[..k + 1], side) <==>
      k == 0 || PriceRanksFirst(side, levels[ladder[k - 1]].item.price, levels[ladder[k]].item.price)
  {
    var more := ladder[..k + 1];
    assert forall i :: 0 <= i < k ==> more[i] == ladder[..k][i];
    if k > 0 && PriceRanksFirst(side, levels[ladder[k - 1]].item.price, levels[ladder[k]].item.price) {
      forall i, j | 0 <= i < j < |more|
        ensures PriceRanksFirst(side, levels[more[i]].item.price, levels[more[j]].item.price)
      {
        var a, z := ladder[..k][i], ladder[..k][k - 1];
        assert i < k - 1 ==> PriceRanksFirst(side, levels[a].item.price, levels[z].item.price);
      }
    } else if k > 0 {
      assert more[k - 1] == ladder[k - 1] && more[k] == ladder[k];
    }
  }

  lemma BestFirstPrefix(levels: seq<Node<Level>>, ladder: seq<nat>, side: Side, k: nat)
    requires BestFirst(levels, ladder, side) && k <= |ladder|
    ensures BestFirst(levels, ladder[..k], side)
  {
  }

  /** Walk one ladder comparing neighbours. */
  method CheckLadder(b: Book, side: Side) returns (ok: bool)
    requires b.St().LadderOk(side)
    ensures ok <==> b.St().LadderSorted(side)
  {
    hide BestFirst;
    hide Store.LadderOk;
    ghost var st := b.St();
    ghost var ladder := st.Ladder(side);
    LadderStart(st, side);
    var prev, level := NULL, if side.Buy? then b.bidHead else b.askHead;
    ghost var k := 0;
    EmptyLadder(st.levels, side);
    while level != NULL
      invariant k <= |ladder| && level == At(ladder, k) && prev == At(ladder, k - 1)
      invariant BestFirst(st.levels, ladder[..k], side)
      decreases |ladder| - k
    {
      LadderStep(st, side, k);
      BestFirstExtends(st.levels, ladder, side, k);
      if prev != NULL && !PriceRanksFirst(side, b.levels.slots[prev].item.price, b.levels.slots[level].item.price) {
        if st.LadderSorted(side) {
          BestFirstPrefix(st.levels, ladder, side, k + 1);
        }
        return false;
      }
      prev, level, k := level, b.levels.slots[level].next, k + 1;
    }
    assert ladder[..k] == ladder;
    ok := true;
  }

  lemma EmptyLadder(levels: seq<Node<Level>>, side: Side)
    ensures BestFirst(levels, [], side)
  {
  }

  /** On sorted ladders the best prices decide. */
  lemma TopDecides(st: Store)
    requires st.LadderSorted(Buy) && st.LadderSorted(Sell) && InRange(st.bids, |st.levels|)
    requires InRange(st.asks, |st.levels|)
    ensures LevelsApart(st) <==>
      st.bids == [] || st.asks == [] || st.levels[st.bids[0]].item.price < st.levels[st.asks[0]].item.price
  {
    if st.bids != [] && st.asks != [] && st.levels[st.bids[0]].item.price < st.levels[st.asks[0]].item.price {
      forall i, j | 0 <= i < |st.bids| && 0 <= j < |st.asks|
        ensures st.levels[st.bids[i]].item.price < st.levels[st.asks[j]].item.price
      {
        assert i > 0 ==> PriceRanksFirst(Buy, st.levels[st.bids[0]].item.price, st.levels[st.bids[i]].item.price);
        assert j > 0 ==> PriceRanksFirst(Sell, st.levels[st.asks[0]].item.price, st.levels[st.asks[j]].item.price);
      }
    }
  }

  /** Sound and complete on any linked book, whatever its prices. */
  method CheckPriceOrdering(b: Book) returns (ok: bool)
    requires b.St().Linked()
    ensures ok <==> PricesOrdered(b.St())
  {
    hide BestFirst;
    hide LevelsApart;
    ghost var st := b.St();
    ok := CheckLadder(b, Buy);
    if !ok {
      return false;
    }
    ok := CheckLadder(b, Sell);
    if !ok {
      return false;
    }
    TopDecides(st);
    if b.bidHead != NULL && b.askHead != NULL {
      ok := b.levels.slots[b.bidHead].item.price < b.levels.slots[b.askHead].item.price;
    }
  }

  // ---- Positive quantities --------------------------------------------------------

  ghost predicate PositiveUpTo(s: seq<Order>, n: nat) {
    forall i :: 0 <= i < n && i < |s| ==> s[i].qty > 0
  }

  /** The m-th order of level k is the order at Base + m. */
  lemma OrderAtPlace(st: Store, side: Side, k: nat, m: nat)
    requires k < |st.Ladder(side)| && InRange(st.Ladder(side), |st.queue|) && m <= |st.queue[st.Ladder(side)[k]]|
    ensures var q, n := st.queue[st.Ladder(side)[k]], Base(st.queue, st.Ladder(side), k);
      && n + |q| == Base(st.queue, st.Ladder(side), k + 1)
      && (m < |q| ==> n + m < |Orders(st, side)| && Orders(st, side)[n + m] == ItemAt(st.nodes, q[m]))
  {
    FlattenAround(st.queue, st.Ladder(side), k);
    FlattenPrefix(st.queue, st.Ladder(side), k, k + 1);
    assert m < |st.queue[st.Ladder(side)[k]]| ==>
      st.Slots(side)[Base(st.queue, st.Ladder(side), k) + m] == st.queue[st.Ladder(side)[k]][m];
  }

  lemma QueueAt(st: Store, side: Side, k: nat)
    requires st.Linked() && k < |st.Ladder(side)|
    ensures var l := st.Ladder(side)[k];
      && InRange(st.Ladder(side), |st.queue|) && l < |st.levels| == |st.queue| && |st.nodes| <= NULL
      && Threaded(st.nodes, st.queue[l]) && Ends(st.levels[l].item, st.queue[l])
  {
    assert st.levelUse[st.Ladder(side)[k]] == On(side);
    assert st.QueueOk(st.Ladder(side)[k]);
  }

  /** Walk one level's queue; `m` orders were positive. */
  method CheckQueue(b: Book, level: nat) returns (ok: bool, ghost m: nat)
    requires level < b.levels.slots.Length && level < |b.queue| && b.orders.slots.Length <= NULL
    requires Threaded(b.orders.slots[..], b.queue[level]) && Ends(b.levels.slots[level].item, b.queue[level])
    ensures m <= |b.queue[level]| && (ok <==> m == |b.queue[level]|)
    ensures forall i :: 0 <= i < m ==> ItemAt(b.orders.slots[..], b.queue[level][i]).qty > 0
    ensures !ok ==> ItemAt(b.orders.slots[..], b.queue[level][m]).qty == 0
  {
    ghost var nodes, q := b.orders.slots[..], b.queue[level];
    var node := b.levels.slots[level].item.head;
    m := 0;
    while node != NULL
      invariant m <= |q| && node == At(q, m)
      invariant forall i :: 0 <= i < m ==> ItemAt(nodes, q[i]).qty > 0
      decreases |q| - m
    {
      if b.orders.slots[node].item.qty == 0 {
        return false, m;
      }
      assert Link(nodes, q, m);
      node, m := b.orders.slots[node].next, m + 1;
    }
    ok := true;
  }

  method CheckSide(b: Book, side: Side) returns (ok: bool)
    requires b.St().Linked()
    ensures ok <==> Positive(b.Resting(side))
  {
    hide Store.Linked;
    hide Store.LadderOk;
    hide Flatten;
    ghost var st := b.St();
    ghost var ladder, orders := st.Ladder(side), Orders(st, side);
    LadderLinked(st, side);
    LadderStart(st, side);
    BaseEnds(st, side);
    var level := if side.Buy? then b.bidHead else b.askHead;
    ghost var k := 0;
    while level != NULL
      invariant k <= |ladder| && level == At(ladder, k)
      invariant PositiveUpTo(orders, Base(st.queue, ladder, k))
      decreases |ladder| - k
    {
      LadderStep(st, side, k);
      QueueAt(st, side, k);
      ghost var m, base := 0, Base(st.queue, ladder, k);
      ok, m := CheckQueue(b, level);
      OrderAtPlace(st, side, k, m);
      if !ok {
        assert orders[base + m].qty == 0;
        return;
      }
      forall i | 0 <= i < base + m && i < |orders| ensures orders[i].qty > 0 {
        if i >= base {
          OrderAtPlace(st, side, k, i - base);
        }
      }
      level, k := b.levels.slots[level].next, k + 1;
    }
    ok := true;
  }

  lemma LadderLinked(st: Store, side: Side)
    requires st.Linked()
    ensures st.LadderOk(side)
  {
  }

  /** Sound and complete on any linked book, whatever its quantities. */
  method CheckPositiveQuantity(b: Book) returns (ok: bool)
    requires b.St().Linked()
    ensures ok <==> Positive(b.Resting(Buy)) && Positive(b.Resting(Sell))
  {
    ok := CheckSide(b, Buy);
    if ok {
      ok := CheckSide(b, Sell);
    }
  }

  // ---- What the checks mean for a valid book ------------------------------------------

  /** On a well-formed book the ordering check says exactly that the book is not crossed. */
  lemma OrderingMeansUncrossed(st: Store, pools: Pools)
    requires BookOk(st, pools, NULL, NULL)
    ensures PricesOrdered(st) <==> E.Uncrossed(Orders(st, Buy), Orders(st, Sell))
  {
    hide BookOk;
    hide Store.LadderOk;
    hide BestFirst;
    hide Flatten;
    LadderFacts(st, pools, NULL, NULL, Buy);
    LadderFacts(st, pools, NULL, NULL, Sell);
    var bids, asks := Orders(st, Buy), Orders(st, Sell);
    if LevelsApart(st) {
      forall i, j | 0 <= i < |bids| && 0 <= j < |asks| ensures bids[i].price < asks[j].price {
        var k, _ := PlaceOf(st, pools, Buy, i);
        var l, _ := PlaceOf(st, pools, Sell, j);
        assert st.levels[st.bids[k]].item.price < st.levels[st.asks[l]].item.price;
      }
    }
    if E.Uncrossed(bids, asks) {
      forall i, j | 0 <= i < |st.bids| && 0 <= j < |st.asks|
        ensures st.levels[st.bids[i]].item.price < st.levels[st.asks[j]].item.price
      {
        PriceHasOrder(st, pools, Buy, i);
        PriceHasOrder(st, pools, Sell, j);
        var a :| 0 <= a < |bids| && bids[a].price == st.levels[st.bids[i]].item.price;
        var b :| 0 <= b < |asks| && asks[b].price == st.levels[st.asks[j]].item.price;
      }
    }
  }

  // ---- Committing ------------------------------------------------------------------------

  datatype Breach = NoBreach | PriceOrdering | PositiveQuantity | QuantityConservation

  /** What a guarded operation reports; `check` is set for operations that consume an incoming order. */
  datatype Outcome = Outcome(check: bool, incoming: nat, traded: nat, rested: nat)

  /** The first violated invariant, in the order price, quantity, conservation. */
  ghost function Verdict(b: Book, outcome: Outcome): Breach
    reads b, b.orders.slots, b.levels.slots
  {
    if !PricesOrdered(b.St()) then PriceOrdering
    else if !(Positive(b.Resting(Buy)) && Positive(b.Resting(Sell))) then PositiveQuantity
    else if outcome.check && outcome.incoming != outcome.traded + outcome.rested then QuantityConservation
    else NoBreach
  }

  /** Walk the linked book and judge the reported quantities. */
  method Evaluate(b: Book, outcome: Outcome) returns (breach: Breach)
    requires b.St().Linked()
    ensures breach == Verdict(b, outcome)
  {
    hide PricesOrdered;
    hide Positive;
    hide Store.Linked;
    var ok := CheckPriceOrdering(b);
    if !ok {
      return PriceOrdering;
    }
    ok := CheckPositiveQuantity(b);
    if !ok {
      return PositiveQuantity;
    }
    if outcome.check && outcome.incoming != outcome.traded + outcome.rested {
      return QuantityConservation;
    }
    breach := NoBreach;
  }

  /** A book in the engine's invariant passes both state checks. */
  lemma EngineBookPasses(st: Store, pools: Pools, e: E.Engine, caps: Caps)
    requires BookOk(st, pools, NULL, NULL) && e.bids == Orders(st, Buy) && e.asks == Orders(st, Sell)
    requires E.EngineOk(e, caps)
    ensures st.Linked() && PricesOrdered(st) && Positive(e.bids) && Positive(e.asks)
  {
    hide PricesOrdered;
    BookLinked(st, pools, NULL, NULL);
    OrderingMeansUncrossed(st, pools);
  }

  class IntegrityGuard {
    const snapshot: Book

    constructor (caps: Caps)
      requires 0 < caps.orders <= NULL && 0 < caps.levels <= NULL
      ensures fresh(snapshot.Repr()) && snapshot.Shaped() && snapshot.caps == caps
    {
      hide Book.Valid;
      var book := new Book(caps);
      book.ValidIsShaped();
      snapshot := book;
    }

    ghost predicate Guards(engine: M.MatchingEngine)
      reads snapshot.Repr()
    {
      snapshot.Shaped() && snapshot.caps == engine.book.caps && snapshot.Repr() !! engine.Repr()
    }

    /**
     * The end of every commit, whatever the operation did to a book that is still linked: keep it as it is when
     * nothing is violated, otherwise put the snapshot back.
     */
    method Conclude(book: Book, outcome: Outcome) returns (committed: bool, breach: Breach)
      requires book.Shaped() && book.St().Linked() && snapshot.Shaped() && snapshot.caps == book.caps
      requires snapshot.Repr() !! book.Repr()
      modifies book.Repr()
      ensures committed == breach.NoBreach?
      ensures breach == old(Verdict(book, outcome))
      ensures committed ==> book.St() == old(book.St()) && book.PoolState() == old(book.PoolState())
      ensures !committed ==> book.St() == old(snapshot.St()) && book.PoolState() == old(snapshot.PoolState())
      ensures !committed && old(snapshot.Valid()) ==> book.Valid()
    {
      hide Book.Valid;
      hide PricesOrdered;
      hide Positive;
      hide Store.Linked;
      breach := Evaluate(book, outcome);
      committed := breach.NoBreach?;
      if !committed {
        book.CopyFrom(snapshot);
      }
    }

    /** Capture the engine's book. */
    method Snapshot(engine: M.MatchingEngine)
      requires engine.Valid() && Guards(engine)
      modifies snapshot.Repr()
      ensures engine.Valid() && engine.State() == old(engine.State()) && Guards(engine) && snapshot.Valid()
      ensures snapshot.Resting(Buy) == engine.State().bids && snapshot.Resting(Sell) == engine.State().asks
    {
      hide Book.Valid;
      hide Book.Shaped;
      hide Book.Resting;
      hide RetiredIdSet.Valid;
      hide RetiredIdSet.Queue;
      engine.book.ValidIsShaped();
      snapshot.CopyFrom(engine.book);
    }

    /** Overwrite the engine's book with the snapshot; the execution counter and the retired ids stay. */
    method Restore(engine: M.MatchingEngine)
      requires engine.Valid() && Guards(engine) && snapshot.Valid()
      modifies engine.book.Repr()
      ensures engine.Valid() && Guards(engine)
      ensures engine.State() == old(engine.State().(bids := snapshot.Resting(Buy), asks := snapshot.Resting(Sell)))
    {
      hide Book.Valid;
      hide Book.Shaped;
      hide Book.Resting;
      hide RetiredIdSet.Valid;
      hide RetiredIdSet.Queue;
      engine.book.ValidIsShaped();
      engine.book.CopyFrom(snapshot);
    }

    /** The guarded operation: what it did, with the book before it in the snapshot. */
    method MatchFromSnapshot(engine: M.MatchingEngine, o: Message) returns (trades: seq<Message>, rested: u32)
      requires engine.Valid() && Guards(engine) && o.NewOrder?
      modifies engine.Repr(), snapshot.Repr()
      ensures engine.Valid() && Guards(engine) && snapshot.Valid() && engine.book.caps.orders > 0
      ensures snapshot.Resting(Buy) == old(engine.State()).bids && snapshot.Resting(Sell) == old(engine.State()).asks
      ensures engine.State() == E.ProcessNew(old(engine.State()), o, engine.book.caps).engine
      ensures trades == E.MatchFor(old(engine.State()), o).trades
      ensures var e := old(engine.State());
        rested == if E.Rests(e, o, engine.book.caps) then E.MatchFor(e, o).left else 0
    {
      hide M.MatchingEngine.Valid;
      hide M.MatchingEngine.State;
      hide Book.Valid;
      hide Book.Shaped;
      hide Book.Resting;
      hide E.MatchFor;
      hide E.Rests;
      hide E.ProcessNew;
      HasCaps(engine);
      Snapshot(engine);
      trades, rested := engine.ProcessNewOrder(o);
    }

    /**
     * Match a validated order under the guard. The guard rolls back exactly when the order would be lost to a
     * full pool, only ever for quantity conservation; then the whole engine is as it was and no trade had been
     * handed out.
     */
    method CommitNewOrder(
      engine: M.MatchingEngine, o: Message) returns (committed: bool, trades: seq<Message>, breach: Breach)
      requires engine.Valid() && Guards(engine) && E.EngineOk(engine.State(), engine.book.caps)
      requires o.NewOrder? && E.Validate(o).Accept?
      modifies engine.Repr(), snapshot.Repr()
      ensures engine.Valid() && Guards(engine) && E.EngineOk(engine.State(), engine.book.caps)
      ensures committed <==> R.Lost(old(engine.State()), o, engine.book.caps) == 0
      ensures committed ==> breach.NoBreach?
      ensures committed ==> engine.State() == E.Dispatch(old(engine.State()), o, engine.book.caps).engine
      ensures !committed ==> breach.QuantityConservation? && engine.State() == old(engine.State())
      ensures trades == E.MatchFor(old(engine.State()), o).trades && (!committed ==> trades == [])
    {
      hide M.MatchingEngine.Valid;
      hide M.MatchingEngine.State;
      hide Book.Valid;
      hide Book.Shaped;
      hide Book.Resting;
      hide E.EngineOk;
      hide E.MatchFor;
      hide E.Rests;
      hide E.ProcessNew;
      hide E.Dispatch;
      hide R.Lost;
      hide R.Traded;
      hide PricesOrdered;
      hide Positive;
      hide Guards;
      ghost var e, caps := engine.State(), engine.book.caps;
      var rested;
      trades, rested := MatchFromSnapshot(engine, o);
      Balance(e, o, caps, rested);
      breach := Judge(engine, Outcome(true, o.quantity, R.Traded(trades), rested));
      committed := breach.NoBreach?;
      if !committed {
        Restore(engine);
        assert engine.State() == e;
      }
    }
  }

  /** After an operation that kept the engine's invariant only conservation can be violated. */
  method Judge(engine: M.MatchingEngine, outcome: Outcome) returns (breach: Breach)
    requires engine.Valid() && E.EngineOk(engine.State(), engine.book.caps)
    ensures engine.Valid() && engine.State() == old(engine.State())
    ensures var short := outcome.check && outcome.incoming != outcome.traded + outcome.rested;
      breach == if short then QuantityConservation else NoBreach
  {
    hide Book.Valid;
    hide Book.Resting;
    hide RetiredIdSet.Valid;
    hide RetiredIdSet.Queue;
    hide E.EngineOk;
    hide PricesOrdered;
    hide Positive;
    ValidPasses(engine);
    breach := Evaluate(engine.book, outcome);
  }

  /** What trades and what rests account for the order iff none of it is lost. */
  lemma Balance(e: E.Engine, o: Message, caps: Caps, rested: nat)
    requires E.EngineOk(e, caps) && caps.orders > 0 && o.NewOrder? && E.Validate(o).Accept?
    requires rested == if E.Rests(e, o, caps) then E.MatchFor(e, o).left else 0
    ensures o.quantity == R.Traded(E.MatchFor(e, o).trades) + rested <==> R.Lost(e, o, caps) == 0
    ensures var e' := E.ProcessNew(e, o, caps).engine;
      && E.EngineOk(e', caps) && E.Dispatch(e, o, caps).engine == e'
      && (R.Lost(e, o, caps) > 0 ==> e'.exec == e.exec && e'.retired == e.retired && E.MatchFor(e, o).trades == [])
  {
    hide E.EngineOk;
    E.ProcessNewOk(e, o, caps);
    R.LostExactly(e, o, caps);
    R.MatchBalances(e.On(Opposite(o.side)), o.side, o.price, o.orderId, o.quantity, e.exec);
  }

  lemma HasCaps(engine: M.MatchingEngine)
    requires engine.Valid()
    ensures engine.book.caps.orders > 0
  {
  }

  lemma ValidPasses(engine: M.MatchingEngine)
    requires engine.Valid() && E.EngineOk(engine.State(), engine.book.caps)
    ensures engine.book.St().Linked() && PricesOrdered(engine.book.St())
    ensures Positive(engine.book.Resting(Buy)) && Positive(engine.book.Resting(Sell))
  {
    hide BookOk;
    hide PricesOrdered;
    hide E.EngineOk;
    EngineBookPasses(engine.book.St(), engine.book.PoolState(), engine.State(), engine.book.caps);
  }
}
