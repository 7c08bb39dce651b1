/** Replaying accepted commands with fresh arrival numbers rebuilds the same engine, and exactly when. */
module Replay {
  import opened Wire
  import opened LinkedNodes
  import opened BookModel
  import opened Matching
  import opened RetiredIds
  import opened Engine
  import opened EngineRuns

  function BareOrder(o: Order): Order {
    o.(arrival := 0)
  }

  /** A side without its arrival numbers. */
  function Unstamped(s: seq<Order>): seq<Order> {
    seq(|s|, i requires 0 <= i < |s| => BareOrder(s[i]))
  }

  function Bare(e: Engine): Engine {
    e.(bids := Unstamped(e.bids), asks := Unstamped(e.asks))
  }

  function BareMessage(m: Message): Message {
    if m.NewOrder? then m.(arrival := 0) else m
  }

  // ---- Matching does not look at arrival numbers --------------------------

  lemma {:induction false} MatchBare(
    a: seq<Order>, b: seq<Order>, side: Side, limit: u64, id: u64, left: u32, exec: u64)
    requires Unstamped(a) == Unstamped(b)
    ensures var m, n := Match(a, side, limit, id, left, exec), Match(b, side, limit, id, left, exec);
      m.(book := []) == n.(book := []) && Unstamped(m.book) == Unstamped(n.book)
    decreases |a|
  {
    hide Unstamped;
    hide Next64;
    hide Crosses;
    hide Match;
    UnstampedParts(a, b);
    if left == 0 || a == [] || !Crosses(side, limit, a[0].price) {
      MatchStops(a, side, limit, id, left, exec);
      MatchStops(b, side, limit, id, left, exec);
    } else if left >= a[0].qty {
      MatchFills(a, side, limit, id, left, exec);
      MatchFills(b, side, limit, id, left, exec);
      MatchBare(a[1..], b[1..], side, limit, id, left - a[0].qty, Next64(exec));
    } else {
      MatchReducesFront(a, side, limit, id, left, exec);
      MatchReducesFront(b, side, limit, id, left, exec);
      UnstampedCons(a[0].(qty := a[0].qty - left), a[1..]);
      UnstampedCons(b[0].(qty := b[0].qty - left), b[1..]);
    }
  }

  lemma UnstampedParts(a: seq<Order>, b: seq<Order>)
    requires Unstamped(a) == Unstamped(b)
    ensures |a| == |b|
    ensures a != [] ==> BareOrder(a[0]) == BareOrder(b[0]) && Unstamped(a[1..]) == Unstamped(b[1..])
  {
    assert |a| == |Unstamped(a)| == |b|;
    if a != [] {
      assert Unstamped(a)[0] == Unstamped(b)[0];
      assert Unstamped(a[1..]) == Unstamped(a)[1..] && Unstamped(b[1..]) == Unstamped(b)[1..];
    }
  }

  lemma UnstampedCons(o: Order, s: seq<Order>)
    ensures Unstamped([o] + s) == [BareOrder(o)] + Unstamped(s)
  {
  }

  lemma SameShape(a: seq<Order>, b: seq<Order>)
    requires Unstamped(a) == Unstamped(b)
    ensures |a| == |b| && forall i :: 0 <= i < |a| ==> BareOrder(a[i]) == BareOrder(b[i])
    ensures Prices(a) == Prices(b)
    ensures forall id :: IndexOf(a, id) == IndexOf(b, id)
  {
    assert |a| == |Unstamped(a)| == |b|;
    forall i | 0 <= i < |a| ensures BareOrder(a[i]) == BareOrder(b[i]) {
      assert Unstamped(a)[i] == Unstamped(b)[i];
    }
    forall id ensures IndexOf(a, id) == IndexOf(b, id) {
      var i, j := IndexOf(a, id), IndexOf(b, id);
    }
  }

  // ---- Where a new order is placed ----------------------------------------

  /** The insert of an engine that stamps in arrival order: behind everything at least as good in price. */
  function InsertByPrice(s: seq<Order>, o: Order): seq<Order> {
    if s == [] || PriceRanksFirst(o.side, o.price, s[0].price) then [o] + s else [s[0]] + InsertByPrice(s[1..], o)
  }

  /** No resting order at the same price would have to yield to `o`. */
  ghost predicate LastInLine(s: seq<Order>, o: Order) {
    forall i :: 0 <= i < |s| && s[i].price == o.price ==> !HasPriorityOver(o.arrival, o.id, s[i].arrival, s[i].id)
  }

  /** An order that is last in line is placed by price alone. */
  lemma {:induction false} InsertLast(s: seq<Order>, o: Order)
    requires LastInLine(s, o)
    ensures Unstamped(InsertSorted(s, o)) == InsertByPrice(Unstamped(s), BareOrder(o))
  {
    if s == [] || Ahead(o, s[0]) {
      UnstampedCons(o, s);
    } else {
      InsertLast(s[1..], o);
      UnstampedCons(s[0], InsertSorted(s[1..], o));
      assert Unstamped(s)[1..] == Unstamped(s[1..]);
    }
  }

  /** Where InsertByPrice puts `o`. */
  function PricePoint(s: seq<Order>, o: Order): (p: nat)
    ensures p <= |s|
    ensures forall i :: 0 <= i < p ==> !PriceRanksFirst(o.side, o.price, s[i].price)
    ensures p < |s| ==> PriceRanksFirst(o.side, o.price, s[p].price)
  {
    if s == [] || PriceRanksFirst(o.side, o.price, s[0].price) then 0 else 1 + PricePoint(s[1..], o)
  }

  lemma {:induction false} InsertByPriceAt(s: seq<Order>, o: Order)
    ensures InsertByPrice(s, o) == InsertAt(s, PricePoint(s, o), o)
  {
    if s != [] && !PriceRanksFirst(o.side, o.price, s[0].price) {
      InsertByPriceAt(s[1..], o);
      assert InsertAt(s, PricePoint(s, o), o) == [s[0]] + InsertAt(s[1..], PricePoint(s[1..], o), o);
    }
  }

  lemma Overtaken(s: seq<Order>, o: Order)
    requires Sorted(s) && OnSide(s, o.side) && !LastInLine(s, o)
    ensures InsertPoint(s, o) < PricePoint(Unstamped(s), BareOrder(o))
  {
    var i :| 0 <= i < |s| && s[i].price == o.price && HasPriorityOver(o.arrival, o.id, s[i].arrival, s[i].id);
    assert InsertPoint(s, o) <= i;
    forall k | 0 <= k <= i ensures !PriceRanksFirst(o.side, o.price, Unstamped(s)[k].price) {
      assert k < i ==> !Ahead(s[i], s[k]);
    }
  }

  /** An order that overtakes someone at its price ends up elsewhere than by price alone. */
  lemma InsertOvertakes(s: seq<Order>, o: Order)
    requires Sorted(s) && OnSide(s, o.side) && !Holds(s, o.id) && !LastInLine(s, o)
    ensures Unstamped(InsertSorted(s, o)) != InsertByPrice(Unstamped(s), BareOrder(o))
  {
    hide InsertSorted;
    hide InsertByPrice;
    var p, q, u := InsertPoint(s, o), PricePoint(Unstamped(s), BareOrder(o)), Unstamped(s);
    InsertSortedAt(s, o, p);
    InsertByPriceAt(u, BareOrder(o));
    Overtaken(s, o);
    assert Unstamped(InsertAt(s, p, o))[p].id == o.id;
    assert InsertAt(u, q, BareOrder(o))[p] == u[p] && u[p].id == s[p].id;
  }

  /** Exactly when arrival numbers do not matter for one insert. */
  lemma StampsMatterExactly(s: seq<Order>, o: Order)
    requires Sorted(s) && OnSide(s, o.side) && !Holds(s, o.id)
    ensures Unstamped(InsertSorted(s, o)) == InsertByPrice(Unstamped(s), BareOrder(o)) <==> LastInLine(s, o)
  {
    if LastInLine(s, o) {
      InsertLast(s, o);
    } else {
      InsertOvertakes(s, o);
    }
  }

  // ---- One command on two engines that differ only in arrival numbers ------

  /** If the message comes to rest, it does so last in line. */
  ghost predicate InLine(e: Engine, msg: Message, caps: Caps) {
    msg.NewOrder? && Validate(msg).Accept? && Rests(e, msg, caps) ==>
      LastInLine(e.On(msg.side), Remainder(msg, MatchFor(e, msg).left))
  }

  lemma BareSides(e1: Engine, e2: Engine, side: Side)
    requires Bare(e1) == Bare(e2)
    ensures Unstamped(e1.On(side)) == Unstamped(e2.On(side)) && e1.exec == e2.exec && e1.retired == e2.retired
  {
  }

  lemma NewBare(e1: Engine, e2: Engine, m1: Message, m2: Message, caps: Caps)
    requires m1.NewOrder? && m2.NewOrder? && Bare(e1) == Bare(e2) && BareMessage(m1) == BareMessage(m2)
    ensures var a, b := MatchFor(e1, m1), MatchFor(e2, m2);
      && a.(book := []) == b.(book := []) && Unstamped(a.book) == Unstamped(b.book)
      && Rests(e1, m1, caps) == Rests(e2, m2, caps)
      && BareOrder(Remainder(m1, a.left)) == BareOrder(Remainder(m2, b.left))
  {
    BareSides(e1, e2, m1.side);
    BareSides(e1, e2, Opposite(m1.side));
    MatchBare(e1.On(Opposite(m1.side)), e2.On(Opposite(m1.side)), m1.side, m1.price, m1.orderId, m1.quantity, e1.exec);
    SameShape(e1.On(m1.side), e2.On(m1.side));
    SameShape(MatchFor(e1, m1).book, MatchFor(e2, m2).book);
  }

  lemma {:induction false} UnstampedRemove(s: seq<Order>, i: nat)
    requires i < |s|
    ensures Unstamped(RemoveAt(s, i)) == RemoveAt(Unstamped(s), i)
  {
  }

  /** The two engines emit the same events and accept the same commands, in line or not. */
  lemma StepEventsAgree(e1: Engine, e2: Engine, m1: Message, m2: Message, caps: Caps)
    requires caps.orders > 0 && Bare(e1) == Bare(e2) && BareMessage(m1) == BareMessage(m2)
    ensures Dispatch(e1, m1, caps).events == Dispatch(e2, m2, caps).events
    ensures Effective(e1, m1) == Effective(e2, m2)
  {
    BareSides(e1, e2, Buy);
    BareSides(e1, e2, Sell);
    SameShape(e1.bids, e2.bids);
    SameShape(e1.asks, e2.asks);
    if m1.NewOrder? {
      NewBare(e1, e2, m1, m2, caps);
    }
  }

  lemma NewStateBare(e: Engine, o: Message, caps: Caps)
    requires caps.orders > 0 && o.NewOrder? && InLine(e, o, caps) && Validate(o).Accept?
    ensures var own, m := e.On(o.side), MatchFor(e, o);
      var bare := Unstamped(own);
      var own' := if Rests(e, o, caps) then InsertByPrice(bare, BareOrder(Remainder(o, m.left))) else bare;
      var e' := e.(exec := m.exec, retired := RetireAll(e.retired, m.gone, caps.orders));
      Bare(ProcessNew(e, o, caps).engine) == WithSides(e', o.side, own', Unstamped(m.book))
  {
    if Rests(e, o, caps) {
      InsertLast(e.On(o.side), Remainder(o, MatchFor(e, o).left));
    }
  }

  lemma StepStatesAgree(e1: Engine, e2: Engine, m1: Message, m2: Message, caps: Caps)
    requires caps.orders > 0 && Bare(e1) == Bare(e2) && BareMessage(m1) == BareMessage(m2)
    requires InLine(e1, m1, caps) && InLine(e2, m2, caps)
    ensures Bare(Dispatch(e1, m1, caps).engine) == Bare(Dispatch(e2, m2, caps).engine)
  {
    hide Match;
    BareSides(e1, e2, Buy);
    BareSides(e1, e2, Sell);
    if m1.NewOrder? && Validate(m1).Accept? {
      NewBare(e1, e2, m1, m2, caps);
      NewStateBare(e1, m1, caps);
      NewStateBare(e2, m2, caps);
    } else if m1.CancelOrder? {
      SameShape(e1.bids, e2.bids);
      SameShape(e1.asks, e2.asks);
      var side := CancelSide(e1, m1.orderId);
      var i := IndexOf(e1.On(side), m1.orderId);
      if i < |e1.On(side)| {
        UnstampedRemove(e1.On(side), i);
        UnstampedRemove(e2.On(side), i);
      }
    }
  }

  /** A message that overtakes someone drives the two engines apart. */
  lemma StepDisagrees(e1: Engine, e2: Engine, m1: Message, m2: Message, caps: Caps)
    requires caps.orders > 0 && Bare(e1) == Bare(e2) && BareMessage(m1) == BareMessage(m2) && EngineOk(e1, caps)
    requires !InLine(e1, m1, caps) && InLine(e2, m2, caps) && !IsResting(e1, m1.orderId)
    ensures Bare(Dispatch(e1, m1, caps).engine) != Bare(Dispatch(e2, m2, caps).engine)
  {
    hide Match;
    NewBare(e1, e2, m1, m2, caps);
    NewStateBare(e2, m2, caps);
    BareSides(e1, e2, m1.side);
    RestingIsHeld(e1, m1.orderId);
    InsertOvertakes(e1.On(m1.side), Remainder(m1, MatchFor(e1, m1).left));
  }

  // ---- Whole runs ---------------------------------------------------------

  ghost predicate InLineRun(e: Engine, msgs: seq<Message>, caps: Caps)
    requires caps.orders > 0
    decreases |msgs|
  {
    msgs == [] || (InLine(e, msgs[0], caps) && InLineRun(Dispatch(e, msgs[0], caps).engine, msgs[1..], caps))
  }

  /** Every submitted id is not resting at that moment. */
  ghost predicate FreshRun(e: Engine, msgs: seq<Message>, caps: Caps)
    requires caps.orders > 0
    decreases |msgs|
  {
    msgs == [] || ((msgs[0].NewOrder? ==> !IsResting(e, msgs[0].orderId))
      && FreshRun(Dispatch(e, msgs[0], caps).engine, msgs[1..], caps))
  }

  ghost predicate SameCommands(a: seq<Message>, b: seq<Message>) {
    |a| == |b| && forall i :: 0 <= i < |a| ==> BareMessage(a[i]) == BareMessage(b[i])
  }

  /** The two runs show the same book, trades counter and retired ids after every command. */
  ghost predicate Agree(e1: Engine, e2: Engine, a: seq<Message>, b: seq<Message>, caps: Caps)
    requires caps.orders > 0 && |a| == |b|
    decreases |a|
  {
    Bare(e1) == Bare(e2)
    && (a == [] || Agree(Dispatch(e1, a[0], caps).engine, Dispatch(e2, b[0], caps).engine, a[1..], b[1..], caps))
  }

  /** Replaying with in-line stamps agrees all the way iff the original run was itself in line. */
  lemma {:induction false} ReplayAgreesExactly(e1: Engine, e2: Engine, a: seq<Message>, b: seq<Message>, caps: Caps)
    requires caps.orders > 0 && EngineOk(e1, caps) && Bare(e1) == Bare(e2) && SameCommands(a, b)
    requires FreshRun(e1, a, caps) && InLineRun(e2, b, caps)
    ensures Agree(e1, e2, a, b, caps) <==> InLineRun(e1, a, caps)
    decreases |a|
  {
    hide Dispatch;
    hide EngineOk;
    hide InLine;
    hide Bare;
    if a != [] {
      assert SameCommands(a[1..], b[1..]) && BareMessage(a[0]) == BareMessage(b[0]);
      DispatchOk(e1, a[0], caps);
      if InLine(e1, a[0], caps) {
        StepStatesAgree(e1, e2, a[0], b[0], caps);
        ReplayAgreesExactly(Dispatch(e1, a[0], caps).engine, Dispatch(e2, b[0], caps).engine, a[1..], b[1..], caps);
      } else {
        NotInLineIsNew(e1, a[0], caps);
        StepDisagrees(e1, e2, a[0], b[0], caps);
      }
    }
  }

  lemma NotInLineIsNew(e: Engine, msg: Message, caps: Caps)
    requires !InLine(e, msg, caps)
    ensures msg.NewOrder?
  {
  }

  /** Runs that are both in line end in the same state with the same events. */
  lemma {:induction false} ReplayAgrees(e1: Engine, e2: Engine, a: seq<Message>, b: seq<Message>, caps: Caps)
    requires caps.orders > 0 && Bare(e1) == Bare(e2) && SameCommands(a, b)
    requires InLineRun(e1, a, caps) && InLineRun(e2, b, caps)
    ensures Bare(Run(e1, a, caps)) == Bare(Run(e2, b, caps))
    ensures Events(e1, a, caps) == Events(e2, b, caps)
    decreases |a|
  {
    hide Dispatch;
    hide InLine;
    hide Bare;
    if a != [] {
      assert SameCommands(a[1..], b[1..]) && BareMessage(a[0]) == BareMessage(b[0]);
      StepStatesAgree(e1, e2, a[0], b[0], caps);
      StepEventsAgree(e1, e2, a[0], b[0], caps);
      ReplayAgrees(Dispatch(e1, a[0], caps).engine, Dispatch(e2, b[0], caps).engine, a[1..], b[1..], caps);
    }
  }

  // ---- Rising arrival numbers ---------------------------------------------

  ghost predicate AllBelow(s: seq<Order>, n: nat) {
    forall i :: 0 <= i < |s| ==> s[i].arrival < n
  }

  ghost predicate StampsBelow(e: Engine, n: nat) {
    AllBelow(e.bids, n) && AllBelow(e.asks, n)
  }

  lemma InsertBelow(s: seq<Order>, o: Order, n: nat)
    requires AllBelow(s, n) && n <= o.arrival
    ensures AllBelow(s, o.arrival + 1) && AllBelow(InsertSorted(s, o), o.arrival + 1) && LastInLine(s, o)
  {
    InsertSortedAt(s, o, InsertPoint(s, o));
  }

  lemma TailBelow(book: seq<Order>, opp: seq<Order>, k: nat, n: nat, n': nat)
    requires AllBelow(opp, n) && TailOf(book, opp, k) && n <= n'
    ensures AllBelow(book, n')
  {
    assert forall i :: 0 <= i < |book| ==> SameBut(book[i], opp[k + i]);
  }

  /** Orders carry strictly increasing arrival numbers from n on. */
  ghost predicate Rising(msgs: seq<Message>, n: nat) {
    msgs == []
    || (if msgs[0].NewOrder? then n <= msgs[0].arrival && Rising(msgs[1..], msgs[0].arrival + 1)
        else Rising(msgs[1..], n))
  }

  lemma MoreBelow(s: seq<Order>, n: nat, n': nat)
    requires AllBelow(s, n) && n <= n'
    ensures AllBelow(s, n')
  {
  }

  lemma FewerBelow(s: seq<Order>, i: nat, n: nat)
    requires AllBelow(s, n) && i < |s|
    ensures AllBelow(RemoveAt(s, i), n)
  {
  }

  lemma StepStamps(e: Engine, msg: Message, caps: Caps, n: nat)
    requires EngineOk(e, caps) && caps.orders > 0 && StampsBelow(e, n) && (msg.NewOrder? ==> n <= msg.arrival)
    ensures InLine(e, msg, caps)
    ensures StampsBelow(Dispatch(e, msg, caps).engine, if msg.NewOrder? then msg.arrival + 1 else n)
  {
    hide Match;
    hide TailOf;
    hide LastInLine;
    hide EngineOk;
    hide Rests;
    hide AllBelow;
    hide InsertSorted;
    var n' := if msg.NewOrder? then msg.arrival + 1 else n;
    MoreBelow(e.bids, n, n');
    MoreBelow(e.asks, n, n');
    if msg.NewOrder? && Validate(msg).Accept? {
      var own, opp, m := e.On(msg.side), e.On(Opposite(msg.side)), MatchFor(e, msg);
      PositiveSides(e, caps, Opposite(msg.side));
      MatchTail(opp, msg.side, msg.price, msg.orderId, msg.quantity, e.exec);
      TailBelow(m.book, opp, |m.gone|, n, msg.arrival + 1);
      InsertBelow(own, Remainder(msg, m.left), n);
    } else if msg.CancelOrder? && IsResting(e, msg.orderId) {
      var s := e.On(CancelSide(e, msg.orderId));
      FewerBelow(s, IndexOf(s, msg.orderId), n);
    }
  }

  lemma {:induction false} RisingIsInLine(e: Engine, msgs: seq<Message>, caps: Caps, n: nat)
    requires EngineOk(e, caps) && caps.orders > 0 && StampsBelow(e, n) && Rising(msgs, n)
    ensures InLineRun(e, msgs, caps)
    decreases |msgs|
  {
    hide Dispatch;
    hide EngineOk;
    hide InLine;
    hide StampsBelow;
    if msgs != [] {
      StepStamps(e, msgs[0], caps, n);
      DispatchOk(e, msgs[0], caps);
      RisingIsInLine(Dispatch(e, msgs[0], caps).engine, msgs[1..], caps,
                     if msgs[0].NewOrder? then msgs[0].arrival + 1 else n);
    }
  }

  /** The gateway stamps replayed orders with consecutive numbers from n. */
  function Restamp(msgs: seq<Message>, n: nat): (r: seq<Message>)
    requires n + |msgs| <= TWO64
  {
    if msgs == [] then []
    else if msgs[0].NewOrder? then [msgs[0].(arrival := n)] + Restamp(msgs[1..], n + 1)
    else [msgs[0]] + Restamp(msgs[1..], n)
  }

  lemma {:induction false} RestampRises(msgs: seq<Message>, n: nat)
    requires n + |msgs| <= TWO64
    ensures Rising(Restamp(msgs, n), n) && SameCommands(msgs, Restamp(msgs, n))
  {
    if msgs != [] {
      var n' := if msgs[0].NewOrder? then n + 1 else n;
      RestampRises(msgs[1..], n');
      assert Restamp(msgs, n)[1..] == Restamp(msgs[1..], n');
    }
  }

  /**
   * Replaying only the accepted commands on a fresh engine, newly stamped, accepts every one again and
   * yields the same trades, retired ids and book up to arrival numbers, provided the accepted commands
   * originally arrived in rising order.
   */
  lemma ReplayRebuilds(msgs: seq<Message>, caps: Caps, n: nat)
    requires 0 < caps.orders && Rising(Erase(FRESH_ENGINE, msgs, caps), 0)
    requires n + |Erase(FRESH_ENGINE, msgs, caps)| <= TWO64
    ensures var replayed := Restamp(Erase(FRESH_ENGINE, msgs, caps), n);
      && Bare(Run(FRESH_ENGINE, replayed, caps)) == Bare(Run(FRESH_ENGINE, msgs, caps))
      && Events(FRESH_ENGINE, replayed, caps) == WithoutRejects(Events(FRESH_ENGINE, msgs, caps))
  {
    var kept := Erase(FRESH_ENGINE, msgs, caps);
    FreshIsOk(caps);
    ErasureIsInvisible(FRESH_ENGINE, msgs, caps);
    RestampRises(kept, n);
    RisingIsInLine(FRESH_ENGINE, kept, caps, 0);
    RisingIsInLine(FRESH_ENGINE, Restamp(kept, n), caps, n);
    ReplayAgrees(FRESH_ENGINE, FRESH_ENGINE, kept, Restamp(kept, n), caps);
  }

  lemma FreshIsOk(caps: Caps)
    ensures EngineOk(FRESH_ENGINE, caps) && UniqueIds(FRESH_ENGINE)
  {
    FreshEngineOk(caps);
  }

  /** Without the order condition replay can rebuild a different book: the second buy overtakes the first. */
  lemma ReplayNeedsOrder()
    ensures var caps := Caps(4, 4);
      var msgs := [NewOrder(1, Buy, 100, 5, 2), NewOrder(2, Buy, 100, 5, 1)];
      && Erase(FRESH_ENGINE, msgs, caps) == msgs
      && Run(FRESH_ENGINE, msgs, caps).bids == [Order(2, Buy, 100, 1, 5), Order(1, Buy, 100, 2, 5)]
      && Run(FRESH_ENGINE, Restamp(msgs, 0), caps).bids == [Order(1, Buy, 100, 0, 5), Order(2, Buy, 100, 1, 5)]
  {
    var caps := Caps(4, 4);
    var a, b := NewOrder(1, Buy, 100, 5, 2), NewOrder(2, Buy, 100, 5, 1);
    TwoBuys(a, b, caps);
    assert [a, b][1..] == [b] && [b][1..] == [] && Restamp([], 2) == [];
    assert Restamp([b], 1) == [b.(arrival := 1)];
    assert Restamp([a, b], 0) == [a.(arrival := 0), b.(arrival := 1)];
    TwoBuys(a.(arrival := 0), b.(arrival := 1), caps);
  }

  lemma TwoBuys(a: Message, b: Message, caps: Caps)
    requires caps == Caps(4, 4) && a.NewOrder? && b.NewOrder? && a.side == b.side == Buy
    requires a.price == b.price == 100 && a.quantity == b.quantity == 5
    ensures Erase(FRESH_ENGINE, [a, b], caps) == [a, b]
    ensures Run(FRESH_ENGINE, [a, b], caps).bids == InsertSorted([Remainder(a, 5)], Remainder(b, 5))
  {
    var e1 := FRESH_ENGINE.(bids := [Remainder(a, 5)]);
    assert Prices([]) == {} && Prices([Remainder(a, 5)]) == {100} by { assert [Remainder(a, 5)][0].price == 100; }
    assert Dispatch(FRESH_ENGINE, a, caps).engine == e1;
    var e2 := Dispatch(e1, b, caps).engine;
    assert e2.bids == InsertSorted(e1.bids, Remainder(b, 5));
    assert [a, b][1..] == [b] && [b][1..] == [];
    assert Run(e1, [b], caps) == Run(e2, [], caps) == e2 && Run(FRESH_ENGINE, [a, b], caps) == Run(e1, [b], caps);
    assert Erase(e2, [], caps) == [] && Erase(e1, [b], caps) == [b];
  }
}
