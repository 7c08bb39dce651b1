/** What holds over every run of the engine: conservation, event bounds, erasure, cancellation. */
module EngineRuns {
  import opened Wire
  import opened LinkedNodes
  import opened BookModel
  import opened Matching
  import opened RetiredIds
  import opened Engine

  // ---- Quantity conservation ----------------------------------------------

  /** The traded quantity, read off the emitted events. */
  function Traded(events: seq<Message>): nat {
    if events == [] then 0 else (if events[0].Trade? then events[0].quantity else 0) + Traded(events[1..])
  }

  function RestingTotal(e: Engine): nat {
    Total(e.bids) + Total(e.asks)
  }

  /** The quantity a message brings in, when it is accepted. */
  function Taken(msg: Message): nat {
    if msg.NewOrder? && Validate(msg).Accept? then msg.quantity else 0
  }

  /** The quantity a message removes by cancellation. */
  function Withdrawn(e: Engine, msg: Message): nat {
    if msg.CancelOrder? && IsResting(e, msg.orderId) then
      e.On(CancelSide(e, msg.orderId))[IndexOf(e.On(CancelSide(e, msg.orderId)), msg.orderId)].qty
    else 0
  }

  /** The quantity a message loses to a full pool. */
  function Lost(e: Engine, msg: Message, caps: Caps): nat {
    if msg.NewOrder? && Validate(msg).Accept? then Dropped(e, msg, caps) else 0
  }

  lemma {:induction false} TradedConcat(a: seq<Message>, b: seq<Message>)
    ensures Traded(a + b) == Traded(a) + Traded(b)
  {
    if a == [] {
      assert a + b == b;
    } else {
      TradedConcat(a[1..], b);
      assert (a + b)[1..] == a[1..] + b;
    }
  }

  /** Each trade takes the same quantity from the incoming order and from the opposite side. */
  lemma {:induction false} MatchBalances(opp: seq<Order>, side: Side, limit: u64, id: u64, left: u32, exec: u64)
    ensures var m := Match(opp, side, limit, id, left, exec);
      left == m.left + Traded(m.trades) && Total(opp) == Total(m.book) + Traded(m.trades)
    decreases |opp|
  {
    if left > 0 && opp != [] && Crosses(side, limit, opp[0].price) {
      if left >= opp[0].qty {
        MatchBalances(opp[1..], side, limit, id, left - opp[0].qty, Next64(exec));
      } else {
        assert ([opp[0].(qty := opp[0].qty - left)] + opp[1..])[1..] == opp[1..];
      }
    }
  }

  lemma {:induction false} TotalInsert(s: seq<Order>, o: Order)
    ensures Total(InsertSorted(s, o)) == Total(s) + o.qty
  {
    if s == [] || Ahead(o, s[0]) {
      assert ([o] + s)[1..] == s;
    } else {
      TotalInsert(s[1..], o);
      assert ([s[0]] + InsertSorted(s[1..], o))[1..] == InsertSorted(s[1..], o);
    }
  }

  lemma {:induction false} TotalRemove(s: seq<Order>, i: nat)
    requires i < |s|
    ensures Total(RemoveAt(s, i)) + s[i].qty == Total(s)
  {
    if i == 0 {
      assert RemoveAt(s, 0) == s[1..];
    } else {
      TotalRemove(s[1..], i - 1);
      assert RemoveAt(s, i)[1..] == RemoveAt(s[1..], i - 1);
    }
  }

  lemma NothingTraded(t: Message)
    requires !t.Trade?
    ensures Traded([t]) == 0
  {
  }

  /** One message conserves quantity. */
  lemma StepConserves(e: Engine, msg: Message, caps: Caps)
    requires caps.orders > 0
    ensures var step := Dispatch(e, msg, caps);
      RestingTotal(e) + Taken(msg)
      == RestingTotal(step.engine) + 2 * Traded(step.events) + Withdrawn(e, msg) + Lost(e, msg, caps)
  {
    hide Match;
    hide Total;
    hide Traded;
    hide InsertSorted;
    hide RemoveAt;
    forall t: Message | !t.Trade? ensures Traded([t]) == 0 { NothingTraded(t); }
    if msg.NewOrder? && Validate(msg).Accept? {
      var m := MatchFor(e, msg);
      MatchBalances(e.On(Opposite(msg.side)), msg.side, msg.price, msg.orderId, msg.quantity, e.exec);
      TradedConcat(m.trades, [Ack(msg.orderId, Accepted)]);
      TotalInsert(e.On(msg.side), Remainder(msg, m.left));
    } else if msg.CancelOrder? && IsResting(e, msg.orderId) {
      TotalRemove(e.On(CancelSide(e, msg.orderId)), IndexOf(e.On(CancelSide(e, msg.orderId)), msg.orderId));
    }
  }

  /** Running totals of a whole run. */
  datatype Tally = Tally(taken: nat, withdrawn: nat, lost: nat)

  function Account(e: Engine, msgs: seq<Message>, caps: Caps): Tally
    requires caps.orders > 0
    decreases |msgs|
  {
    if msgs == [] then Tally(0, 0, 0)
    else
      var rest := Account(Dispatch(e, msgs[0], caps).engine, msgs[1..], caps);
      Tally(Taken(msgs[0]) + rest.taken, Withdrawn(e, msgs[0]) + rest.withdrawn, Lost(e, msgs[0], caps) + rest.lost)
  }

  /** Everything accepted is traded (twice, once per party), resting, cancelled or lost to a full pool. */
  lemma {:induction false} RunConserves(e: Engine, msgs: seq<Message>, caps: Caps)
    requires caps.orders > 0
    ensures var t := Account(e, msgs, caps);
      RestingTotal(e) + t.taken
      == RestingTotal(Run(e, msgs, caps)) + 2 * Traded(Events(e, msgs, caps)) + t.withdrawn + t.lost
    decreases |msgs|
  {
    hide Dispatch;
    if msgs != [] {
      var step := Dispatch(e, msgs[0], caps);
      StepConserves(e, msgs[0], caps);
      RunConserves(step.engine, msgs[1..], caps);
      TradedConcat(step.events, Events(step.engine, msgs[1..], caps));
    }
  }

  /** Nothing on the opposite side would trade with the order. */
  predicate Unmatched(e: Engine, o: Message)
    requires o.NewOrder?
  {
    var opp := e.On(Opposite(o.side));
    opp == [] || !Crosses(o.side, o.price, opp[0].price)
  }

  /** An order that trades and still has quantity left has freed a slot and a level for its remainder. */
  lemma MatchedRemainderRests(e: Engine, o: Message, caps: Caps)
    requires EngineOk(e, caps) && o.NewOrder? && !Unmatched(e, o) && MatchFor(e, o).left > 0
    ensures Rests(e, o, caps)
  {
    hide Apart;
    hide SideOk;
    var opp, m := e.On(Opposite(o.side)), MatchFor(e, o);
    PositiveSides(e, caps, Opposite(o.side));
    MatchTail(opp, o.side, o.price, o.orderId, o.quantity, e.exec);
    MatchKeeps(e, o, caps);
    RemainderApart(e, o, caps);
    assert |m.gone| > 0;
    TailPrices(m.book, opp, |m.gone|);
    assert opp[0].price in Prices(opp);
    assert Prices(m.book) <= Prices(opp) - {opp[0].price};
    SubsetSize(Prices(m.book), Prices(opp) - {opp[0].price});
  }

  /**
   * Exactly when quantity is lost: the order trades with nothing and the pools have no room for it. It is then
   * lost whole, although it is acknowledged, and the engine stays as it was.
   */
  lemma LostExactly(e: Engine, o: Message, caps: Caps)
    requires EngineOk(e, caps) && caps.orders > 0 && o.NewOrder? && Validate(o).Accept?
    ensures Lost(e, o, caps) > 0 <==> Unmatched(e, o) && !CanRest(e.On(o.side), e.On(Opposite(o.side)), o.price, caps)
    ensures Lost(e, o, caps) > 0 ==> Lost(e, o, caps) == o.quantity
    ensures Lost(e, o, caps) > 0 ==> Dispatch(e, o, caps) == Step(e, [Ack(o.orderId, Accepted)])
  {
    if Unmatched(e, o) {
      assert WithSides(e, o.side, e.On(o.side), e.On(Opposite(o.side))) == e;
    } else if MatchFor(e, o).left > 0 {
      MatchedRemainderRests(e, o, caps);
    }
  }

  /** A loss: the one slot is taken by a first buy, and a second, which crosses nothing, is acknowledged and dropped. */
  lemma LossExample()
    ensures var caps, a, b := Caps(1, 1), NewOrder(1, Buy, 100, 5, 0), NewOrder(2, Buy, 101, 7, 1);
      var e := Run(FRESH_ENGINE, [a], caps);
      && e.bids == [Order(1, Buy, 100, 0, 5)] && Lost(e, b, caps) == 7
      && Dispatch(e, b, caps) == Step(e, [Ack(2, Accepted)])
  {
    var caps, a, b := Caps(1, 1), NewOrder(1, Buy, 100, 5, 0), NewOrder(2, Buy, 101, 7, 1);
    assert Prices([]) == {};
    var e := Dispatch(FRESH_ENGINE, a, caps).engine;
    assert e.bids == [Order(1, Buy, 100, 0, 5)];
    assert [a][1..] == [] && Run(e, [], caps) == e && Run(FRESH_ENGINE, [a], caps) == e;
    DispatchOk(FRESH_ENGINE, a, caps);
    LostExactly(e, b, caps);
  }

  // ---- How many events a run can emit -------------------------------------

  function RestingCount(e: Engine): nat {
    |e.bids| + |e.asks|
  }

  /** Every trade but the last one uses up a resting order; the last may instead use up the incoming one. */
  lemma {:induction false} MatchCounts(opp: seq<Order>, side: Side, limit: u64, id: u64, left: u32, exec: u64)
    ensures var m := Match(opp, side, limit, id, left, exec);
      && |m.book| + |m.gone| == |opp| && |m.gone| <= |m.trades| <= |m.gone| + 1
      && (|m.trades| > |m.gone| ==> m.left == 0)
    decreases |opp|
  {
    if left > 0 && opp != [] && Crosses(side, limit, opp[0].price) && left >= opp[0].qty {
      MatchCounts(opp[1..], side, limit, id, left - opp[0].qty, Next64(exec));
    }
  }

  function TradeCount(events: seq<Message>): nat {
    if events == [] then 0 else (if events[0].Trade? then 1 else 0) + TradeCount(events[1..])
  }

  lemma {:induction false} TradeCountConcat(a: seq<Message>, b: seq<Message>)
    ensures TradeCount(a + b) == TradeCount(a) + TradeCount(b)
  {
    if a == [] {
      assert a + b == b;
    } else {
      TradeCountConcat(a[1..], b);
      assert (a + b)[1..] == a[1..] + b;
    }
  }

  lemma {:induction false} AllAreTrades(opp: seq<Order>, side: Side, limit: u64, id: u64, left: u32, exec: u64)
    ensures var m := Match(opp, side, limit, id, left, exec); TradeCount(m.trades) == |m.trades|
    decreases |opp|
  {
    if left > 0 && opp != [] && Crosses(side, limit, opp[0].price) {
      var m := Match(opp, side, limit, id, left, exec);
      if left >= opp[0].qty {
        AllAreTrades(opp[1..], side, limit, id, left - opp[0].qty, Next64(exec));
        assert m.trades[1..] == Match(opp[1..], side, limit, id, left - opp[0].qty, Next64(exec)).trades;
      } else {
        assert m.trades[1..] == [];
      }
    }
  }

  /** The orders a run accepts. */
  function AcceptedOrders(msgs: seq<Message>): nat {
    if msgs == [] then 0 else (if Taken(msgs[0]) > 0 then 1 else 0) + AcceptedOrders(msgs[1..])
  }

  /** One message: one terminator, and trades paid for by resting orders that disappear or by the order itself. */
  lemma StepTradeBound(e: Engine, msg: Message, caps: Caps)
    requires caps.orders > 0
    ensures var step := Dispatch(e, msg, caps);
      && |step.events| == TradeCount(step.events) + 1
      && TradeCount(step.events) + RestingCount(step.engine) <= RestingCount(e) + if Taken(msg) > 0 then 1 else 0
  {
    if msg.NewOrder? && Validate(msg).Accept? {
      var opp, m := e.On(Opposite(msg.side)), MatchFor(e, msg);
      MatchCounts(opp, msg.side, msg.price, msg.orderId, msg.quantity, e.exec);
      AllAreTrades(opp, msg.side, msg.price, msg.orderId, msg.quantity, e.exec);
      TradeCountConcat(m.trades, [Ack(msg.orderId, Accepted)]);
      InsertAddsOne(e.On(msg.side), Remainder(msg, m.left));
    }
  }

  /** Trades plus what still rests never exceed what rested plus what was accepted; each message adds one terminator. */
  lemma {:induction false} TradeBound(e: Engine, msgs: seq<Message>, caps: Caps)
    requires caps.orders > 0
    ensures var events := Events(e, msgs, caps);
      && |events| == TradeCount(events) + |msgs|
      && TradeCount(events) + RestingCount(Run(e, msgs, caps)) <= RestingCount(e) + AcceptedOrders(msgs)
    decreases |msgs|
  {
    hide Dispatch;
    if msgs != [] {
      var step := Dispatch(e, msgs[0], caps);
      StepTradeBound(e, msgs[0], caps);
      TradeBound(step.engine, msgs[1..], caps);
      TradeCountConcat(step.events, Events(step.engine, msgs[1..], caps));
    }
  }

  lemma {:induction false} AcceptedAtMost(msgs: seq<Message>)
    ensures AcceptedOrders(msgs) <= |msgs|
  {
    if msgs != [] {
      AcceptedAtMost(msgs[1..]);
    }
  }

  /** A batch of n messages on a book of r resting orders emits at most 2n + r events. */
  lemma EventBound(e: Engine, msgs: seq<Message>, caps: Caps)
    requires caps.orders > 0
    ensures |Events(e, msgs, caps)| + RestingCount(Run(e, msgs, caps)) <= RestingCount(e) + 2 * |msgs|
  {
    TradeBound(e, msgs, caps);
    AcceptedAtMost(msgs);
  }

  // ---- Messages without effect --------------------------------------------

  /** A valid order, or a cancel of a resting order. */
  predicate Effective(e: Engine, msg: Message) {
    || (msg.NewOrder? && Validate(msg).Accept?)
    || (msg.CancelOrder? && IsResting(e, msg.orderId))
  }

  /** The run without its invalid messages and missed cancels. */
  function Erase(e: Engine, msgs: seq<Message>, caps: Caps): seq<Message>
    requires caps.orders > 0
    decreases |msgs|
  {
    if msgs == [] then []
    else (if Effective(e, msgs[0]) then [msgs[0]] else []) + Erase(Dispatch(e, msgs[0], caps).engine, msgs[1..], caps)
  }

  function WithoutRejects(events: seq<Message>): seq<Message> {
    if events == [] then [] else (if events[0].Reject? then [] else [events[0]]) + WithoutRejects(events[1..])
  }

  lemma Regroup<T>(a: seq<T>, b: seq<T>, c: seq<T>)
    ensures a + (b + c) == a + b + c
  {
  }

  lemma {:induction false} WithoutRejectsConcat(a: seq<Message>, b: seq<Message>)
    ensures WithoutRejects(a + b) == WithoutRejects(a) + WithoutRejects(b)
  {
    if a == [] {
      assert a + b == b;
    } else {
      WithoutRejectsConcat(a[1..], b);
      assert (a + b)[1..] == a[1..] + b;
      Regroup(if a[0].Reject? then [] else [a[0]], WithoutRejects(a[1..]), WithoutRejects(b));
    }
  }

  lemma {:induction false} TradesAreNotRejects(opp: seq<Order>, side: Side, limit: u64, id: u64, left: u32, exec: u64)
    ensures var m := Match(opp, side, limit, id, left, exec); WithoutRejects(m.trades) == m.trades
    decreases |opp|
  {
    if left > 0 && opp != [] && Crosses(side, limit, opp[0].price) && left >= opp[0].qty {
      TradesAreNotRejects(opp[1..], side, limit, id, left - opp[0].qty, Next64(exec));
      var m := Match(opp, side, limit, id, left, exec);
      assert m.trades[1..] == Match(opp[1..], side, limit, id, left - opp[0].qty, Next64(exec)).trades;
    }
  }

  /** An ineffective message changes nothing and emits exactly one Reject; an effective one emits none. */
  lemma StepErases(e: Engine, msg: Message, caps: Caps)
    requires caps.orders > 0
    ensures var step := Dispatch(e, msg, caps);
      && (!Effective(e, msg) ==> step.engine == e && |step.events| == 1 && WithoutRejects(step.events) == [])
      && (Effective(e, msg) ==> WithoutRejects(step.events) == step.events)
  {
    if msg.NewOrder? && Validate(msg).Accept? {
      TradesAreNotRejects(e.On(Opposite(msg.side)), msg.side, msg.price, msg.orderId, msg.quantity, e.exec);
      WithoutRejectsConcat(MatchFor(e, msg).trades, [Ack(msg.orderId, Accepted)]);
    }
  }

  /** Erasing the ineffective messages changes neither the final state nor any other message's events. */
  lemma {:induction false} ErasureIsInvisible(e: Engine, msgs: seq<Message>, caps: Caps)
    requires caps.orders > 0
    ensures var kept := Erase(e, msgs, caps);
      && Run(e, kept, caps) == Run(e, msgs, caps)
      && Events(e, kept, caps) == WithoutRejects(Events(e, msgs, caps))
      && |Events(e, msgs, caps)| == |Events(e, kept, caps)| + (|msgs| - |kept|)
    decreases |msgs|
  {
    hide Dispatch;
    hide Effective;
    if msgs != [] {
      var step := Dispatch(e, msgs[0], caps);
      var kept := Erase(step.engine, msgs[1..], caps);
      StepErases(e, msgs[0], caps);
      ErasureIsInvisible(step.engine, msgs[1..], caps);
      WithoutRejectsConcat(step.events, Events(step.engine, msgs[1..], caps));
      if Effective(e, msgs[0]) {
        assert Erase(e, msgs, caps) == [msgs[0]] + kept && ([msgs[0]] + kept)[1..] == kept;
      } else {
        assert Erase(e, msgs, caps) == kept;
      }
    }
  }

  // ---- Cancellation -------------------------------------------------------

  /** The ids that leave the book while a message is processed, in order. */
  function Leaving(e: Engine, msg: Message): seq<u64> {
    if msg.NewOrder? && Validate(msg).Accept? then MatchFor(e, msg).gone
    else if msg.CancelOrder? && IsResting(e, msg.orderId) then [msg.orderId]
    else []
  }

  function LeftIds(e: Engine, msgs: seq<Message>, caps: Caps): seq<u64>
    requires caps.orders > 0
    decreases |msgs|
  {
    if msgs == [] then [] else Leaving(e, msgs[0]) + LeftIds(Dispatch(e, msgs[0], caps).engine, msgs[1..], caps)
  }

  lemma {:induction false} RetireAllConcat(q: seq<u64>, a: seq<u64>, b: seq<u64>, capacity: nat)
    requires capacity > 0
    ensures RetireAll(q, a + b, capacity) == RetireAll(RetireAll(q, a, capacity), b, capacity)
    decreases |a|
  {
    if a == [] {
      assert a + b == b;
    } else {
      RetireAllConcat(Retire(q, a[0], capacity), a[1..], b, capacity);
      assert (a + b)[1..] == a[1..] + b;
    }
  }

  lemma StepRetires(e: Engine, msg: Message, caps: Caps)
    requires caps.orders > 0
    ensures Dispatch(e, msg, caps).engine.retired == RetireAll(e.retired, Leaving(e, msg), caps.orders)
  {
    if msg.CancelOrder? && IsResting(e, msg.orderId) {
      assert [msg.orderId][1..] == [];
    }
  }

  /** The retired record of a run is the record of exactly the ids that left the book. */
  lemma {:induction false} RetiredAreLeft(e: Engine, msgs: seq<Message>, caps: Caps)
    requires caps.orders > 0
    ensures Run(e, msgs, caps).retired == RetireAll(e.retired, LeftIds(e, msgs, caps), caps.orders)
    decreases |msgs|
  {
    hide Dispatch;
    hide Leaving;
    if msgs != [] {
      var step := Dispatch(e, msgs[0], caps);
      StepRetires(e, msgs[0], caps);
      RetiredAreLeft(step.engine, msgs[1..], caps);
      RetireAllConcat(e.retired, Leaving(e, msgs[0]), LeftIds(step.engine, msgs[1..], caps), caps.orders);
    }
  }

  ghost predicate Holds(s: seq<Order>, id: u64) {
    exists i :: 0 <= i < |s| && s[i].id == id
  }

  ghost predicate DistinctIds(s: seq<Order>) {
    forall i, j :: 0 <= i < j < |s| ==> s[i].id != s[j].id
  }

  /** No id rests twice. The gateway, not the engine, guarantees this. */
  ghost predicate UniqueIds(e: Engine) {
    && DistinctIds(e.bids) && DistinctIds(e.asks)
    && forall i, j :: 0 <= i < |e.bids| && 0 <= j < |e.asks| ==> e.bids[i].id != e.asks[j].id
  }

  lemma RestingIsHeld(e: Engine, id: u64)
    ensures IsResting(e, id) <==> Holds(e.bids, id) || Holds(e.asks, id)
  {
    assert forall side :: Holds(e.On(side), id) <==> IndexOf(e.On(side), id) < |e.On(side)|;
  }

  lemma InsertHolds(s: seq<Order>, o: Order, id: u64)
    ensures Holds(InsertSorted(s, o), id) <==> o.id == id || Holds(s, id)
  {
    var p := InsertPoint(s, o);
    InsertSortedAt(s, o, p);
    var r := InsertAt(s, p, o);
    assert r[p] == o;
    if i :| 0 <= i < |s| && s[i].id == id {
      assert r[if i < p then i else i + 1] == s[i];
    }
    if i :| 0 <= i < |r| && r[i].id == id && i != p {
      assert r[i] == s[if i < p then i else i - 1];
    }
  }

  lemma InsertDistinct(s: seq<Order>, o: Order)
    requires DistinctIds(s) && !Holds(s, o.id)
    ensures DistinctIds(InsertSorted(s, o))
  {
    InsertSortedAt(s, o, InsertPoint(s, o));
  }

  lemma TailHolds(book: seq<Order>, opp: seq<Order>, n: nat, id: u64)
    requires TailOf(book, opp, n)
    ensures Holds(book, id) ==> Holds(opp, id)
    ensures DistinctIds(opp) ==> DistinctIds(book)
  {
    assert forall i :: 0 <= i < |book| ==> SameBut(book[i], opp[n + i]);
  }

  lemma RemoveHolds(s: seq<Order>, i: nat, id: u64)
    requires i < |s|
    ensures Holds(RemoveAt(s, i), id) ==> Holds(s, id)
    ensures DistinctIds(s) ==> DistinctIds(RemoveAt(s, i)) && !Holds(RemoveAt(s, i), s[i].id)
  {
    var r := RemoveAt(s, i);
    assert forall k :: 0 <= k < |r| ==> r[k] == s[if k < i then k else k + 1];
  }

  lemma PositiveSides(e: Engine, caps: Caps, side: Side)
    requires EngineOk(e, caps)
    ensures Positive(e.On(side))
  {
  }

  /** An id comes to rest only by being resting already or by being submitted. */
  lemma StepRests(e: Engine, msg: Message, caps: Caps, id: u64)
    requires EngineOk(e, caps) && caps.orders > 0 && IsResting(Dispatch(e, msg, caps).engine, id)
    ensures IsResting(e, id) || (msg.NewOrder? && msg.orderId == id)
  {
    var e' := Dispatch(e, msg, caps).engine;
    RestingIsHeld(e, id);
    RestingIsHeld(e', id);
    if msg.NewOrder? && Validate(msg).Accept? {
      var m := MatchFor(e, msg);
      PositiveSides(e, caps, Opposite(msg.side));
      MatchTail(e.On(Opposite(msg.side)), msg.side, msg.price, msg.orderId, msg.quantity, e.exec);
      TailHolds(m.book, e.On(Opposite(msg.side)), |m.gone|, id);
      InsertHolds(e.On(msg.side), Remainder(msg, m.left), id);
    } else if msg.CancelOrder? && IsResting(e, msg.orderId) {
      var own := e.On(CancelSide(e, msg.orderId));
      RemoveHolds(own, IndexOf(own, msg.orderId), id);
    }
  }

  lemma {:induction false} TradesNameResting(
    opp: seq<Order>, side: Side, limit: u64, id: u64, left: u32, exec: u64, k: nat)
    requires k < |Match(opp, side, limit, id, left, exec).trades|
    ensures var t := Match(opp, side, limit, id, left, exec).trades[k]; t.Trade? && Holds(opp, t.restingId)
    decreases |opp|
  {
    assert Holds(opp, opp[0].id);
    if k > 0 {
      TradesNameResting(opp[1..], side, limit, id, left - opp[0].qty, Next64(exec), k - 1);
      var t := Match(opp[1..], side, limit, id, left - opp[0].qty, Next64(exec)).trades[k - 1];
      var i :| 0 <= i < |opp[1..]| && opp[1..][i].id == t.restingId;
      assert opp[i + 1].id == t.restingId;
    }
  }

  ghost predicate NeverSubmitted(msgs: seq<Message>, id: u64) {
    forall i :: 0 <= i < |msgs| ==> !(msgs[i].NewOrder? && msgs[i].orderId == id)
  }

  ghost predicate NeverTraded(events: seq<Message>, id: u64) {
    forall i :: 0 <= i < |events| && events[i].Trade? ==> events[i].restingId != id
  }

  lemma StepNotTraded(e: Engine, msg: Message, caps: Caps, id: u64)
    requires caps.orders > 0 && !IsResting(e, id)
    ensures NeverTraded(Dispatch(e, msg, caps).events, id)
  {
    RestingIsHeld(e, id);
    if msg.NewOrder? && Validate(msg).Accept? {
      var m := MatchFor(e, msg);
      forall k | 0 <= k < |m.trades| ensures m.trades[k].Trade? && m.trades[k].restingId != id {
        TradesNameResting(e.On(Opposite(msg.side)), msg.side, msg.price, msg.orderId, msg.quantity, e.exec, k);
      }
    }
  }

  /** An id that is not resting never trades again as a resting order unless it is submitted again. */
  lemma {:induction false} GoneStaysGone(e: Engine, msgs: seq<Message>, caps: Caps, id: u64)
    requires EngineOk(e, caps) && caps.orders > 0 && !IsResting(e, id) && NeverSubmitted(msgs, id)
    ensures !IsResting(Run(e, msgs, caps), id) && NeverTraded(Events(e, msgs, caps), id)
    decreases |msgs|
  {
    hide Dispatch;
    hide IsResting;
    hide EngineOk;
    if msgs != [] {
      var step := Dispatch(e, msgs[0], caps);
      StepNotTraded(e, msgs[0], caps, id);
      DispatchOk(e, msgs[0], caps);
      if IsResting(step.engine, id) {
        StepRests(e, msgs[0], caps, id);
      }
      GoneStaysGone(step.engine, msgs[1..], caps, id);
    }
  }

  /** A cancel is acknowledged iff the id is resting; with unique ids it is gone afterwards. */
  lemma CancelVerdict(e: Engine, id: u64, caps: Caps)
    requires caps.orders > 0
    ensures var step := Dispatch(e, CancelOrder(id), caps);
      && (step.events == [Ack(id, Cancelled)] <==> Holds(e.bids, id) || Holds(e.asks, id))
      && (UniqueIds(e) ==> !IsResting(step.engine, id))
  {
    var e' := Dispatch(e, CancelOrder(id), caps).engine;
    RestingIsHeld(e, id);
    RestingIsHeld(e', id);
    if IsResting(e, id) {
      var own := e.On(CancelSide(e, id));
      RemoveHolds(own, IndexOf(own, id), id);
    }
  }

  /** How many orders of a side have this id. */
  function CountId(s: seq<Order>, id: u64): nat {
    if s == [] then 0 else (if s[0].id == id then 1 else 0) + CountId(s[1..], id)
  }

  lemma {:induction false} CountTells(s: seq<Order>, id: u64)
    ensures CountId(s, id) > 0 <==> Holds(s, id)
  {
    if s != [] {
      CountTells(s[1..], id);
      if i :| 0 <= i < |s[1..]| && s[1..][i].id == id {
        assert s[i + 1].id == id;
      }
      if i :| 0 < i < |s| && s[i].id == id {
        assert s[1..][i - 1].id == id;
      }
    }
  }

  lemma {:induction false} CountRemove(s: seq<Order>, i: nat, id: u64)
    requires i < |s| && s[i].id == id
    ensures CountId(RemoveAt(s, i), id) == CountId(s, id) - 1
  {
    if i == 0 {
      assert RemoveAt(s, 0) == s[1..];
    } else {
      CountRemove(s[1..], i - 1, id);
      assert RemoveAt(s, i)[1..] == RemoveAt(s[1..], i - 1);
    }
  }

  /** After an acknowledged cancel the id is gone iff exactly one resting order had it. */
  lemma CancelClearsExactly(e: Engine, id: u64, caps: Caps)
    requires caps.orders > 0 && IsResting(e, id)
    ensures !IsResting(Dispatch(e, CancelOrder(id), caps).engine, id)
       <==> CountId(e.bids, id) + CountId(e.asks, id) == 1
  {
    hide IsResting;
    hide RemoveAt;
    var e', side := Dispatch(e, CancelOrder(id), caps).engine, CancelSide(e, id);
    var own, other := e.On(side), e.On(Opposite(side));
    CancelLeaves(e, id, caps);
    RestingIsHeld(e', id);
    CountRemove(own, IndexOf(own, id), id);
    CountTells(own, id);
    CountTells(other, id);
    CountTells(RemoveAt(own, IndexOf(own, id)), id);
  }

  /** What an acknowledged cancel leaves of the two sides. */
  lemma CancelLeaves(e: Engine, id: u64, caps: Caps)
    requires caps.orders > 0 && IsResting(e, id)
    ensures var e', side := Dispatch(e, CancelOrder(id), caps).engine, CancelSide(e, id);
      && IndexOf(e.On(side), id) < |e.On(side)| && e'.On(side) == RemoveAt(e.On(side), IndexOf(e.On(side), id))
      && e'.On(Opposite(side)) == e.On(Opposite(side))
  {
  }

  /** Submitting only ids that are not resting keeps resting ids unique. */
  lemma StepUnique(e: Engine, msg: Message, caps: Caps)
    requires EngineOk(e, caps) && caps.orders > 0 && UniqueIds(e)
    requires msg.NewOrder? ==> !IsResting(e, msg.orderId)
    ensures UniqueIds(Dispatch(e, msg, caps).engine)
  {
    hide EngineOk;
    hide ProcessNew;
    hide RemoveAt;
    if msg.NewOrder? && Validate(msg).Accept? {
      NewUnique(e, msg, caps);
    } else if msg.CancelOrder? && IsResting(e, msg.orderId) {
      var side := CancelSide(e, msg.orderId);
      var own, other := e.On(side), e.On(Opposite(side));
      var i := IndexOf(own, msg.orderId);
      RemoveHolds(own, i, msg.orderId);
      RemoveDisjoint(own, i, other);
      WithSidesUnique(e, side, RemoveAt(own, i), other);
    }
  }

  ghost predicate DisjointIds(a: seq<Order>, b: seq<Order>) {
    forall i, j :: 0 <= i < |a| && 0 <= j < |b| ==> a[i].id != b[j].id
  }

  lemma RemoveDisjoint(s: seq<Order>, i: nat, b: seq<Order>)
    requires DisjointIds(s, b) && i < |s|
    ensures DisjointIds(RemoveAt(s, i), b)
  {
    assert forall k :: 0 <= k < |s| - 1 ==> RemoveAt(s, i)[k] == s[if k < i then k else k + 1];
  }

  lemma InsertDisjoint(s: seq<Order>, o: Order, b: seq<Order>)
    requires DisjointIds(s, b) && !Holds(b, o.id)
    ensures DisjointIds(InsertSorted(s, o), b)
  {
    InsertSortedAt(s, o, InsertPoint(s, o));
  }

  lemma TailDisjoint(s: seq<Order>, book: seq<Order>, opp: seq<Order>, n: nat)
    requires DisjointIds(s, opp) && TailOf(book, opp, n)
    ensures DisjointIds(s, book)
  {
    assert forall i :: 0 <= i < |book| ==> SameBut(book[i], opp[n + i]);
  }

  lemma WithSidesUnique(e: Engine, side: Side, own: seq<Order>, other: seq<Order>)
    requires DistinctIds(own) && DistinctIds(other) && DisjointIds(own, other)
    ensures UniqueIds(WithSides(e, side, own, other))
  {
  }

  lemma NewUnique(e: Engine, o: Message, caps: Caps)
    requires EngineOk(e, caps) && caps.orders > 0 && UniqueIds(e) && o.NewOrder? && !IsResting(e, o.orderId)
    ensures UniqueIds(ProcessNew(e, o, caps).engine)
  {
    hide Match;
    hide TailOf;
    hide EngineOk;
    hide Rests;
    var own, opp, m := e.On(o.side), e.On(Opposite(o.side)), MatchFor(e, o);
    RestingIsHeld(e, o.orderId);
    PositiveSides(e, caps, Opposite(o.side));
    MatchTail(opp, o.side, o.price, o.orderId, o.quantity, e.exec);
    TailHolds(m.book, opp, |m.gone|, o.orderId);
    TailDisjoint(own, m.book, opp, |m.gone|);
    InsertDistinct(own, Remainder(o, m.left));
    InsertDisjoint(own, Remainder(o, m.left), m.book);
    var own' := if Rests(e, o, caps) then InsertSorted(own, Remainder(o, m.left)) else own;
    WithSidesUnique(e.(exec := m.exec, retired := RetireAll(e.retired, m.gone, caps.orders)), o.side, own', m.book);
  }

  // ---- Why a cancel misses -------------------------------------------------

  lemma {:induction false} GoneWereResting(
    opp: seq<Order>, side: Side, limit: u64, id: u64, left: u32, exec: u64, gone: u64)
    requires gone in Match(opp, side, limit, id, left, exec).gone
    ensures Holds(opp, gone)
    decreases |opp|
  {
    assert Holds(opp, opp[0].id);
    if gone != opp[0].id {
      GoneWereResting(opp[1..], side, limit, id, left - opp[0].qty, Next64(exec), gone);
      var i :| 0 <= i < |opp[1..]| && opp[1..][i].id == gone;
      assert opp[i + 1].id == gone;
    }
  }

  lemma LeavingWereResting(e: Engine, msg: Message, id: u64)
    requires id in Leaving(e, msg)
    ensures IsResting(e, id)
  {
    RestingIsHeld(e, id);
    if msg.NewOrder? {
      GoneWereResting(e.On(Opposite(msg.side)), msg.side, msg.price, msg.orderId, msg.quantity, e.exec, id);
    }
  }

  /** At some point before the end of the run, `id` was resting. */
  ghost predicate OnceRested(e: Engine, msgs: seq<Message>, caps: Caps, id: u64)
    requires caps.orders > 0
  {
    exists k :: 0 <= k < |msgs| && IsResting(Run(e, msgs[..k], caps), id)
  }

  /** Only ids that once rested have left. */
  lemma {:induction false} LeftOnceRested(e: Engine, msgs: seq<Message>, caps: Caps, id: u64)
    requires caps.orders > 0 && id in LeftIds(e, msgs, caps)
    ensures OnceRested(e, msgs, caps, id)
    decreases |msgs|
  {
    hide Dispatch;
    hide Leaving;
    hide IsResting;
    if id in Leaving(e, msgs[0]) {
      LeavingWereResting(e, msgs[0], id);
      assert Run(e, msgs[..0], caps) == e;
    } else {
      var e', rest := Dispatch(e, msgs[0], caps).engine, msgs[1..];
      LeftOnceRested(e', rest, caps, id);
      var k :| 0 <= k < |rest| && IsResting(Run(e', rest[..k], caps), id);
      assert msgs[..k + 1][1..] == rest[..k];
      assert Run(e, msgs[..k + 1], caps) == Run(e', rest[..k], caps);
    }
  }

  lemma {:induction false} RecordedWereRetired(q: seq<u64>, ids: seq<u64>, capacity: nat, id: u64)
    requires capacity > 0 && id in RetireAll(q, ids, capacity)
    ensures id in q || id in ids
    decreases |ids|
  {
    if ids != [] {
      RecordedWereRetired(Retire(q, ids[0], capacity), ids[1..], capacity, id);
    }
  }

  // ---- Nothing that rested vanishes unrecorded -----------------------------

  /** Every order of the matched side is filled and reported gone, or still there. */
  lemma {:induction false} GoneOrKept(
    opp: seq<Order>, side: Side, limit: u64, id: u64, left: u32, exec: u64, x: u64)
    requires Holds(opp, x)
    ensures var m := Match(opp, side, limit, id, left, exec); x in m.gone || Holds(m.book, x)
    decreases |opp|
  {
    if left > 0 && Crosses(side, limit, opp[0].price) {
      if left < opp[0].qty {
        var book := [opp[0].(qty := opp[0].qty - left)] + opp[1..];
        var i :| 0 <= i < |opp| && opp[i].id == x;
        assert book[i].id == x;
      } else if x != opp[0].id {
        var i :| 0 <= i < |opp| && opp[i].id == x;
        assert opp[1..][i - 1].id == x;
        GoneOrKept(opp[1..], side, limit, id, left - opp[0].qty, Next64(exec), x);
      }
    }
  }

  lemma RemoveKeepsOthers(s: seq<Order>, i: nat, x: u64)
    requires i < |s| && Holds(s, x) && s[i].id != x
    ensures Holds(RemoveAt(s, i), x)
  {
    var k :| 0 <= k < |s| && s[k].id == x;
    assert RemoveAt(s, i)[if k < i then k else k - 1].id == x;
  }

  /** A resting id still rests after a message, or is among the ids that left. */
  lemma StepKeepsOrLeaves(e: Engine, msg: Message, caps: Caps, x: u64)
    requires caps.orders > 0 && IsResting(e, x)
    ensures IsResting(Dispatch(e, msg, caps).engine, x) || x in Leaving(e, msg)
  {
    RestingIsHeld(e, x);
    RestingIsHeld(Dispatch(e, msg, caps).engine, x);
    if msg.NewOrder? && Validate(msg).Accept? {
      var opp, m := e.On(Opposite(msg.side)), MatchFor(e, msg);
      if Holds(opp, x) {
        GoneOrKept(opp, msg.side, msg.price, msg.orderId, msg.quantity, e.exec, x);
      }
      InsertHolds(e.On(msg.side), Remainder(msg, m.left), x);
    } else if msg.CancelOrder? && IsResting(e, msg.orderId) && x != msg.orderId {
      var own := e.On(CancelSide(e, msg.orderId));
      if Holds(own, x) {
        RemoveKeepsOthers(own, IndexOf(own, msg.orderId), x);
      }
    }
  }

  /** Over any run, an id that once rested is still resting or has left. */
  lemma {:induction false} RestedOrLeft(e: Engine, msgs: seq<Message>, caps: Caps, id: u64)
    requires caps.orders > 0 && OnceRested(e, msgs, caps, id)
    ensures IsResting(Run(e, msgs, caps), id) || id in LeftIds(e, msgs, caps)
    decreases |msgs|
  {
    hide Dispatch;
    hide Leaving;
    hide IsResting;
    var k :| 0 <= k < |msgs| && IsResting(Run(e, msgs[..k], caps), id);
    var e', rest := Dispatch(e, msgs[0], caps).engine, msgs[1..];
    if k > 0 {
      assert msgs[..k][1..] == rest[..k - 1];
      assert Run(e, msgs[..k], caps) == Run(e', rest[..k - 1], caps);
      RestedOrLeft(e', rest, caps, id);
    } else {
      assert Run(e, msgs[..0], caps) == e;
      StepKeepsOrLeaves(e, msgs[0], caps, id);
      if IsResting(e', id) && rest != [] {
        assert Run(e', rest[..0], caps) == e';
        RestedOrLeft(e', rest, caps, id);
      }
    }
  }

  /** An id that is not resting has left exactly when it once rested. */
  lemma LeftExactly(e: Engine, msgs: seq<Message>, caps: Caps, id: u64)
    requires caps.orders > 0 && !IsResting(Run(e, msgs, caps), id)
    ensures id in LeftIds(e, msgs, caps) <==> OnceRested(e, msgs, caps, id)
  {
    if id in LeftIds(e, msgs, caps) {
      LeftOnceRested(e, msgs, caps, id);
    }
    if OnceRested(e, msgs, caps, id) {
      RestedOrLeft(e, msgs, caps, id);
    }
  }

  /** The verdict on an id that is not resting is read off the record of ids that left. */
  lemma MissIsRecorded(msgs: seq<Message>, caps: Caps, id: u64)
    requires caps.orders > 0 && !IsResting(Run(FRESH_ENGINE, msgs, caps), id)
    ensures var events := Dispatch(Run(FRESH_ENGINE, msgs, caps), CancelOrder(id), caps).events;
      var left := LeftIds(FRESH_ENGINE, msgs, caps);
      && (events == [Reject(id, NoLongerResting)] || events == [Reject(id, OrderNotFound)])
      && (events == [Reject(id, NoLongerResting)] ==> id in left)
      && (|Elements(left)| <= caps.orders && id in left ==> events == [Reject(id, NoLongerResting)])
  {
    var left := LeftIds(FRESH_ENGINE, msgs, caps);
    RetiredAreLeft(FRESH_ENGINE, msgs, caps);
    if id in RetireAll([], left, caps.orders) {
      RecordedWereRetired([], left, caps.orders, id);
    }
    if |Elements(left)| <= caps.orders {
      assert Elements([]) + Elements(left) == Elements(left);
      NothingForgotten([], left, caps.orders);
      assert id in left <==> id in Elements(left);
      assert id in RetireAll([], left, caps.orders) <==> id in Elements(RetireAll([], left, caps.orders));
    }
  }

  /**
   * After any run from a fresh engine a missed cancel says NoLongerResting only of an id that once rested; and
   * as long as no more distinct ids have left the book than the record holds, exactly of the ids that once rested.
   */
  lemma MissReason(msgs: seq<Message>, caps: Caps, id: u64)
    requires caps.orders > 0 && !IsResting(Run(FRESH_ENGINE, msgs, caps), id)
    ensures var events := Dispatch(Run(FRESH_ENGINE, msgs, caps), CancelOrder(id), caps).events;
      var rested := OnceRested(FRESH_ENGINE, msgs, caps, id);
      && (events == [Reject(id, NoLongerResting)] || events == [Reject(id, OrderNotFound)])
      && (events == [Reject(id, NoLongerResting)] ==> rested)
      && (|Elements(LeftIds(FRESH_ENGINE, msgs, caps))| <= caps.orders ==>
          (events == [Reject(id, NoLongerResting)] <==> rested))
  {
    hide Dispatch;
    hide IsResting;
    MissIsRecorded(msgs, caps, id);
    LeftExactly(FRESH_ENGINE, msgs, caps, id);
  }

  /** An id that never came to rest is always OrderNotFound. */
  lemma NeverRestedIsNotFound(msgs: seq<Message>, caps: Caps, id: u64)
    requires caps.orders > 0
    requires !OnceRested(FRESH_ENGINE, msgs, caps, id) && !IsResting(Run(FRESH_ENGINE, msgs, caps), id)
    ensures Dispatch(Run(FRESH_ENGINE, msgs, caps), CancelOrder(id), caps).events == [Reject(id, OrderNotFound)]
  {
    MissReason(msgs, caps, id);
  }

  // ---- Orders that never come to rest ----------------------------------------

  lemma {:induction false} RunConcat(e: Engine, a: seq<Message>, b: seq<Message>, caps: Caps)
    requires caps.orders > 0
    ensures Run(e, a + b, caps) == Run(Run(e, a, caps), b, caps)
    ensures Events(e, a + b, caps) == Events(e, a, caps) + Events(Run(e, a, caps), b, caps)
    decreases |a|
  {
    hide Dispatch;
    if a == [] {
      assert a + b == b && [] + Events(e, b, caps) == Events(e, b, caps);
    } else {
      assert (a + b)[1..] == a[1..] + b;
      RunConcat(Dispatch(e, a[0], caps).engine, a[1..], b, caps);
    }
  }

  /** The state after one more message of a run. */
  lemma RunStep(e: Engine, msgs: seq<Message>, caps: Caps, j: nat)
    requires caps.orders > 0 && j < |msgs|
    ensures Run(e, msgs[..j + 1], caps) == Dispatch(Run(e, msgs[..j], caps), msgs[j], caps).engine
  {
    hide Dispatch;
    assert msgs[..j + 1] == msgs[..j] + [msgs[j]];
    RunConcat(e, msgs[..j], [msgs[j]], caps);
    assert [msgs[j]][1..] == [];
    var e' := Dispatch(Run(e, msgs[..j], caps), msgs[j], caps).engine;
    assert Run(e', [], caps) == e';
  }

  /** A submitted id that was not resting rests afterwards exactly when its order is valid and its remainder rests. */
  lemma SubmissionRestsExactly(e: Engine, o: Message, caps: Caps)
    requires EngineOk(e, caps) && caps.orders > 0 && o.NewOrder? && !IsResting(e, o.orderId)
    ensures IsResting(Dispatch(e, o, caps).engine, o.orderId) <==> Validate(o).Accept? && Rests(e, o, caps)
  {
    hide Rests;
    RestingIsHeld(e, o.orderId);
    RestingIsHeld(Dispatch(e, o, caps).engine, o.orderId);
    if Validate(o).Accept? {
      var opp, m := e.On(Opposite(o.side)), MatchFor(e, o);
      PositiveSides(e, caps, Opposite(o.side));
      MatchTail(opp, o.side, o.price, o.orderId, o.quantity, e.exec);
      TailHolds(m.book, opp, |m.gone|, o.orderId);
      InsertHolds(e.On(o.side), Remainder(o, m.left), o.orderId);
    }
  }

  /** `id` is submitted by message k and by no other. */
  ghost predicate SubmittedOnlyAt(msgs: seq<Message>, k: nat, id: u64) {
    && k < |msgs| && msgs[k].NewOrder? && msgs[k].orderId == id
    && forall i :: 0 <= i < |msgs| && i != k ==> !(msgs[i].NewOrder? && msgs[i].orderId == id)
  }

  /** An id whose one submission does not come to rest is resting at no point of the run. */
  lemma {:induction false} NeverRests(msgs: seq<Message>, caps: Caps, k: nat, id: u64, j: nat)
    requires caps.orders > 0 && SubmittedOnlyAt(msgs, k, id) && j <= |msgs|
    requires !(Validate(msgs[k]).Accept? && Rests(Run(FRESH_ENGINE, msgs[..k], caps), msgs[k], caps))
    ensures !IsResting(Run(FRESH_ENGINE, msgs[..j], caps), id)
  {
    hide Dispatch;
    hide IsResting;
    hide Rests;
    hide EngineOk;
    if j == 0 {
      FreshRestsNothing(id);
    } else {
      var e := Run(FRESH_ENGINE, msgs[..j - 1], caps);
      NeverRests(msgs, caps, k, id, j - 1);
      FreshEngineOk(caps);
      RunOk(FRESH_ENGINE, msgs[..j - 1], caps);
      RunStep(FRESH_ENGINE, msgs, caps, j - 1);
      if j - 1 == k {
        SubmissionRestsExactly(e, msgs[k], caps);
      } else if IsResting(Dispatch(e, msgs[j - 1], caps).engine, id) {
        StepRests(e, msgs[j - 1], caps, id);
      }
    }
  }

  lemma FreshEngineOk(caps: Caps)
    ensures EngineOk(FRESH_ENGINE, caps)
  {
    assert Prices([]) == {};
  }

  lemma FreshRestsNothing(id: u64)
    ensures !IsResting(FRESH_ENGINE, id)
  {
  }

  /** An order submitted once ever rests exactly when it is valid and its remainder rests on arrival. */
  lemma EverRestsExactly(msgs: seq<Message>, caps: Caps, k: nat, id: u64)
    requires caps.orders > 0 && SubmittedOnlyAt(msgs, k, id)
    ensures OnceRested(FRESH_ENGINE, msgs, caps, id) || IsResting(Run(FRESH_ENGINE, msgs, caps), id) <==>
      Validate(msgs[k]).Accept? && Rests(Run(FRESH_ENGINE, msgs[..k], caps), msgs[k], caps)
  {
    hide Dispatch;
    hide IsResting;
    hide Rests;
    hide EngineOk;
    hide Run;
    var e := Run(FRESH_ENGINE, msgs[..k], caps);
    assert msgs[..|msgs|] == msgs;
    if Validate(msgs[k]).Accept? && Rests(e, msgs[k], caps) {
      NeverBefore(msgs, caps, k, id, k);
      FreshEngineOk(caps);
      RunOk(FRESH_ENGINE, msgs[..k], caps);
      SubmissionRestsExactly(e, msgs[k], caps);
      RunStep(FRESH_ENGINE, msgs, caps, k);
      assert k + 1 < |msgs| ==> OnceRested(FRESH_ENGINE, msgs, caps, id);
    } else {
      forall j | 0 <= j <= |msgs| ensures !IsResting(Run(FRESH_ENGINE, msgs[..j], caps), id) {
        NeverRests(msgs, caps, k, id, j);
      }
    }
  }

  /** Before its submission an id does not rest. */
  lemma {:induction false} NeverBefore(msgs: seq<Message>, caps: Caps, k: nat, id: u64, j: nat)
    requires caps.orders > 0 && SubmittedOnlyAt(msgs, k, id) && j <= k
    ensures !IsResting(Run(FRESH_ENGINE, msgs[..j], caps), id)
  {
    FreshRestsNothing(id);
    FreshEngineOk(caps);
    GoneStaysGone(FRESH_ENGINE, msgs[..j], caps, id);
  }

  /** An order submitted once and filled entirely on arrival is OrderNotFound to every later cancel. */
  lemma FilledOnArrivalIsNotFound(msgs: seq<Message>, caps: Caps, k: nat, id: u64)
    requires caps.orders > 0 && SubmittedOnlyAt(msgs, k, id)
    requires MatchFor(Run(FRESH_ENGINE, msgs[..k], caps), msgs[k]).left == 0
    ensures Dispatch(Run(FRESH_ENGINE, msgs, caps), CancelOrder(id), caps).events == [Reject(id, OrderNotFound)]
  {
    hide Dispatch;
    hide IsResting;
    EverRestsExactly(msgs, caps, k, id);
    NeverRestedIsNotFound(msgs, caps, id);
  }
}
