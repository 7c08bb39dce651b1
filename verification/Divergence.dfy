/** Exactly when projection and engine part over one command: a lost order, or an in-flight entry that was dropped. */
module Divergence {
  import opened Wire
  import opened Codec
  import opened BookModel
  import opened Matching
  import opened Engine
  import opened EngineRuns
  import opened AppState
  import opened ReplicaStep
  import opened Replica
  import opened Restart

  // ---- The entry is there ------------------------------------------------------------

  /** A registered command takes the projection of the book to that of the new book iff it loses nothing. */
  lemma HeardExactly(e: Engine, msg: Message, caps: Caps)
    requires EngineOk(e, caps) && caps.orders > 0 && UniqueIds(e) && CleanStep(e, map[], msg)
    ensures var step := Dispatch(e, msg, caps);
      Effect(BookMap(e), EntryFor(msg), msg.orderId, step.events) == BookMap(step.engine) <==> Lost(e, msg, caps) == 0
  {
    hide BookMap;
    hide EngineOk;
    hide UniqueIds;
    hide Effect;
    hide Lost;
    hide Dispatch;
    hide IsResting;
    var step, phantom := Dispatch(e, msg, caps), Phantom(e, msg, caps);
    CommandEffect(e, msg, map[], caps);
    assert BookMap(e) + map[] == BookMap(e) && map[] + phantom == phantom;
    StepSeparate(e, map[], msg, caps);
    ShownTells(step.engine, phantom, {});
    var book, shown := BookMap(step.engine), Shown(step.engine, phantom);
    assert book - {} == book && shown - {} == shown;
    LostIsNew(e, msg, caps);
  }

  /** A loss seen from both ends: the second buy is shown by the projection and unknown to the engine. */
  lemma LossDiverges()
    ensures var caps, a, b := Caps(1, 1), NewOrder(1, Buy, 100, 5, 0), NewOrder(2, Buy, 101, 7, 1);
      var e := Run(FRESH_ENGINE, [a], caps);
      var step := Dispatch(e, b, caps);
      && Effect(BookMap(e), EntryFor(b), 2, step.events) == BookMap(e)[2 := P.Resting(Buy, 101, 7)]
      && BookMap(step.engine) == BookMap(e) == map[1 := P.Resting(Buy, 100, 5)]
  {
    var caps, a, b := Caps(1, 1), NewOrder(1, Buy, 100, 5, 0), NewOrder(2, Buy, 101, 7, 1);
    var e := Run(FRESH_ENGINE, [a], caps);
    LossExample();
    OneBuy(e.bids[0]);
    assert e.asks == [] by { FirstBuy(a, caps); }
    assert [Ack(2, Accepted)][1..] == [];
    ResidualExact(EntryFor(b));
  }

  lemma OneBuy(o: Order)
    ensures MapOf([o]) == map[o.id := View(o)]
  {
    assert [o][1..] == [] && MapOf([]) == map[];
  }

  lemma FirstBuy(a: Message, caps: Caps)
    requires caps.orders > 0 && a == NewOrder(1, Buy, 100, 5, 0)
    ensures Run(FRESH_ENGINE, [a], caps).asks == []
  {
    assert [a][1..] == [];
    var e := Dispatch(FRESH_ENGINE, a, caps).engine;
    assert Run(e, [], caps) == e;
  }

  // ---- The entry was dropped ------------------------------------------------------------

  /** Without an in-flight entry only the trades of a batch have an effect. */
  lemma {:induction false} UnheardBatch(app: App, id: u64, events: seq<Message>)
    requires BatchFor(events, id) && id !in app.inflight
    ensures HandleAll(app, events) == app.(orders := ReduceAll(app.orders, events))
    decreases |events|
  {
    if |events| == 1 {
      assert events[1..] == [];
    } else {
      UnheardBatch(HandleEvent(app, events[0]), id, events[1..]);
    }
  }

  lemma {:induction false} ReduceAllShrinks(m: P.Orders, trades: seq<Message>, id: u64)
    requires id !in m
    ensures id !in ReduceAll(m, trades)
    decreases |trades|
  {
    if trades != [] && trades[0].Trade? {
      ReduceAllShrinks(P.Reduce(m, trades[0].restingId, trades[0].quantity), trades[1..], id);
    }
  }

  lemma {:induction false} ReduceAllTrades(m: P.Orders, trades: seq<Message>, last: Message)
    requires !last.Trade? && forall i :: 0 <= i < |trades| ==> trades[i].Trade?
    ensures ReduceAll(m, trades + [last]) == ReduceAll(m, trades)
    decreases |trades|
  {
    if trades != [] {
      assert (trades + [last])[1..] == trades[1..] + [last];
      ReduceAllTrades(P.Reduce(m, trades[0].restingId, trades[0].quantity), trades[1..], last);
    }
  }

  lemma NotShown(e: Engine, phantoms: P.Orders, id: u64)
    requires !IsResting(e, id) && id !in phantoms
    ensures id !in Shown(e, phantoms)
  {
    RestingIsHeld(e, id);
    MapKeys(e.bids, id);
    MapKeys(e.asks, id);
  }

  lemma IsShown(e: Engine, phantoms: P.Orders, id: u64)
    requires IsResting(e, id)
    ensures id in Shown(e, phantoms)
  {
    RestingIsHeld(e, id);
    MapKeys(e.bids, id);
    MapKeys(e.asks, id);
  }

  /** Handling an accepted order's events unheard misses exactly what comes to rest of it. */
  lemma UnheardOrder(e: Engine, o: Message, phantoms: P.Orders, caps: Caps)
    requires EngineOk(e, caps) && caps.orders > 0 && UniqueIds(e) && Separate(e, phantoms) && CleanStep(e, phantoms, o)
    requires o.NewOrder? && Validate(o).Accept?
    ensures var step := ProcessNew(e, o, caps);
      ReduceAll(Shown(e, phantoms), step.events) == Shown(step.engine, phantoms) <==> !Rests(e, o, caps)
  {
    hide Shown;
    hide Match;
    hide EngineOk;
    hide UniqueIds;
    hide IsResting;
    hide Separate;
    hide ReduceAll;
    var m, step := MatchFor(e, o), ProcessNew(e, o, caps);
    NewBookMap(e, o, phantoms, caps);
    ResidualIsLeft(e, o);
    ReduceAllTrades(Shown(e, phantoms), m.trades, Ack(o.orderId, Accepted));
    NotShown(e, phantoms, o.orderId);
    ReduceAllShrinks(Shown(e, phantoms), m.trades, o.orderId);
    if Lost(e, o, caps) > 0 {
      LostExactly(e, o, caps);
      NothingToReduce(Shown(e, phantoms), o.orderId);
    } else {
      assert phantoms + map[] == phantoms;
    }
  }

  lemma NothingToReduce(m: P.Orders, id: u64)
    ensures ReduceAll(m, [Ack(id, Accepted)]) == m
  {
  }

  /** The command changes what rests under its own id. */
  predicate ChangesOwn(e: Engine, msg: Message, caps: Caps) {
    || (msg.NewOrder? && Validate(msg).Accept? && Rests(e, msg, caps))
    || (msg.CancelOrder? && IsResting(e, msg.orderId))
  }

  /**
   * When the in-flight entry of a command was dropped before its events arrive, projection and engine still agree
   * afterwards iff the command put nothing to rest and removed nothing by cancellation.
   */
  lemma UnheardExactly(app: App, e: Engine, msg: Message, phantoms: P.Orders, caps: Caps)
    requires EngineOk(e, caps) && caps.orders > 0 && UniqueIds(e) && Separate(e, phantoms)
    requires CleanStep(e, phantoms, msg)
    requires app.orders == Shown(e, phantoms) && msg.orderId !in app.inflight
    ensures var step := Dispatch(e, msg, caps);
      && HandleAll(app, step.events) == app.(orders := ReduceAll(app.orders, step.events))
      && (HandleAll(app, step.events).orders == Shown(step.engine, phantoms) <==> !ChangesOwn(e, msg, caps))
  {
    hide Shown;
    hide Rests;
    hide EngineOk;
    hide UniqueIds;
    hide IsResting;
    hide Separate;
    hide ProcessNew;
    hide Phantom;
    hide Effect;
    var step := Dispatch(e, msg, caps);
    CommandEffect(e, msg, phantoms, caps);
    UnheardBatch(app, msg.orderId, step.events);
    if msg.NewOrder? && Validate(msg).Accept? {
      UnheardOrder(e, msg, phantoms, caps);
    } else if msg.CancelOrder? && IsResting(e, msg.orderId) {
      CancelBookMap(e, msg.orderId, phantoms, caps);
      IsShown(e, phantoms, msg.orderId);
    } else {
      StepErases(e, msg, caps);
    }
  }

  /** A timeout on a first order: it rests in the engine and the projection stays empty. */
  lemma TimeoutDiverges()
    ensures var caps, a := Caps(1, 1), NewOrder(1, Buy, 100, 5, 0);
      var step, app := Dispatch(FRESH_ENGINE, a, caps), App(map[], map[], [], [], false);
      && HandleAll(app, step.events) == app
      && BookMap(step.engine) == map[1 := P.Resting(Buy, 100, 5)]
  {
    var caps, a := Caps(1, 1), NewOrder(1, Buy, 100, 5, 0);
    var step := Dispatch(FRESH_ENGINE, a, caps);
    assert Prices([]) == {};
    assert step.engine.bids == [Order(1, Buy, 100, 0, 5)] && step.engine.asks == [];
    OneBuy(step.engine.bids[0]);
    assert step.events == [Ack(1, Accepted)] && [Ack(1, Accepted)][1..] == [];
  }

  // ---- The entry belongs to a later request ---------------------------------------------

  /** An entry after the fills of a run of trades have been added to it. */
  function Credited(entry: InFlight, trades: seq<Message>): InFlight
    decreases |trades|
  {
    if trades == [] || !trades[0].Trade? then entry
    else Credited(entry.(fills := entry.fills + [FillOf(trades[0])]), trades[1..])
  }

  lemma {:induction false} CreditedFills(entry: InFlight, trades: seq<Message>)
    requires forall i :: 0 <= i < |trades| ==> trades[i].Trade?
    ensures Credited(entry, trades) == entry.(fills := entry.fills + FillsOf(trades))
    decreases |trades|
  {
    if trades == [] {
      assert entry.fills + FillsOf(trades) == entry.fills;
    } else {
      var entry' := entry.(fills := entry.fills + [FillOf(trades[0])]);
      CreditedFills(entry', trades[1..]);
      assert entry'.fills + FillsOf(trades[1..]) == entry.fills + FillsOf(trades);
    }
  }

  /** What the gateway believes comes to rest of an order whose events are credited to `entry`. */
  function Believed(entry: InFlight, trades: seq<Message>): P.Resting {
    P.Resting(entry.side, entry.price, Residual(Credited(entry, trades)))
  }

  /** What is credited to a cancel's entry leaves nothing to rest. */
  lemma CancelBelievesNothing(entry: InFlight, id: u64, trades: seq<Message>)
    requires entry.(fills := []) == EntryFor(CancelOrder(id))
    ensures Believed(entry, trades).remaining == 0
  {
    CreditedQuantity(entry, trades);
  }

  lemma {:induction false} CreditedQuantity(entry: InFlight, trades: seq<Message>)
    ensures Credited(entry, trades).quantity == entry.quantity
    decreases |trades|
  {
    if trades != [] && trades[0].Trade? {
      CreditedQuantity(entry.(fills := entry.fills + [FillOf(trades[0])]), trades[1..]);
    }
  }

  /**
   * Exactly when late events leave projection and engine in agreement, whoever holds the id by then: a cancel's, unless
   * nobody does and it removed an order; an order's, when what the holder's entry makes of it is what came to rest.
   */
  predicate StaysInStep(app: App, e: Engine, msg: Message, caps: Caps) {
    if msg.CancelOrder? then msg.orderId in app.inflight || !IsResting(e, msg.orderId)
    else if !msg.NewOrder? || Validate(msg).Refuse? then true
    else if msg.orderId !in app.inflight then !Rests(e, msg, caps)
    else
      var m := MatchFor(e, msg);
      var believed := Believed(app.inflight[msg.orderId], m.trades);
      if Rests(e, msg, caps) then believed == P.Resting(msg.side, msg.price, m.left) else believed.remaining == 0
  }

  lemma InsertTells(m: P.Orders, id: u64, r: P.Resting, r': P.Resting)
    requires id !in m && r'.remaining > 0
    ensures P.Insert(m, id, r) == m <==> r.remaining == 0
    ensures P.Insert(m, id, r) == m[id := r'] <==> r == r'
  {
    assert id in m[id := r] && m[id := r][id] == r && m[id := r'][id] == r';
  }

  /** Handling an accepted order's events with another request's entry. */
  lemma CreditedOrder(e: Engine, o: Message, entry: InFlight, phantoms: P.Orders, caps: Caps)
    requires EngineOk(e, caps) && caps.orders > 0 && UniqueIds(e) && Separate(e, phantoms) && CleanStep(e, phantoms, o)
    requires o.NewOrder? && Validate(o).Accept?
    ensures var step, believed := ProcessNew(e, o, caps), Believed(entry, MatchFor(e, o).trades);
      Effect(Shown(e, phantoms), entry, o.orderId, step.events) == Shown(step.engine, phantoms) <==>
      (if Rests(e, o, caps) then believed == P.Resting(o.side, o.price, MatchFor(e, o).left)
       else believed.remaining == 0)
  {
    hide Shown;
    hide Match;
    hide EngineOk;
    hide UniqueIds;
    hide IsResting;
    hide Separate;
    hide ReduceAll;
    hide Residual;
    hide Effect;
    hide Credited;
    var m, step, shown := MatchFor(e, o), ProcessNew(e, o, caps), Shown(e, phantoms);
    var reduced, believed := ReduceAll(shown, m.trades), Believed(entry, m.trades);
    NewBookMap(e, o, phantoms, caps);
    ResidualIsLeft(e, o);
    CreditedFills(entry, m.trades);
    EffectOfTrades(shown, entry, o.orderId, m.trades);
    NotShown(e, phantoms, o.orderId);
    ReduceAllShrinks(shown, m.trades, o.orderId);
    InsertTells(reduced, o.orderId, believed, P.Resting(o.side, o.price, if m.left > 0 then m.left else 1));
    if Lost(e, o, caps) > 0 {
      LostExactly(e, o, caps);
      NoTradesReduce(shown);
    } else {
      assert phantoms + map[] == phantoms;
    }
  }

  lemma NoTradesReduce(m: P.Orders)
    ensures ReduceAll(m, []) == m
  {
  }

  /**
   * The exact condition for every late command and every state of the in-flight table: its events leave projection and
   * engine in agreement iff StaysInStep.
   */
  lemma LateExactly(app: App, e: Engine, msg: Message, phantoms: P.Orders, caps: Caps)
    requires EngineOk(e, caps) && caps.orders > 0 && UniqueIds(e) && Separate(e, phantoms)
    requires CleanStep(e, phantoms, msg) && app.orders == Shown(e, phantoms)
    ensures var step := Dispatch(e, msg, caps);
      HandleAll(app, step.events).orders == Shown(step.engine, phantoms) <==> StaysInStep(app, e, msg, caps)
  {
    hide Shown;
    hide Rests;
    hide EngineOk;
    hide UniqueIds;
    hide IsResting;
    hide Separate;
    hide ProcessNew;
    hide Phantom;
    hide HandleAll;
    hide Residual;
    hide Match;
    var step, id := Dispatch(e, msg, caps), msg.orderId;
    if id !in app.inflight {
      UnheardExactly(app, e, msg, phantoms, caps);
    } else {
      hide Effect;
      CommandEffect(e, msg, phantoms, caps);
      BatchHandled(app, id, step.events);
      if msg.NewOrder? && Validate(msg).Accept? {
        CreditedOrder(e, msg, app.inflight[id], phantoms, caps);
      } else {
        TerminatorOnly(e, msg, app.orders, app.inflight[id], phantoms, caps);
      }
    }
  }

  /** A rejected order and any cancel have the effect they should, whoever's entry they are credited to. */
  lemma TerminatorOnly(e: Engine, msg: Message, m: P.Orders, entry: InFlight, phantoms: P.Orders, caps: Caps)
    requires caps.orders > 0 && UniqueIds(e) && Separate(e, phantoms) && CleanStep(e, phantoms, msg)
    requires m == Shown(e, phantoms) && !(msg.NewOrder? && Validate(msg).Accept?)
    ensures var step := Dispatch(e, msg, caps);
      Effect(m, entry, msg.orderId, step.events) == Shown(step.engine, phantoms)
  {
    hide Shown;
    hide UniqueIds;
    hide Separate;
    if msg.CancelOrder? && IsResting(e, msg.orderId) {
      CancelBookMap(e, msg.orderId, phantoms, caps);
    }
  }

  /**
   * A timed-out order whose id a cancel holds by the time its events arrive: the cancel's request is answered with the
   * order's acknowledgement, the journal receives an order of price and quantity zero, which a replay skips, and
   * projection and engine agree afterwards iff nothing of the order came to rest.
   */
  lemma LateAckMisfiled(app: App, e: Engine, o: Message, phantoms: P.Orders, n: u64, caps: Caps)
    requires EngineOk(e, caps) && caps.orders > 0 && UniqueIds(e) && Separate(e, phantoms)
    requires CleanStep(e, phantoms, o) && o.NewOrder? && Validate(o).Accept? && app.orders == Shown(e, phantoms)
    requires o.orderId in app.inflight && app.inflight[o.orderId].(fills := []) == EntryFor(CancelOrder(o.orderId))
    ensures var id, step, trades := o.orderId, Dispatch(e, o, caps), MatchFor(e, o).trades;
      var app' := HandleAll(app, step.events);
      && (app'.orders == Shown(step.engine, phantoms) <==> !Rests(e, o, caps))
      && app'.inflight == app.inflight - {id} && app'.journal == Journaled(app, New(id, Buy, 0, 0))
      && BadField(MessageOf(New(id, Buy, 0, 0), n)).Some?
      && (forall i :: 0 <= i < |trades| ==> trades[i].Trade?)
      && app'.replies == app.replies + [Reply(id, Ack(id, Accepted), app.inflight[id].fills + FillsOf(trades))]
  {
    hide Shown;
    hide Rests;
    hide EngineOk;
    hide UniqueIds;
    hide IsResting;
    hide Separate;
    hide Phantom;
    hide HandleAll;
    hide Residual;
    hide Effect;
    hide Match;
    var id, step, trades := o.orderId, Dispatch(e, o, caps), MatchFor(e, o).trades;
    LateExactly(app, e, o, phantoms, caps);
    CancelBelievesNothing(app.inflight[id], id, trades);
    LeftIfRests(e, o, caps);
    CommandEffect(e, o, phantoms, caps);
    BatchHandled(app, id, step.events);
    ResidualIsLeft(e, o);
    assert step.events[..|step.events| - 1] == trades;
  }

  lemma LeftIfRests(e: Engine, o: Message, caps: Caps)
    requires o.NewOrder?
    ensures Rests(e, o, caps) ==> MatchFor(e, o).left > 0
  {
  }

  lemma RejectTakesEntry(app: App, id: u64, reason: RejectReason)
    requires id in app.inflight
    ensures HandleEvent(app, Reject(id, reason))
         == app.(inflight := app.inflight - {id},
                 replies := app.replies + [Reply(id, Reject(id, reason), app.inflight[id].fills)])
  {
  }

  /**
   * The mirror case: a late rejection whose id a new order holds by then answers the order's request. The order's own
   * events then arrive unheard: it gets no other answer, is not journaled, and projection and engine agree after it iff
   * nothing of it came to rest.
   */
  lemma LateRejectMisfiled(app: App, e: Engine, o: Message, reason: RejectReason, phantoms: P.Orders, caps: Caps)
    requires EngineOk(e, caps) && caps.orders > 0 && UniqueIds(e) && Separate(e, phantoms)
    requires CleanStep(e, phantoms, o) && o.NewOrder? && Validate(o).Accept? && app.orders == Shown(e, phantoms)
    requires o.orderId in app.inflight
    ensures var id, step := o.orderId, Dispatch(e, o, caps);
      var app' := HandleAll(HandleEvent(app, Reject(id, reason)), step.events);
      && (app'.orders == Shown(step.engine, phantoms) <==> !Rests(e, o, caps))
      && app'.inflight == app.inflight - {id} && app'.journal == app.journal
      && app'.replies == app.replies + [Reply(id, Reject(id, reason), app.inflight[id].fills)]
  {
    hide Shown;
    hide Rests;
    hide EngineOk;
    hide UniqueIds;
    hide IsResting;
    hide Separate;
    hide Phantom;
    hide HandleAll;
    hide HandleEvent;
    hide Dispatch;
    RejectTakesEntry(app, o.orderId, reason);
    UnheardExactly(HandleEvent(app, Reject(o.orderId, reason)), e, o, phantoms, caps);
  }

  // ---- Runs that lead there -----------------------------------------------------------------

  function Submission(msg: Message): Action {
    if msg.NewOrder? then SubmitNew(msg) else SubmitCancel(IdOf(msg))
  }

  /** One request timed out on the wire, and another one that took over its id is about to be sent. */
  function TakeOver(first: Message, second: Message): System
    requires second.NewOrder? || second.CancelOrder?
  {
    var id := IdOf(first);
    var app := App(map[id := EntryFor(second)], map[], [], [], false);
    System(FRESH_ENGINE, app, [second], [first], [], {id}, [], map[], {id})
  }

  lemma TakenOver(first: Message, second: Message, caps: Caps) returns (s1: System, s2: System, s3: System)
    requires caps.orders > 0 && IsCommand(first) && IsCommand(second) && first.orderId == second.orderId
    requires first.NewOrder? != second.NewOrder?
    ensures Enabled(START, Submission(first), caps) && s1 == Next(START, Submission(first), caps)
    ensures Enabled(s1, Send(0), caps) && s2 == Next(s1, Send(0), caps)
    ensures Enabled(s2, Timeout(first.orderId), caps) && s3 == Next(s2, Timeout(first.orderId), caps)
    ensures Enabled(s3, Submission(second), caps) && TakeOver(first, second) == Next(s3, Submission(second), caps)
  {
    var id := first.orderId;
    s1 := Next(START, Submission(first), caps);
    s2 := Next(s1, Send(0), caps);
    assert s2.outbox == [] && s2.wire == [first] && s2.app.inflight == map[id := EntryFor(first)];
    s3 := Next(s2, Timeout(id), caps);
    assert s3.app.inflight == map[] && s3.unheard == {id};
  }

  /** The engine processes the only command on the wire. */
  lemma Answered(s: System, event: Message, caps: Caps) returns (s': System)
    requires caps.orders > 0 && |s.wire| == 1 && s.batches == []
    requires Dispatch(s.engine, s.wire[0], caps).events == [event]
    ensures Enabled(s, Process, caps) && s' == Next(s, Process, caps) == Processed(s, caps)
    ensures Enabled(s', Deliver, caps) && Next(s', Deliver, caps) == Delivered(s')
    ensures |s'.batches| == 1 && s'.batches[0].events == [event]
  {
    hide Dispatch;
    hide Phantom;
    s' := Processed(s, caps);
  }

  /** Delivering the only event of the only batch. */
  lemma LastOfOne(s: System, event: Message)
    requires |s.batches| == 1 && s.batches[0].events == [event]
    ensures Delivered(s) == s.(app := HandleEvent(s.app, event), batches := [])
  {
  }

  /** A request times out, another takes over its id, and only then does the first one's answer arrive. */
  function TakeOverRun(first: Message, second: Message): seq<Action> {
    [Submission(first), Send(0), Timeout(IdOf(first)), Submission(second), Process, Deliver]
  }

  lemma TakeOverReached(first: Message, second: Message, event: Message, caps: Caps)
    requires caps.orders > 0 && IsCommand(first) && IsCommand(second) && first.orderId == second.orderId
    requires first.NewOrder? != second.NewOrder? && Dispatch(FRESH_ENGINE, first, caps).events == [event]
    ensures IsRun(START, TakeOverRun(first, second), caps)
    ensures var s, app := Reached(START, TakeOverRun(first, second), caps), TakeOver(first, second).app;
      s.engine == Dispatch(FRESH_ENGINE, first, caps).engine && s.app == HandleEvent(app, event) && s.outbox == [second]
  {
    hide Dispatch;
    hide Phantom;
    hide IsRun;
    hide Reached;
    hide HandleEvent;
    hide Enabled;
    hide Next;
    var s4 := TakeOver(first, second);
    var s1, s2, s3 := TakenOver(first, second, caps);
    var s5 := Answered(s4, event, caps);
    LastOfOne(s5, event);
    Six(START, TakeOverRun(first, second), s1, s2, s3, s4, s5, Delivered(s5), caps);
  }

  /** An order's late acknowledgement answers a cancel; the order rests, unseen by projection and journal. */
  lemma MisfiledAckReached()
    ensures var caps, actions := Caps(1, 1), TakeOverRun(NewOrder(1, Buy, 100, 5, 0), CancelOrder(1));
      && IsRun(START, actions, caps)
      && var s := Reached(START, actions, caps);
        && s.engine.bids == [Order(1, Buy, 100, 0, 5)] && s.outbox == [CancelOrder(1)]
        && s.app == App(map[], map[], [New(1, Buy, 0, 0)], [Reply(1, Ack(1, Accepted), [])], false)
  {
    hide Dispatch;
    hide IsRun;
    hide Reached;
    hide HandleEvent;
    var caps, o := Caps(1, 1), NewOrder(1, Buy, 100, 5, 0);
    OneBuyRests(o, caps);
    TakeOverReached(o, CancelOrder(1), Ack(1, Accepted), caps);
    AckToCancel(TakeOver(o, CancelOrder(1)).app, 1);
  }

  /** The late rejection of a cancel answers an order that has not even been sent. */
  lemma MisfiledRejectReached()
    ensures var caps, o := Caps(1, 1), NewOrder(1, Buy, 100, 5, 0);
      var actions := TakeOverRun(CancelOrder(1), o);
      && IsRun(START, actions, caps)
      && var s := Reached(START, actions, caps);
        s.outbox == [o] && s.app == App(map[], map[], [], [Reply(1, Reject(1, OrderNotFound), [])], false)
  {
    hide Dispatch;
    hide IsRun;
    hide Reached;
    hide HandleEvent;
    var caps, o := Caps(1, 1), NewOrder(1, Buy, 100, 5, 0);
    UnknownCancel(caps);
    TakeOverReached(CancelOrder(1), o, Reject(1, OrderNotFound), caps);
    RejectTakesEntry(TakeOver(CancelOrder(1), o).app, 1, OrderNotFound);
  }

  lemma UnknownCancel(caps: Caps)
    requires caps.orders > 0
    ensures Dispatch(FRESH_ENGINE, CancelOrder(1), caps) == Step(FRESH_ENGINE, [Reject(1, OrderNotFound)])
  {
  }

  /** An order's acknowledgement credited to a cancel that has seen no fills. */
  lemma AckToCancel(app: App, id: u64)
    requires id in app.inflight && app.inflight[id] == EntryFor(CancelOrder(id)) && !app.restoring
    ensures HandleEvent(app, Ack(id, Accepted))
         == app.(inflight := app.inflight - {id}, journal := app.journal + [New(id, Buy, 0, 0)],
                 replies := app.replies + [Reply(id, Ack(id, Accepted), [])])
  {
    ResidualExact(EntryFor(CancelOrder(id)));
  }

  lemma OneBuyRests(o: Message, caps: Caps)
    requires caps == Caps(1, 1) && o == NewOrder(1, Buy, 100, 5, 0)
    ensures var step := Dispatch(FRESH_ENGINE, o, caps);
      step.events == [Ack(1, Accepted)] && step.engine.bids == [Order(1, Buy, 100, 0, 5)] && step.engine.asks == []
  {
    assert Prices([]) == {};
  }

  /** A run of six steps, one by one. */
  lemma Six(
    s: System, actions: seq<Action>, s1: System, s2: System, s3: System, s4: System, s5: System, s6: System, caps: Caps)
    requires caps.orders > 0 && |actions| == 6
    requires Enabled(s, actions[0], caps) && s1 == Next(s, actions[0], caps)
    requires Enabled(s1, actions[1], caps) && s2 == Next(s1, actions[1], caps)
    requires Enabled(s2, actions[2], caps) && s3 == Next(s2, actions[2], caps)
    requires Enabled(s3, actions[3], caps) && s4 == Next(s3, actions[3], caps)
    requires Enabled(s4, actions[4], caps) && s5 == Next(s4, actions[4], caps)
    requires Enabled(s5, actions[5], caps) && s6 == Next(s5, actions[5], caps)
    ensures IsRun(s, actions, caps) && Reached(s, actions, caps) == s6
  {
    hide Enabled;
    hide Next;
    var a1, a2, a3, a4, a5 := actions[1..], actions[2..], actions[3..], actions[4..], actions[5..];
    assert a1[1..] == a2 && a2[1..] == a3 && a3[1..] == a4 && a4[1..] == a5 && a5[1..] == [];
    assert IsRun(s6, [], caps) && Reached(s6, [], caps) == s6;
    assert IsRun(s5, a5, caps) && Reached(s5, a5, caps) == s6;
    assert IsRun(s4, a4, caps) && Reached(s4, a4, caps) == s6;
    assert IsRun(s3, a3, caps) && Reached(s3, a3, caps) == s6;
    assert IsRun(s2, a2, caps) && Reached(s2, a2, caps) == s6;
    assert IsRun(s1, a1, caps) && Reached(s1, a1, caps) == s6;
  }
}
