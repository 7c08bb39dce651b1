/** Rebuilding gateway and engine from the journal when a fresh engine is connected. */
module Restart {
  import opened Wire
  import opened Codec
  import opened BookModel
  import opened Engine
  import opened EngineRuns
  import opened Replay
  import opened AppState
  import opened ReplicaStep
  import opened Replica
  import opened GatewayIds

  /** The gateway's state, the engine it is talking to, and what it has sent so far. */
  datatype Session = Session(app: App, engine: Engine, inUse: set<u64>, nextSeq: u64, sent: seq<Message>)

  /** The command a record stands for, stamped anew. */
  function MessageOf(r: Record, arrival: u64): Message {
    match r
    case New(id, side, price, quantity) => NewOrder(id, side, price, quantity, arrival)
    case Cancel(id) => CancelOrder(id)
  }

  /** Register a request, let the engine process it and handle every event up to its terminator. */
  function Exchange(s: Session, msg: Message, caps: Caps): Session
    requires caps.orders > 0 && (msg.NewOrder? || msg.CancelOrder?)
  {
    var step := Dispatch(s.engine, msg, caps);
    s.(app := HandleAll(Register(s.app, msg.orderId, EntryFor(msg)), step.events),
       engine := step.engine, sent := s.sent + [msg])
  }

  /** Reserve the id and take an arrival number, for orders only. */
  function Prepared(s: Session, r: Record): Session {
    if r.New? then s.(inUse := s.inUse + {r.id}, nextSeq := Next64(s.nextSeq)) else s
  }

  /** A record whose id is in flight, or which cannot be encoded, is skipped. */
  predicate Skipped(s: Session, r: Record) {
    r.id in s.app.inflight || BadField(MessageOf(r, s.nextSeq)).Some?
  }

  function ReplayRecord(s: Session, r: Record, caps: Caps): Session
    requires caps.orders > 0
  {
    if Skipped(s, r) then Prepared(s, r) else Exchange(Prepared(s, r), MessageOf(r, s.nextSeq), caps)
  }

  function ReplayRecords(s: Session, records: seq<Record>, caps: Caps): Session
    requires caps.orders > 0
    decreases |records|
  {
    if records == [] then s else ReplayRecords(ReplayRecord(s, records[0], caps), records[1..], caps)
  }

  // ---- The replay loop on the gateway's own objects ---------------------------

  lemma {:induction false} ReplayAppend(s: Session, records: seq<Record>, r: Record, caps: Caps)
    requires caps.orders > 0
    ensures ReplayRecords(s, records + [r], caps) == ReplayRecord(ReplayRecords(s, records, caps), r, caps)
    decreases |records|
  {
    hide ReplayRecord;
    if records == [] {
      assert (records + [r])[1..] == [];
    } else {
      assert (records + [r])[1..] == records[1..] + [r];
      ReplayAppend(ReplayRecord(s, records[0], caps), records[1..], r, caps);
    }
  }

  /** Handle a batch of events in order, as the reader does. */
  method Receive(state: State, events: seq<Message>)
    requires state.Valid()
    modifies state, state.book
    ensures state.Valid() && state.Abs() == HandleAll(old(state.Abs()), events)
  {
    hide State.Valid;
    hide HandleEvent;
    for i := 0 to |events|
      invariant state.Valid() && HandleAll(state.Abs(), events[i..]) == HandleAll(old(state.Abs()), events)
    {
      assert events[i..][0] == events[i] && events[i..][1..] == events[i + 1..];
      state.HandleEngineEvent(events[i]);
    }
  }

  /** Reserve, stamp and register one record; None when it is to be skipped. */
  method PrepareReplay(state: State, gateway: Gateway, record: Record, ghost s: Session) returns (msg: Option<Message>)
    requires state.Valid() && s.app == state.Abs() && s.inUse == gateway.inUse && s.nextSeq == gateway.nextSeq
    modifies state, gateway
    ensures state.Valid() && gateway.inUse == Prepared(s, record).inUse
    ensures gateway.nextSeq == Prepared(s, record).nextSeq
    ensures msg == if Skipped(s, record) then None else Some(MessageOf(record, s.nextSeq))
    ensures Skipped(s, record) ==> state.Abs() == s.app
    ensures !Skipped(s, record) ==> state.Abs() == Register(s.app, record.id, EntryFor(MessageOf(record, s.nextSeq)))
  {
    var message;
    match record {
      case New(id, side, price, quantity) =>
        var _ := gateway.Reserve(id);
        message := gateway.NewOrderMessage(id, side, price, quantity);
        var ok := state.RegisterInflight(id, side, price, quantity, false);
        if !ok {
          return None;
        }
      case Cancel(id) =>
        message := CancelOrder(id);
        var ok := state.RegisterInflight(id, Buy, 0, 0, true);
        if !ok {
          return None;
        }
    }
    if BadField(message).Some? {
      state.DropInflight(record.id);
      assert state.Abs().inflight == s.app.inflight;
      return None;
    }
    msg := Some(message);
  }

  /**
   * Replay the records against an engine that answers each one before the next is sent. The connection takes
   * `writable` frames; the write after them fails, which ends the replay with that record's entry dropped again.
   */
  method ReplayJournal(state: State, gateway: Gateway, records: seq<Record>, writable: nat, e: Engine, caps: Caps)
    returns (ok: bool, engine: Engine, sent: seq<Message>, ghost k: nat)
    requires state.Valid() && caps.orders > 0
    modifies state, state.book, gateway
    ensures state.Valid() && k <= |records| && (ok <==> k == |records|) && (!ok ==> |sent| == writable)
    ensures var s := Session(old(state.Abs()).(restoring := true), e, old(gateway.inUse), old(gateway.nextSeq), []);
      var s' := ReplayRecords(s, records[..k], caps);
      var last := if ok then s' else Prepared(s', records[k]);
      && state.Abs() == s'.app.(restoring := false) && engine == s'.engine && sent == s'.sent
      && gateway.inUse == last.inUse && gateway.nextSeq == last.nextSeq
  {
    hide State.Valid;
    hide ReplayRecords;
    hide HandleAll;
    hide Dispatch;
    hide EntryFor;
    hide Register;
    hide BadField;
    ghost var s0 := Session(state.Abs().(restoring := true), e, gateway.inUse, gateway.nextSeq, []);
    state.BeginRestore();
    ok, engine, sent, k := true, e, [], 0;
    ReplayNone(s0, caps);
    for i := 0 to |records|
      invariant state.Valid() && k == i && ok
      invariant ReplayRecords(s0, records[..i], caps)
             == Session(state.Abs(), engine, gateway.inUse, gateway.nextSeq, sent)
    {
      ghost var s := Session(state.Abs(), engine, gateway.inUse, gateway.nextSeq, sent);
      ReplayAppend(s0, records[..i], records[i], caps);
      assert records[..i + 1] == records[..i] + [records[i]];
      var msg := PrepareReplay(state, gateway, records[i], s);
      if msg.None? {
        k := i + 1;
        continue;
      }
      if |sent| == writable {
        RegisterUndone(s.app, records[i].id, EntryFor(msg.value));
        state.DropInflight(records[i].id);
        ok := false;
        break;
      }
      var step := Dispatch(engine, msg.value, caps);
      engine, sent := step.engine, sent + [msg.value];
      Receive(state, step.events);
      k := i + 1;
    }
    assert k == |records| ==> records[..k] == records;
    state.EndRestore();
  }

  lemma RegisterUndone(app: App, id: u64, entry: InFlight)
    requires id !in app.inflight
    ensures Register(app, id, entry).(inflight := Register(app, id, entry).inflight - {id}) == app
  {
    assert app.inflight[id := entry] - {id} == app.inflight;
  }

  lemma ReplayNone(s: Session, caps: Caps)
    requires caps.orders > 0
    ensures ReplayRecords(s, [], caps) == s
  {
  }

  // ---- Handling one whole batch -------------------------------------------------

  /** The record a terminator adds to the journal, given the in-flight entry it is credited to. */
  function JournalWith(app: App, entry: InFlight, id: u64, terminator: Message): seq<Record> {
    if !terminator.Ack? then app.journal
    else
      var order := New(id, entry.side, entry.price, entry.quantity);
      Journaled(app, if terminator.kind.Accepted? then order else Cancel(id))
  }

  lemma TerminatorCredited(app: App, id: u64, events: seq<Message>)
    requires BatchFor(events, id) && id in app.inflight && |events| == 1
    ensures var entry := app.inflight[id];
      HandleAll(app, events)
      == app.(inflight := app.inflight - {id}, orders := Effect(app.orders, entry, id, events),
              journal := JournalWith(app, entry, id, events[0]),
              replies := app.replies + [Reply(id, events[0], entry.fills)])
  {
    hide Residual;
    assert events[1..] == [];
    assert HandleAll(app, events) == HandleEvent(app, events[0]);
  }

  lemma TradeCredited(app: App, id: u64, trade: Message)
    requires trade.Trade? && trade.incomingId == id && id in app.inflight
    ensures var entry := app.inflight[id];
      HandleEvent(app, trade)
      == app.(inflight := app.inflight[id := entry.(fills := entry.fills + [FillOf(trade)])],
              orders := P.Reduce(app.orders, trade.restingId, trade.quantity))
  {
  }

  lemma JournalKept(app: App, app': App, entry: InFlight, entry': InFlight, id: u64, terminator: Message)
    requires app'.journal == app.journal && app'.restoring == app.restoring && entry'.(fills := entry.fills) == entry
    ensures JournalWith(app', entry', id, terminator) == JournalWith(app, entry, id, terminator)
  {
  }

  /** A batch has its effect on the projection and answers whatever request holds its id. */
  lemma {:induction false} BatchHandled(app: App, id: u64, events: seq<Message>)
    requires BatchFor(events, id) && id in app.inflight
    ensures AllTrades(events[..|events| - 1])
    ensures var n, entry := |events| - 1, app.inflight[id];
      var reply := Reply(id, events[n], entry.fills + FillsOf(events[..n]));
      HandleAll(app, events)
      == app.(inflight := app.inflight - {id}, orders := Effect(app.orders, entry, id, events),
              journal := JournalWith(app, entry, id, events[n]), replies := app.replies + [reply])
    decreases |events|
  {
    hide Residual;
    hide P.Reduce;
    hide HandleEvent;
    hide JournalWith;
    var n, entry := |events| - 1, app.inflight[id];
    if n == 0 {
      TerminatorCredited(app, id, events);
      assert entry.fills + FillsOf(events[..n]) == entry.fills;
    } else {
      var app', entry' := HandleEvent(app, events[0]), entry.(fills := entry.fills + [FillOf(events[0])]);
      TradeCredited(app, id, events[0]);
      JournalKept(app, app', entry, entry', id, events[n]);
      BatchHandled(app', id, events[1..]);
      assert app'.inflight - {id} == app.inflight - {id};
      assert events[1..][..n - 1] == events[1..n] == events[..n][1..];
      assert FillsOf(events[..n]) == [FillOf(events[0])] + FillsOf(events[1..n]);
      assert entry'.fills + FillsOf(events[1..n]) == entry.fills + FillsOf(events[..n]);
    }
  }

  // ---- What a history is ----------------------------------------------------------

  /** The answer to one command: its terminator with its trades. */
  ghost function ReplyTo(e: Engine, msg: Message, caps: Caps): Reply
    requires caps.orders > 0
  {
    var events := Dispatch(e, msg, caps).events;
    if events != [] && AllTrades(events[..|events| - 1]) then
      Reply(IdOf(msg), events[|events| - 1], FillsOf(events[..|events| - 1]))
    else Reply(IdOf(msg), CancelOrder(IdOf(msg)), [])
  }

  /** The answers to all commands of a run. */
  ghost function Replies(e: Engine, msgs: seq<Message>, caps: Caps): seq<Reply>
    requires caps.orders > 0
    decreases |msgs|
  {
    if msgs == [] then [] else [ReplyTo(e, msgs[0], caps)] + Replies(Dispatch(e, msgs[0], caps).engine, msgs[1..], caps)
  }

  /** The answers that are acknowledgements. */
  function Acked(replies: seq<Reply>): seq<Reply> {
    if replies == [] then [] else (if replies[0].terminator.Ack? then [replies[0]] else []) + Acked(replies[1..])
  }

  lemma {:induction false} HistoryAppend(e: Engine, ph: P.Orders, msgs: seq<Message>, msg: Message, caps: Caps)
    requires caps.orders > 0
    ensures var last := Run(e, msgs, caps);
      && Replies(e, msgs + [msg], caps) == Replies(e, msgs, caps) + [ReplyTo(last, msg, caps)]
      && (InLineRun(e, msgs + [msg], caps) <==> InLineRun(e, msgs, caps) && InLine(last, msg, caps))
      && (CleanRun(e, ph, msgs + [msg], caps) <==>
          CleanRun(e, ph, msgs, caps) && CleanStep(last, ph + Phantoms(e, msgs, caps), msg))
    decreases |msgs|
  {
    hide Dispatch;
    hide InLine;
    hide ReplyTo;
    hide CleanStep;
    hide Phantom;
    var all := msgs + [msg];
    if msgs == [] {
      assert all[1..] == [] && ph + map[] == ph;
    } else {
      assert all[1..] == msgs[1..] + [msg] && all[0] == msgs[0];
      var e', phantom := Dispatch(e, msgs[0], caps).engine, Phantom(e, msgs[0], caps);
      HistoryAppend(e', ph + phantom, msgs[1..], msg, caps);
      MapRegroup(ph, phantom, Phantoms(e', msgs[1..], caps));
    }
  }

  /**
   * The processed commands form a clean run from a fresh engine, and, if nothing timed out, every answer so far is the
   * run's.
   */
  ghost predicate HistoryInv(s: System, caps: Caps) {
    && caps.orders > 0 && CleanRun(FRESH_ENGINE, map[], s.history, caps)
    && s.engine == Run(FRESH_ENGINE, s.history, caps) && s.phantoms == Phantoms(FRESH_ENGINE, s.history, caps)
    && 0 <= Done(s) <= |s.history|
    && (s.unheard == {} ==> s.app.replies == Replies(FRESH_ENGINE, s.history[..Done(s)], caps))
  }

  lemma WireIsClean(s: System, caps: Caps)
    requires Inv(s, caps) && s.wire != []
    ensures CleanStep(s.engine, s.phantoms, s.wire[0])
  {
    assert Waiting(s, s.wire[0]);
  }

  lemma ProcessKeepsHistory(s: System, caps: Caps)
    requires Inv(s, caps) && HistoryInv(s, caps) && Enabled(s, Process, caps)
    ensures HistoryInv(Next(s, Process, caps), caps)
  {
    hide EngineSide;
    hide Links;
    hide Chain;
    hide Dispatch;
    hide CleanStep;
    hide CleanRun;
    hide Phantom;
    hide Run;
    hide Replies;
    hide Phantoms;
    hide Inv;
    var s', msg := Next(s, Process, caps), s.wire[0];
    WireIsClean(s, caps);
    assert map[] + s.phantoms == s.phantoms;
    HistoryAppend(FRESH_ENGINE, map[], s.history, msg, caps);
    RunAppend(FRESH_ENGINE, s.history, msg, caps);
    assert s'.history[..Done(s')] == s.history[..Done(s)];
  }

  /** With nothing timed out, a delivered terminator adds the answer to the next command of the history. */
  lemma TerminatorAnswers(s: System, caps: Caps)
    requires caps.orders > 0 && Inv(s, caps) && s.batches != [] && |s.batches[0].events| == 1 && s.unheard == {}
    ensures 0 <= Done(s) < |s.history|
    ensures var app := HandleEvent(s.app, s.batches[0].events[0]);
      app.replies == s.app.replies + [ReplyTo(Seen(s, caps), s.history[Done(s)], caps)]
  {
    hide Inv;
    hide HandleEvent;
    hide Dispatch;
    DoneInRange(s, caps);
    HeadAnswers(s, caps);
  }

  /** A delivered trade answers nothing. */
  lemma TradeAnswersNothing(s: System, caps: Caps)
    requires caps.orders > 0 && Inv(s, caps) && s.batches != [] && |s.batches[0].events| > 1
    ensures HandleEvent(s.app, s.batches[0].events[0]).replies == s.app.replies
  {
    hide EngineSide;
    hide RequestsOk;
    hide Links;
    hide HandleEvent;
    hide Shown;
    hide Heard;
    assert BatchOk(s.app.orders, s.unheard, s.app.inflight, s.batches[0], caps);
    TradeBatchOk(s.app, s.unheard, s.batches[0], caps);
  }

  lemma DeliverKeepsHistory(s: System, caps: Caps)
    requires caps.orders > 0 && Inv(s, caps) && HistoryInv(s, caps) && Enabled(s, Deliver, caps)
    ensures HistoryInv(Next(s, Deliver, caps), caps)
  {
    hide Inv;
    hide CleanRun;
    hide HandleEvent;
    hide Run;
    hide Phantoms;
    hide ReplyTo;
    hide Replies;
    var n := Done(s);
    DoneInRange(s, caps);
    if |s.batches[0].events| > 1 {
      TradeAnswersNothing(s, caps);
    } else if s.unheard == {} {
      TerminatorAnswers(s, caps);
      HistoryAppend(FRESH_ENGINE, map[], s.history[..n], s.history[n], caps);
      assert s.history[..n] + [s.history[n]] == s.history[..n + 1];
    }
  }

  lemma StepKeepsHistory(s: System, a: Action, caps: Caps)
    requires caps.orders > 0 && Inv(s, caps) && HistoryInv(s, caps) && Enabled(s, a, caps)
    ensures HistoryInv(Next(s, a, caps), caps)
  {
    hide Inv;
    hide CleanRun;
    hide Dispatch;
    hide HandleEvent;
    match a
    case Process => ProcessKeepsHistory(s, caps);
    case Deliver => DeliverKeepsHistory(s, caps);
    case _ =>
  }

  /** Both invariants hold in every state of every run. */
  lemma {:induction false} RunKeepsHistory(s: System, actions: seq<Action>, caps: Caps)
    requires caps.orders > 0 && Inv(s, caps) && HistoryInv(s, caps) && IsRun(s, actions, caps)
    ensures Inv(Reached(s, actions, caps), caps) && HistoryInv(Reached(s, actions, caps), caps)
    decreases |actions|
  {
    hide Inv;
    hide HistoryInv;
    hide Next;
    if actions != [] {
      StepKeepsInv(s, actions[0], caps);
      StepKeepsHistory(s, actions[0], caps);
      RunKeepsHistory(Next(s, actions[0], caps), actions[1..], caps);
    }
  }

  // ---- Agreement, exactly ---------------------------------------------------------------

  lemma {:induction false} CleanPrefix(e: Engine, ph: P.Orders, msgs: seq<Message>, caps: Caps, n: nat)
    requires caps.orders > 0 && CleanRun(e, ph, msgs, caps) && n <= |msgs|
    ensures CleanRun(e, ph, msgs[..n], caps)
    decreases |msgs|
  {
    hide Dispatch;
    hide CleanStep;
    hide Phantom;
    if n > 0 {
      assert msgs[..n][1..] == msgs[1..][..n - 1] && msgs[..n][0] == msgs[0];
      CleanPrefix(Dispatch(e, msgs[0], caps).engine, ph + Phantom(e, msgs[0], caps), msgs[1..], caps, n - 1);
    }
  }

  /**
   * At every terminator of every run the projection becomes, for every id that did not time out, the engine's book iff
   * every order lost so far timed out; there is none iff no quantity was lost.
   */
  lemma TerminatorAgreement(actions: seq<Action>, caps: Caps)
    requires caps.orders > 0 && IsRun(START, actions, caps)
    requires var s := Reached(START, actions, caps); s.batches != [] && |s.batches[0].events| == 1
    ensures var s := Reached(START, actions, caps);
      var n := Done(s) + 1;
      && 0 <= n <= |s.history|
      && var e, phantoms := Run(FRESH_ENGINE, s.history[..n], caps), Phantoms(FRESH_ENGINE, s.history[..n], caps);
        && (Next(s, Deliver, caps).app.orders - s.unheard == BookMap(e) - s.unheard <==> phantoms.Keys <= s.unheard)
        && (phantoms.Keys == {} <==> Account(FRESH_ENGINE, s.history[..n], caps).lost == 0)
  {
    hide Inv;
    hide HandleEvent;
    hide Shown;
    hide CleanRun;
    hide Answers;
    hide BookMap;
    hide Phantoms;
    hide Account;
    hide Run;
    hide IsRun;
    hide Reached;
    var s := Reached(START, actions, caps);
    StartHasBoth(caps);
    RunKeepsHistory(START, actions, caps);
    ProjectionAtTerminators(actions, caps);
    CleanPrefix(FRESH_ENGINE, map[], s.history, caps, Done(s) + 1);
    ShownExactly(s.history[..Done(s) + 1], s.unheard, caps);
  }

  /** The same whenever nothing is undelivered; without timeouts, projection and engine agree iff nothing was lost. */
  lemma QuiescentExactly(actions: seq<Action>, caps: Caps)
    requires caps.orders > 0 && IsRun(START, actions, caps) && Reached(START, actions, caps).batches == []
    ensures var s := Reached(START, actions, caps);
      && (s.app.orders - s.unheard == BookMap(s.engine) - s.unheard <==> s.phantoms.Keys <= s.unheard)
      && (s.unheard == {} ==> (s.app.orders == BookMap(s.engine) <==> Account(FRESH_ENGINE, s.history, caps).lost == 0))
  {
    hide Inv;
    hide Shown;
    hide CleanRun;
    hide BookMap;
    hide Phantoms;
    hide Account;
    hide Run;
    hide IsRun;
    hide Reached;
    var s := Reached(START, actions, caps);
    StartHasBoth(caps);
    RunKeepsHistory(START, actions, caps);
    QuiescentAgreement(actions, caps);
    ShownExactly(s.history, s.unheard, caps);
    assert s.app.orders - {} == s.app.orders && BookMap(s.engine) - {} == BookMap(s.engine);
  }

  lemma StartHasBoth(caps: Caps)
    requires caps.orders > 0
    ensures Inv(START, caps) && HistoryInv(START, caps)
  {
    hide Inv;
    StartHasInv(caps);
  }

  // ---- Replaying a history -----------------------------------------------------------

  /** Where a replay has got to: the records so far were all accepted, and gateway and engine agree. */
  ghost predicate Rebuilt(s: Session, records: seq<Record>, caps: Caps) {
    && caps.orders > 0 && CleanRun(FRESH_ENGINE, map[], s.sent, caps) && s.engine == Run(FRESH_ENGINE, s.sent, caps)
    && InLineRun(FRESH_ENGINE, s.sent, caps) && StampsBelow(s.engine, s.nextSeq)
    && EngineOk(s.engine, caps) && UniqueIds(s.engine) && (forall id :: IsResting(s.engine, id) ==> id in s.inUse)
    && Records(FRESH_ENGINE, s.sent, caps) == records && s.app.replies == Replies(FRESH_ENGINE, s.sent, caps)
    && var ph := Phantoms(FRESH_ENGINE, s.sent, caps);
      && ph.Keys <= s.inUse && Separate(s.engine, ph)
      && s.app.restoring && s.app.inflight == map[] && s.app.orders == Shown(s.engine, ph)
  }

  /** A clean command, exchanged: the projection follows the engine and the request is answered. */
  lemma Exchanged(s: Session, ph: P.Orders, msg: Message, caps: Caps)
    requires EngineOk(s.engine, caps) && caps.orders > 0 && UniqueIds(s.engine)
    requires Separate(s.engine, ph) && CleanStep(s.engine, ph, msg)
    requires s.app.restoring && s.app.inflight == map[] && s.app.orders == Shown(s.engine, ph)
    ensures var s' := Exchange(s, msg, caps);
      s'.app == s.app.(orders := Shown(s'.engine, ph + Phantom(s.engine, msg, caps)),
                       replies := s.app.replies + [ReplyTo(s.engine, msg, caps)])
  {
    hide Shown;
    hide Phantom;
    hide EngineOk;
    hide UniqueIds;
    hide IsResting;
    hide Separate;
    hide Effect;
    hide HandleAll;
    hide Dispatch;
    var events := Dispatch(s.engine, msg, caps).events;
    CommandEffect(s.engine, msg, ph, caps);
    BatchHandled(Register(s.app, msg.orderId, EntryFor(msg)), msg.orderId, events);
    assert map[msg.orderId := EntryFor(msg)] - {msg.orderId} == map[];
    assert [] + FillsOf(events[..|events| - 1]) == FillsOf(events[..|events| - 1]);
  }

  lemma RestingSame(e: Engine, e': Engine)
    requires Bare(e) == Bare(e')
    ensures forall id :: IsResting(e, id) <==> IsResting(e', id)
  {
    SameShape(e.bids, e'.bids);
    SameShape(e.asks, e'.asks);
  }

  lemma LostSame(e: Engine, e': Engine, msg: Message, msg': Message, caps: Caps)
    requires Bare(e) == Bare(e') && BareMessage(msg) == BareMessage(msg')
    ensures Lost(e, msg, caps) == Lost(e', msg', caps) && Phantom(e, msg, caps) == Phantom(e', msg', caps)
  {
    hide MatchFor;
    hide Rests;
    hide Bare;
    if msg.NewOrder? {
      NewBare(e, e', msg, msg', caps);
    }
  }

  lemma EffectiveEncodes(e: Engine, msg: Message, arrival: u64)
    requires Effective(e, msg)
    ensures var msg' := MessageOf(RecordOf(msg), arrival);
      && BareMessage(msg) == BareMessage(msg') && BadField(msg').None?
      && RecordOf(msg') == RecordOf(msg) && IdOf(msg') == IdOf(msg)
  {
    hide IsResting;
  }

  /** Engines that differ only in arrival numbers treat a command and its restamped copy alike. */
  lemma Restamped(e: Engine, e': Engine, msg: Message, arrival: u64, caps: Caps)
    requires caps.orders > 0 && Bare(e) == Bare(e') && Effective(e, msg)
    ensures var msg' := MessageOf(RecordOf(msg), arrival);
      && BareMessage(msg) == BareMessage(msg') && BadField(msg').None?
      && RecordOf(msg') == RecordOf(msg) && IdOf(msg') == IdOf(msg)
      && (forall id :: IsResting(e, id) <==> IsResting(e', id))
      && Effective(e', msg') && Phantom(e, msg, caps) == Phantom(e', msg', caps)
      && ReplyTo(e, msg, caps) == ReplyTo(e', msg', caps)
  {
    hide Dispatch;
    hide Effective;
    hide IsResting;
    hide Phantom;
    hide Bare;
    var msg' := MessageOf(RecordOf(msg), arrival);
    EffectiveEncodes(e, msg, arrival);
    RestingSame(e, e');
    LostSame(e, e', msg, msg', caps);
    StepEventsAgree(e, e', msg, msg', caps);
  }

  /** Replaying the record of one effective command keeps up with it, a loss included. */
  lemma RecordReplayed(e: Engine, s: Session, done: seq<Record>, msg: Message, caps: Caps)
    requires Rebuilt(s, done, caps) && Bare(e) == Bare(s.engine) && Effective(e, msg) && InLine(e, msg, caps)
    requires CleanStep(e, Phantoms(FRESH_ENGINE, s.sent, caps), msg) && s.nextSeq + 1 < TWO64
    ensures var s' := ReplayRecord(s, RecordOf(msg), caps);
      && Rebuilt(s', done + [RecordOf(msg)], caps) && Bare(s'.engine) == Bare(Dispatch(e, msg, caps).engine)
      && Phantoms(FRESH_ENGINE, s'.sent, caps) == Phantoms(FRESH_ENGINE, s.sent, caps) + Phantom(e, msg, caps)
      && s'.app.journal == s.app.journal && s'.app.replies == s.app.replies + [ReplyTo(e, msg, caps)]
      && s'.nextSeq <= s.nextSeq + 1
  {
    hide Shown;
    hide Phantom;
    hide Phantoms;
    hide EngineOk;
    hide UniqueIds;
    hide IsResting;
    hide Effective;
    hide Dispatch;
    hide InLine;
    hide Bare;
    hide ReplyTo;
    hide StampsBelow;
    hide CleanRun;
    hide Separate;
    var r, ph := RecordOf(msg), Phantoms(FRESH_ENGINE, s.sent, caps);
    var msg', p := MessageOf(r, s.nextSeq), Prepared(s, r);
    Restamped(e, s.engine, msg, s.nextSeq, caps);
    Exchanged(p, ph, msg', caps);
    assert map[] + ph == ph;
    HistoryAppend(FRESH_ENGINE, map[], s.sent, msg', caps);
    RunAppend(FRESH_ENGINE, s.sent, msg', caps);
    DispatchOk(s.engine, msg', caps);
    StepUnique(s.engine, msg', caps);
    StepSeparate(s.engine, ph, msg', caps);
    PhantomKeys(s.engine, msg', caps);
    StepStamps(s.engine, msg', caps, s.nextSeq);
    StepStatesAgree(e, s.engine, msg, msg', caps);
    forall id | IsResting(Dispatch(s.engine, msg', caps).engine, id) ensures id in p.inUse {
      StepRests(s.engine, msg', caps, id);
    }
  }

  lemma PhantomKeys(e: Engine, msg: Message, caps: Caps)
    ensures forall id :: id in Phantom(e, msg, caps) ==> msg.NewOrder? && id == msg.orderId
  {
  }

  /** Replaying the records of a run rebuilds where the run ended. */
  lemma {:induction false} RunReplayed(e: Engine, s: Session, done: seq<Record>, msgs: seq<Message>, caps: Caps)
    requires Rebuilt(s, done, caps) && Bare(e) == Bare(s.engine)
    requires caps.orders > 0 && CleanRun(e, Phantoms(FRESH_ENGINE, s.sent, caps), msgs, caps)
    requires InLineRun(e, msgs, caps) && s.nextSeq + |msgs| < TWO64
    ensures var s' := ReplayRecords(s, Records(e, msgs, caps), caps);
      && Rebuilt(s', done + Records(e, msgs, caps), caps) && Bare(s'.engine) == Bare(Run(e, msgs, caps))
      && Phantoms(FRESH_ENGINE, s'.sent, caps) == Phantoms(FRESH_ENGINE, s.sent, caps) + Phantoms(e, msgs, caps)
      && s'.app.journal == s.app.journal && s'.app.replies == s.app.replies + Acked(Replies(e, msgs, caps))
    decreases |msgs|
  {
    hide Rebuilt;
    hide Bare;
    hide Dispatch;
    hide Effective;
    hide InLine;
    hide CleanStep;
    hide Phantom;
    hide Phantoms;
    hide Records;
    hide ReplayRecord;
    hide ReplayRecords;
    hide ReplyTo;
    hide Replies;
    hide Acked;
    var ph := Phantoms(FRESH_ENGINE, s.sent, caps);
    if msgs != [] {
      CleanIsCommand(e, ph, msgs[0]);
    }
    AckedStep(e, msgs, caps);
    RecordsStep(e, msgs, s, caps);
    if msgs == [] {
      assert done + [] == done && s.app.replies + [] == s.app.replies && ph + map[] == ph;
    } else {
      var msg, e', rest := msgs[0], Dispatch(e, msgs[0], caps).engine, msgs[1..];
      var records := Records(e', rest, caps);
      if Effective(e, msg) {
        RecordReplayed(e, s, done, msg, caps);
        var s1 := ReplayRecord(s, RecordOf(msg), caps);
        RunReplayed(e', s1, done + [RecordOf(msg)], rest, caps);
        Regroup(done, [RecordOf(msg)], records);
        MapRegroup(ph, Phantom(e, msg, caps), Phantoms(e', rest, caps));
        Regroup(s.app.replies, [ReplyTo(e, msg, caps)], Acked(Replies(e', rest, caps)));
      } else {
        StepErases(e, msg, caps);
        NoPhantom(e, msg, caps);
        assert ph + map[] == ph && map[] + Phantoms(e', rest, caps) == Phantoms(e', rest, caps);
        assert [] + Acked(Replies(e', rest, caps)) == Acked(Replies(e', rest, caps));
        RunReplayed(e, s, done, rest, caps);
      }
    }
  }

  /** The records and phantoms of a run, and their replay, one command at a time. */
  lemma RecordsStep(e: Engine, msgs: seq<Message>, s: Session, caps: Caps)
    requires caps.orders > 0
    ensures msgs == [] ==> Records(e, msgs, caps) == [] && Phantoms(e, msgs, caps) == map[]
    ensures msgs == [] ==> ReplayRecords(s, Records(e, msgs, caps), caps) == s
    ensures msgs != [] ==>
      var e', rest := Dispatch(e, msgs[0], caps).engine, msgs[1..];
      && Phantoms(e, msgs, caps) == Phantom(e, msgs[0], caps) + Phantoms(e', rest, caps)
      && (!Effective(e, msgs[0]) ==> Records(e, msgs, caps) == Records(e', rest, caps))
      && (Effective(e, msgs[0]) ==>
          && Records(e, msgs, caps) == [RecordOf(msgs[0])] + Records(e', rest, caps)
          && ReplayRecords(s, Records(e, msgs, caps), caps)
             == ReplayRecords(ReplayRecord(s, RecordOf(msgs[0]), caps), Records(e', rest, caps), caps))
  {
    hide Dispatch;
    hide Effective;
    hide Phantom;
    hide ReplayRecord;
    if msgs != [] && Effective(e, msgs[0]) {
      assert Records(e, msgs, caps)[1..] == Records(Dispatch(e, msgs[0], caps).engine, msgs[1..], caps);
    }
  }

  /** The acknowledged answers of a run, one command at a time. */
  lemma AckedStep(e: Engine, msgs: seq<Message>, caps: Caps)
    requires caps.orders > 0 && (msgs != [] ==> IsCommand(msgs[0]))
    ensures msgs == [] ==> Acked(Replies(e, msgs, caps)) == []
    ensures msgs != [] ==>
      var first := if Effective(e, msgs[0]) then [ReplyTo(e, msgs[0], caps)] else [];
      Acked(Replies(e, msgs, caps)) == first + Acked(Replies(Dispatch(e, msgs[0], caps).engine, msgs[1..], caps))
  {
    hide Dispatch;
    hide Effective;
    hide ReplyTo;
    if msgs != [] {
      ReplyTells(e, msgs[0], caps);
      assert Replies(e, msgs, caps)[1..] == Replies(Dispatch(e, msgs[0], caps).engine, msgs[1..], caps);
    }
  }

  lemma CleanIsCommand(e: Engine, ph: P.Orders, msg: Message)
    requires CleanStep(e, ph, msg)
    ensures IsCommand(msg)
  {
  }

  lemma NoPhantom(e: Engine, msg: Message, caps: Caps)
    requires !Effective(e, msg)
    ensures Phantom(e, msg, caps) == map[]
  {
  }

  /** A command is answered by an acknowledgement iff it was effective. */
  lemma ReplyTells(e: Engine, msg: Message, caps: Caps)
    requires caps.orders > 0 && IsCommand(msg)
    ensures ReplyTo(e, msg, caps).terminator.Ack? <==> Effective(e, msg)
  {
    hide MatchFor;
    hide Rests;
    LastEventTells(e, msg, caps);
    if msg.NewOrder? {
      ResidualIsLeft(e, msg);
    }
  }

  /**
   * The gateway right after connecting to a fresh engine: nothing in flight, nothing projected. A new process has
   * handed out no ids yet; a reconnecting one keeps the ids in use.
   */
  function Restarting(journal: seq<Record>, inUse: set<u64>, n: u64): Session {
    Session(App(map[], map[], journal, [], true), FRESH_ENGINE, inUse, n, [])
  }

  /**
   * Normal operation resumes where the replay ended. The empty outbox is that of a new process: frames already
   * queued for writing survive a reconnect and would be sent without an in-flight entry.
   */
  function Resumed(r: Session, caps: Caps): System
    requires caps.orders > 0
  {
    System(r.engine, r.app.(restoring := false), [], [], [], r.inUse, r.sent, Phantoms(FRESH_ENGINE, r.sent, caps), {})
  }

  lemma ResumedInv(r: Session, caps: Caps)
    requires caps.orders > 0 && Rebuilt(r, r.app.journal, caps)
    ensures Inv(Resumed(r, caps), caps) && HistoryInv(Resumed(r, caps), caps)
  {
    hide Shown;
    hide EngineOk;
    hide UniqueIds;
    hide IsResting;
    hide Dispatch;
    hide Separate;
    hide CleanRun;
    var s := Resumed(r, caps);
    assert s.history[..|s.history|] == s.history && s.history[|s.history|..] == [];
    assert Pending(s) == [];
  }

  /** What a replay restores: the state in which the commands of `history` have been processed and answered. */
  ghost predicate Restored(r: Session, history: seq<Message>, caps: Caps) {
    && caps.orders > 0
    && var e := Run(FRESH_ENGINE, history, caps);
      && Bare(r.engine) == Bare(e) && r.app.orders == Shown(e, Phantoms(FRESH_ENGINE, history, caps))
      && r.app.journal == Records(FRESH_ENGINE, history, caps) == Records(FRESH_ENGINE, r.sent, caps)
      && r.app.inflight == map[] && r.app.replies == Acked(Replies(FRESH_ENGINE, history, caps))
      && Inv(Resumed(r, caps), caps) && HistoryInv(Resumed(r, caps), caps) && InLineRun(FRESH_ENGINE, r.sent, caps)
  }

  /** Every accepted and answered command has been journaled. */
  ghost predicate JournalComplete(s: System, caps: Caps) {
    caps.orders > 0 && Done(s) >= 0 && s.app.journal == SeenRecords(s, caps)
  }

  /**
   * Restart from any state, undelivered events and lost orders included, whose journal is complete and whose answered
   * orders came to rest last in line: replaying the journal on a fresh engine accepts every record, reproduces every
   * acknowledged answer trade by trade, restores the projection and, up to arrival numbers, the engine as of the last
   * answered command, leaves the journal as it was, and lands in a state from which both invariants go on holding and
   * the next restart is possible.
   */
  lemma RestartRebuilds(s: System, inUse: set<u64>, caps: Caps, n: u64)
    requires Inv(s, caps) && HistoryInv(s, caps) && JournalComplete(s, caps)
    requires InLineRun(FRESH_ENGINE, s.history[..Done(s)], caps) && n + Done(s) < TWO64
    ensures var r := ReplayRecords(Restarting(s.app.journal, inUse, n), s.app.journal, caps);
      && Restored(r, s.history[..Done(s)], caps) && r.app.journal == s.app.journal
      && (s.unheard == {} ==> r.app.replies == Acked(s.app.replies))
      && (s.batches == [] ==> Bare(r.engine) == Bare(s.engine))
      && (s.batches == [] && s.unheard == {} ==> r.app.orders == s.app.orders)
  {
    hide Inv;
    hide Rebuilt;
    hide Run;
    hide Records;
    hide Replies;
    hide Phantoms;
    hide Bare;
    hide CleanRun;
    hide InLineRun;
    hide ReplayRecords;
    hide Shown;
    hide Acked;
    AllDelivered(s, caps);
    var h, s0 := s.history[..Done(s)], Restarting(s.app.journal, inUse, n);
    var r := ReplayRecords(s0, s.app.journal, caps);
    FreshRebuilt(s.app.journal, inUse, n, caps);
    CleanPrefix(FRESH_ENGINE, map[], s.history, caps, Done(s));
    RunReplayed(FRESH_ENGINE, s0, [], h, caps);
    var acked := Acked(Replies(FRESH_ENGINE, h, caps));
    assert [] + s.app.journal == s.app.journal && [] + acked == acked;
    assert map[] + Phantoms(FRESH_ENGINE, h, caps) == Phantoms(FRESH_ENGINE, h, caps);
    ResumedInv(r, caps);
    RebuiltFacts(r, s.app.journal, caps);
    SameShown(r.engine, Run(FRESH_ENGINE, h, caps), Phantoms(FRESH_ENGINE, h, caps));
  }

  /** Without timeouts the journal is complete. */
  lemma QuietIsComplete(s: System, caps: Caps)
    requires Inv(s, caps) && s.unheard == {}
    ensures JournalComplete(s, caps)
  {
    hide EngineSide;
    hide RequestsOk;
    hide Links;
    hide Chain;
    hide Records;
    HeardAll(s.app.journal);
    HeardAll(SeenRecords(s, caps));
  }

  lemma RebuiltFacts(r: Session, records: seq<Record>, caps: Caps)
    requires Rebuilt(r, records, caps)
    ensures caps.orders > 0 && r.app.inflight == map[] && InLineRun(FRESH_ENGINE, r.sent, caps)
    ensures records == Records(FRESH_ENGINE, r.sent, caps)
    ensures r.app.orders == Shown(r.engine, Phantoms(FRESH_ENGINE, r.sent, caps))
  {
    hide EngineOk;
    hide UniqueIds;
    hide Dispatch;
  }

  /** With nothing undelivered every command is answered, and without timeouts the projection is complete. */
  lemma AllDelivered(s: System, caps: Caps)
    requires Inv(s, caps) && HistoryInv(s, caps)
    ensures s.batches == [] ==> s.history[..Done(s)] == s.history
    ensures s.batches == [] && s.unheard == {} ==> s.app.orders == Shown(s.engine, s.phantoms)
  {
    hide EngineSide;
    hide RequestsOk;
    hide Links;
    hide Chain;
    hide Dispatch;
    hide Heard;
    hide Shown;
    assert s.app.orders - {} == s.app.orders && Shown(s.engine, s.phantoms) - {} == Shown(s.engine, s.phantoms);
  }

  lemma FreshRebuilt(journal: seq<Record>, inUse: set<u64>, n: u64, caps: Caps)
    requires caps.orders > 0
    ensures Rebuilt(Restarting(journal, inUse, n), [], caps) && Phantoms(FRESH_ENGINE, [], caps) == map[]
  {
    FreshIsOk(caps);
    assert Shown(FRESH_ENGINE, map[]) == map[];
  }

  lemma {:induction false} BareMap(a: seq<BookModel.Order>, b: seq<BookModel.Order>)
    requires Unstamped(a) == Unstamped(b)
    ensures MapOf(a) == MapOf(b)
  {
    assert |a| == |Unstamped(a)| == |b|;
    if a != [] {
      assert Unstamped(a)[0] == Unstamped(b)[0];
      assert Unstamped(a[1..]) == Unstamped(a)[1..] && Unstamped(b[1..]) == Unstamped(b)[1..];
      BareMap(a[1..], b[1..]);
    }
  }

  /** The projection does not show arrival numbers. */
  lemma SameShown(a: Engine, b: Engine, ph: P.Orders)
    requires Bare(a) == Bare(b)
    ensures Shown(a, ph) == Shown(b, ph)
  {
    BareMap(a.bids, b.bids);
    BareMap(a.asks, b.asks);
  }

  /** Accepted commands in rising stamp order come to rest last in line, whatever stamps the rejected ones carry. */
  lemma {:induction false} ErasedRisingIsInLine(e: Engine, msgs: seq<Message>, caps: Caps, n: nat)
    requires EngineOk(e, caps) && caps.orders > 0 && StampsBelow(e, n) && Rising(Erase(e, msgs, caps), n)
    ensures InLineRun(e, msgs, caps)
    decreases |msgs|
  {
    hide Dispatch;
    hide EngineOk;
    hide InLine;
    hide StampsBelow;
    hide Effective;
    if msgs != [] {
      var msg, e' := msgs[0], Dispatch(e, msgs[0], caps).engine;
      var kept := Erase(e', msgs[1..], caps);
      if Effective(e, msg) {
        assert Erase(e, msgs, caps) == [msg] + kept && ([msg] + kept)[1..] == kept;
        StepStamps(e, msg, caps, n);
        DispatchOk(e, msg, caps);
        ErasedRisingIsInLine(e', msgs[1..], caps, if msg.NewOrder? then msg.arrival + 1 else n);
      } else {
        assert Erase(e, msgs, caps) == kept;
        StepErases(e, msg, caps);
        IneffectiveInLine(e, msg, caps);
        ErasedRisingIsInLine(e', msgs[1..], caps, n);
      }
    }
  }

  lemma IneffectiveInLine(e: Engine, msg: Message, caps: Caps)
    requires !Effective(e, msg)
    ensures InLine(e, msg, caps)
  {
  }

  /**
   * The same in every state of every run without timeouts whose accepted and answered commands reached the engine in
   * stamp order.
   */
  lemma RestartAfterAnyRun(actions: seq<Action>, inUse: set<u64>, caps: Caps, n: u64)
    requires caps.orders > 0 && IsRun(START, actions, caps)
    requires var s := Reached(START, actions, caps);
      && s.unheard == {} && 0 <= Done(s) <= |s.history| && n + Done(s) < TWO64
      && Rising(Erase(FRESH_ENGINE, s.history[..Done(s)], caps), 0)
    ensures var s := Reached(START, actions, caps);
      var r := ReplayRecords(Restarting(s.app.journal, inUse, n), s.app.journal, caps);
      && Restored(r, s.history[..Done(s)], caps)
      && r.app.journal == s.app.journal && r.app.replies == Acked(s.app.replies)
      && (s.batches == [] ==> r.app.orders == s.app.orders && Bare(r.engine) == Bare(s.engine))
  {
    hide Inv;
    hide Restored;
    hide ReplayRecords;
    hide Bare;
    hide InLineRun;
    hide JournalComplete;
    var s := Reached(START, actions, caps);
    StartHasBoth(caps);
    RunKeepsHistory(START, actions, caps);
    FreshIsOk(caps);
    ErasedRisingIsInLine(FRESH_ENGINE, s.history[..Done(s)], caps, 0);
    QuietIsComplete(s, caps);
    RestartRebuilds(s, inUse, caps, n);
  }
}
