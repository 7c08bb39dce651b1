/** Restarting after any run, timeouts included, and what replay asks of the engine it connects to. */
module Recovery {
  import opened Wire
  import opened Codec
  import opened BookModel
  import opened Engine
  import opened EngineRuns
  import opened Replay
  import opened AppState
  import opened ReplicaStep
  import opened Replica
  import opened Restart

  // ---- Replaying any journal ---------------------------------------------------------------

  function WithId(ids: set<u64>, r: Record): set<u64> {
    if r.New? then ids + {r.id} else ids
  }

  function WithIds(ids: set<u64>, records: seq<Record>): set<u64>
    decreases |records|
  {
    if records == [] then ids else WithIds(WithId(ids, records[0]), records[1..])
  }

  /** No two orders of the journal have the same id, and none has an id in `ids`. */
  predicate FreshIds(ids: set<u64>, records: seq<Record>)
    decreases |records|
  {
    records == []
    || ((records[0].New? ==> records[0].id !in ids) && FreshIds(WithId(ids, records[0]), records[1..]))
  }

  /** Gateway and engine agree up to the orders lost, every command sent is answered, and nothing is in flight. */
  ghost predicate InStep(s: Session, start: Engine, ids: set<u64>, caps: Caps) {
    && caps.orders > 0 && s.engine == Run(start, s.sent, caps) && CleanRun(start, map[], s.sent, caps)
    && EngineOk(s.engine, caps) && UniqueIds(s.engine) && (forall id :: IsResting(s.engine, id) ==> id in ids)
    && ids <= s.inUse && s.app.replies == Replies(start, s.sent, caps)
    && var ph := Phantoms(start, s.sent, caps);
      && ph.Keys <= ids && Separate(s.engine, ph)
      && s.app.restoring && s.app.inflight == map[] && s.app.orders == Shown(s.engine, ph)
  }

  /** The engine does not accept the record's command again, or it is not even sent. */
  predicate Misses(s: Session, r: Record) {
    Skipped(s, r) || !Effective(s.engine, MessageOf(r, s.nextSeq))
  }

  /** The ids of the records a replay does not bring back. */
  function Missed(s: Session, records: seq<Record>, caps: Caps): set<u64>
    requires caps.orders > 0
    decreases |records|
  {
    if records == [] then {}
    else
      var rest := Missed(ReplayRecord(s, records[0], caps), records[1..], caps);
      (if Misses(s, records[0]) then {records[0].id} else {}) + rest
  }

  /** Beyond `missed`, the records replayed are the accepted commands sent. */
  ghost predicate Matches(done: seq<Record>, start: Engine, sent: seq<Message>, missed: set<u64>, caps: Caps) {
    caps.orders > 0 && Heard(done, missed) == Heard(Records(start, sent, caps), missed)
  }

  lemma RecordInStep(s: Session, start: Engine, ids: set<u64>, r: Record, caps: Caps)
    requires InStep(s, start, ids, caps) && (r.New? ==> r.id !in ids)
    ensures InStep(ReplayRecord(s, r, caps), start, WithId(ids, r), caps)
    ensures ReplayRecord(s, r, caps).app.journal == s.app.journal
  {
    hide Shown;
    hide Phantom;
    hide Phantoms;
    hide Replies;
    hide ReplyTo;
    hide EngineOk;
    hide UniqueIds;
    hide IsResting;
    hide Dispatch;
    hide Run;
    hide CleanRun;
    hide Separate;
    hide BadField;
    hide InLineRun;
    hide InLine;
    var p, msg, ph := Prepared(s, r), MessageOf(r, s.nextSeq), Phantoms(start, s.sent, caps);
    if !Skipped(s, r) {
      Exchanged(p, ph, msg, caps);
      RunAppend(start, s.sent, msg, caps);
      assert map[] + ph == ph;
      HistoryAppend(start, map[], s.sent, msg, caps);
      DispatchOk(s.engine, msg, caps);
      StepUnique(s.engine, msg, caps);
      StepSeparate(s.engine, ph, msg, caps);
      PhantomKeys(s.engine, msg, caps);
      forall id | IsResting(Dispatch(s.engine, msg, caps).engine, id) ensures id in WithId(ids, r) {
        StepRests(s.engine, msg, caps, id);
      }
    }
  }

  lemma RecordMatches(
    s: Session, start: Engine, ids: set<u64>, done: seq<Record>, r: Record, missed: set<u64>, caps: Caps)
    requires InStep(s, start, ids, caps) && Matches(done, start, s.sent, missed, caps)
    requires Misses(s, r) ==> r.id in missed
    ensures Matches(done + [r], start, ReplayRecord(s, r, caps).sent, missed, caps)
  {
    hide Heard;
    hide Records;
    hide Run;
    hide Dispatch;
    hide Effective;
    hide BadField;
    hide HandleAll;
    hide Phantoms;
    hide Shown;
    hide EngineOk;
    hide UniqueIds;
    hide IsResting;
    hide CleanRun;
    hide Separate;
    var msg := MessageOf(r, s.nextSeq);
    HeardAppend(done, r, missed);
    if Misses(s, r) {
      assert Heard(done, missed) + [] == Heard(done, missed);
    }
    if !Skipped(s, r) {
      RunAppend(start, s.sent, msg, caps);
      var records := Records(start, s.sent, caps);
      if Effective(s.engine, msg) {
        assert RecordOf(msg) == r;
        HeardAppend(records, r, missed);
      } else {
        assert records + [] == records;
      }
    }
  }

  /**
   * Whatever a journal with distinct order ids contains, records missing or misfiled after timeouts included: after
   * its replay gateway and engine agree up to the orders lost in the replay, nothing is in flight, and beyond the
   * records that were not accepted again the journal is what the engine has accepted.
   */
  lemma {:induction false} AnyJournalAgrees(
    s: Session, start: Engine, ids: set<u64>, done: seq<Record>, records: seq<Record>, missed: set<u64>, caps: Caps)
    requires caps.orders > 0 && InStep(s, start, ids, caps) && FreshIds(ids, records)
    requires Matches(done, start, s.sent, missed, caps) && Missed(s, records, caps) <= missed
    ensures var s' := ReplayRecords(s, records, caps);
      && InStep(s', start, WithIds(ids, records), caps) && s'.app.journal == s.app.journal
      && Matches(done + records, start, s'.sent, missed, caps)
    decreases |records|
  {
    hide InStep;
    hide ReplayRecord;
    hide Matches;
    hide Misses;
    if records == [] {
      assert done + records == done;
    } else {
      var r, rest := records[0], records[1..];
      RecordInStep(s, start, ids, r, caps);
      RecordMatches(s, start, ids, done, r, missed, caps);
      AnyJournalAgrees(ReplayRecord(s, r, caps), start, WithId(ids, r), done + [r], rest, missed, caps);
      assert done + [r] + rest == done + records;
    }
  }

  // ---- What the journal of any run looks like -------------------------------------------------

  /** The ids of pending new orders are not journaled yet. */
  ghost predicate NotJournaled(msgs: seq<Message>, ids: set<u64>) {
    forall i :: 0 <= i < |msgs| && msgs[i].NewOrder? ==> IdOf(msgs[i]) !in ids
  }

  /** Journaled orders have distinct ids, all handed out by the gateway, none of them still pending. */
  ghost predicate JournalOk(s: System) {
    && FreshIds({}, s.app.journal) && WithIds({}, s.app.journal) <= s.used
    && NotJournaled(Pending(s), WithIds({}, s.app.journal))
  }

  lemma {:induction false} FreshIdsAppend(ids: set<u64>, records: seq<Record>, r: Record)
    ensures FreshIds(ids, records + [r]) <==> FreshIds(ids, records) && (r.New? ==> r.id !in WithIds(ids, records))
    ensures WithIds(ids, records + [r]) == WithId(WithIds(ids, records), r)
    decreases |records|
  {
    if records == [] {
      assert (records + [r])[1..] == [];
    } else {
      assert (records + [r])[1..] == records[1..] + [r];
      FreshIdsAppend(WithId(ids, records[0]), records[1..], r);
    }
  }

  /** Only an order's own terminator journals an order. */
  lemma JournaledByOwn(app: App, e: Engine, cmd: Message, event: Message, caps: Caps)
    requires caps.orders > 0 && IsCommand(cmd)
    requires var events := Dispatch(e, cmd, caps).events; events != [] && event == events[|events| - 1]
    ensures var app' := HandleEvent(app, event);
      || app'.journal == app.journal
      || exists r: Record :: r.id == IdOf(cmd) && app'.journal == app.journal + [r] && (r.New? ==> cmd.NewOrder?)
  {
    hide Dispatch;
    hide Effective;
    LastEventTells(e, cmd, caps);
    if event.Ack? && event.orderId in app.inflight && !app.restoring {
      var id, entry := event.orderId, app.inflight[event.orderId];
      var r := if event.kind.Accepted? then New(id, entry.side, entry.price, entry.quantity) else Cancel(id);
      assert HandleEvent(app, event).journal == app.journal + [r];
    }
  }

  lemma HeadEvent(s: System, caps: Caps)
    requires caps.orders > 0 && Inv(s, caps) && s.batches != []
    ensures SuffixOk(s.batches[0], caps) && BatchOk(s.app.orders, s.unheard, s.app.inflight, s.batches[0], caps)
    ensures |Pending(s)| > 0 && Pending(s)[0] == s.batches[0].cmd && AllCompatible(s.unheard, Pending(s))
  {
    hide EngineSide;
    hide Links;
    hide Shown;
    hide Heard;
    hide Effect;
  }

  lemma TerminatorKeepsJournal(s: System, caps: Caps)
    requires caps.orders > 0 && Inv(s, caps) && JournalOk(s) && s.batches != [] && |s.batches[0].events| == 1
    ensures JournalOk(Delivered(s))
  {
    hide Inv;
    hide BatchOk;
    hide HandleEvent;
    hide Dispatch;
    hide FreshIds;
    hide WithIds;
    var b, s' := s.batches[0], Delivered(s);
    HeadEvent(s, caps);
    var events := Dispatch(b.before, b.cmd, caps).events;
    assert b.events[0] == events[|events| - 1];
    JournaledByOwn(s.app, b.before, b.cmd, b.events[0], caps);
    assert Pending(s') == Pending(s)[1..];
    if s'.app.journal != s.app.journal {
      var r: Record :| r.id == IdOf(b.cmd) && s'.app.journal == s.app.journal + [r] && (r.New? ==> b.cmd.NewOrder?);
      FreshIdsAppend({}, s.app.journal, r);
      forall i | 0 <= i < |Pending(s')| && Pending(s')[i].NewOrder? && r.New? ensures IdOf(Pending(s')[i]) != r.id {
        assert Compatible(s.unheard, Pending(s)[0], Pending(s)[i + 1]);
      }
      assert r.New? ==> r.id in s.used by { PendingUsed(s, caps); }
    }
  }

  lemma PendingUsed(s: System, caps: Caps)
    requires Inv(s, caps)
    ensures NewsUsed(s.used, Pending(s))
  {
    hide EngineSide;
    hide Links;
    hide Chain;
    hide Shown;
    hide Heard;
  }

  lemma TradeKeepsJournal(s: System, caps: Caps)
    requires caps.orders > 0 && Inv(s, caps) && JournalOk(s) && s.batches != [] && |s.batches[0].events| > 1
    ensures JournalOk(Delivered(s))
  {
    hide Inv;
    hide BatchOk;
    hide SuffixOk;
    hide HandleEvent;
    hide FreshIds;
    hide WithIds;
    HeadEvent(s, caps);
    TradeBatchOk(s.app, s.unheard, s.batches[0], caps);
    assert Pending(Delivered(s)) == Pending(s);
  }

  lemma StepKeepsJournal(s: System, a: Action, caps: Caps)
    requires caps.orders > 0 && Inv(s, caps) && JournalOk(s) && Enabled(s, a, caps)
    ensures JournalOk(Next(s, a, caps))
  {
    hide Inv;
    hide FreshIds;
    hide WithIds;
    hide HandleEvent;
    hide Dispatch;
    var s' := Next(s, a, caps);
    match a
    case SubmitNew(msg) => assert Pending(s') == Pending(s) + [msg];
    case SubmitCancel(id) => assert Pending(s') == Pending(s) + [CancelOrder(id)];
    case Send(i) => SendPending(s, i, caps);
    case SendFails(i) => FailPending(s, i);
    case Timeout(id) => assert Pending(s') == Pending(s);
    case Process => assert Pending(s') == Pending(s);
    case Deliver =>
      if |s.batches[0].events| == 1 {
        TerminatorKeepsJournal(s, caps);
      } else {
        TradeKeepsJournal(s, caps);
      }
  }

  lemma {:induction false} RunKeepsJournal(s: System, actions: seq<Action>, caps: Caps)
    requires caps.orders > 0 && Inv(s, caps) && JournalOk(s) && IsRun(s, actions, caps)
    ensures JournalOk(Reached(s, actions, caps))
    decreases |actions|
  {
    hide Inv;
    hide JournalOk;
    hide Next;
    if actions != [] {
      StepKeepsInv(s, actions[0], caps);
      StepKeepsJournal(s, actions[0], caps);
      RunKeepsJournal(Next(s, actions[0], caps), actions[1..], caps);
    }
  }

  // ---- Restarting after any run -----------------------------------------------------------------

  lemma RestartingInStep(journal: seq<Record>, inUse: set<u64>, n: u64, caps: Caps)
    requires caps.orders > 0
    ensures InStep(Restarting(journal, inUse, n), FRESH_ENGINE, {}, caps)
  {
    FreshIsOk(caps);
    assert Shown(FRESH_ENGINE, map[]) == map[];
  }

  /** Normal operation after a replay; records that were not accepted again count like timed-out ids. */
  function Recovered(r: Session, missed: set<u64>, caps: Caps): System
    requires caps.orders > 0
  {
    Resumed(r, caps).(unheard := missed)
  }

  lemma RecoveredInv(r: Session, missed: set<u64>, caps: Caps)
    requires caps.orders > 0 && InStep(r, FRESH_ENGINE, WithIds({}, r.app.journal), caps)
    requires FreshIds({}, r.app.journal) && Matches(r.app.journal, FRESH_ENGINE, r.sent, missed, caps)
    ensures var s := Recovered(r, missed, caps); Inv(s, caps) && HistoryInv(s, caps) && JournalOk(s)
  {
    hide Shown;
    hide EngineOk;
    hide UniqueIds;
    hide IsResting;
    hide Dispatch;
    hide Separate;
    hide CleanRun;
    hide Heard;
    hide FreshIds;
    hide WithIds;
    var s := Recovered(r, missed, caps);
    assert s.history[..|s.history|] == s.history && s.history[|s.history|..] == [];
    assert Pending(s) == [];
  }

  /**
   * Restart from any state of which the journal is as runs leave it, after timeouts, losses and misfiled answers, and
   * whatever arrival numbers the orders carried: once the journal has been replayed on a fresh engine, gateway and
   * engine agree up to the orders lost in the replay, every invariant holds again, and the next restart is possible.
   */
  lemma RestartRecovers(s: System, inUse: set<u64>, caps: Caps, n: u64)
    requires caps.orders > 0 && JournalOk(s)
    ensures var s0 := Restarting(s.app.journal, inUse, n);
      var r, missed := ReplayRecords(s0, s.app.journal, caps), Missed(s0, s.app.journal, caps);
      && InStep(r, FRESH_ENGINE, WithIds({}, s.app.journal), caps) && r.app.journal == s.app.journal
      && var s' := Recovered(r, missed, caps); Inv(s', caps) && HistoryInv(s', caps) && JournalOk(s')
  {
    hide InStep;
    hide Inv;
    hide HistoryInv;
    hide FreshIds;
    hide WithIds;
    hide ReplayRecords;
    hide Missed;
    var s0 := Restarting(s.app.journal, inUse, n);
    var missed := Missed(s0, s.app.journal, caps);
    RestartingInStep(s.app.journal, inUse, n, caps);
    NothingYet(s0, missed, caps);
    AnyJournalAgrees(s0, FRESH_ENGINE, {}, [], s.app.journal, missed, caps);
    assert [] + s.app.journal == s.app.journal;
    RecoveredInv(ReplayRecords(s0, s.app.journal, caps), missed, caps);
  }

  lemma NothingYet(s: Session, missed: set<u64>, caps: Caps)
    requires caps.orders > 0 && s.sent == []
    ensures Matches([], FRESH_ENGINE, s.sent, missed, caps)
  {
  }

  /** The same in every state of every run. */
  lemma RestartAfterEveryRun(actions: seq<Action>, inUse: set<u64>, caps: Caps, n: u64)
    requires caps.orders > 0 && IsRun(START, actions, caps)
    ensures var s := Reached(START, actions, caps);
      var s0 := Restarting(s.app.journal, inUse, n);
      var r, missed := ReplayRecords(s0, s.app.journal, caps), Missed(s0, s.app.journal, caps);
      && InStep(r, FRESH_ENGINE, WithIds({}, s.app.journal), caps) && r.app.journal == s.app.journal
      && var s' := Recovered(r, missed, caps); Inv(s', caps) && HistoryInv(s', caps) && JournalOk(s')
  {
    hide Inv;
    hide HistoryInv;
    hide InStep;
    hide ReplayRecords;
    hide Missed;
    StartHasInv(caps);
    assert Pending(START) == [] && FreshIds({}, []) && WithIds({}, []) == {};
    RunKeepsJournal(START, actions, caps);
    RestartRecovers(Reached(START, actions, caps), inUse, caps, n);
  }

  // ---- The engine at the other end ----------------------------------------------------------------

  /** The gateway right after connecting to an engine in state e. */
  function Connecting(e: Engine, journal: seq<Record>, inUse: set<u64>, n: u64): Session {
    Restarting(journal, inUse, n).(engine := e)
  }

  /** Whatever journal is replayed on it, gateway and engine agree afterwards, up to the orders lost in the replay. */
  ghost predicate AgreesAlways(e: Engine, caps: Caps)
    requires caps.orders > 0
  {
    forall journal: seq<Record>, inUse: set<u64>, n: u64 ::
      FreshIds({}, journal) ==> ReplayAgrees(Connecting(e, journal, inUse, n), journal, caps)
  }

  ghost predicate ReplayAgrees(s: Session, journal: seq<Record>, caps: Caps)
    requires caps.orders > 0
  {
    var r := ReplayRecords(s, journal, caps);
    r.app.orders == Shown(r.engine, Phantoms(s.engine, r.sent, caps))
  }

  lemma EmptyInStep(e: Engine, journal: seq<Record>, inUse: set<u64>, n: u64, caps: Caps)
    requires caps.orders > 0 && EngineOk(e, caps) && e.bids == e.asks == []
    ensures InStep(Connecting(e, journal, inUse, n), e, {}, caps)
  {
    assert Shown(e, map[]) == map[];
  }

  lemma {:induction false} EmptyAgrees(e: Engine, journal: seq<Record>, inUse: set<u64>, n: u64, caps: Caps)
    requires caps.orders > 0 && EngineOk(e, caps) && e.bids == e.asks == [] && FreshIds({}, journal)
    ensures ReplayAgrees(Connecting(e, journal, inUse, n), journal, caps)
  {
    hide EngineOk;
    hide FreshIds;
    hide ReplayRecords;
    hide Missed;
    hide Run;
    hide CleanRun;
    hide Shown;
    var s := Connecting(e, journal, inUse, n);
    EmptyInStep(e, journal, inUse, n, caps);
    AnyJournalAgrees(s, e, {}, [], journal, Missed(s, journal, caps), caps);
  }

  lemma {:induction false} ShownHasAll(s: seq<Order>)
    ensures MapOf(s) == map[] <==> s == []
  {
    if s != [] {
      assert s[0].id in MapOf(s);
    }
  }

  /** Replay rebuilds agreement on an engine exactly when that engine's book is empty at connect. */
  lemma ConnectExactly(e: Engine, caps: Caps)
    requires caps.orders > 0 && EngineOk(e, caps)
    ensures AgreesAlways(e, caps) <==> e.bids == [] && e.asks == []
  {
    hide EngineOk;
    hide InStep;
    if e.bids == [] && e.asks == [] {
      forall journal: seq<Record>, inUse: set<u64>, n: u64 | FreshIds({}, journal)
        ensures ReplayAgrees(Connecting(e, journal, inUse, n), journal, caps)
      {
        EmptyAgrees(e, journal, inUse, n, caps);
      }
    }
    if AgreesAlways(e, caps) {
      var s := Connecting(e, [], {}, 0);
      assert FreshIds({}, []) && ReplayAgrees(s, [], caps);
      assert ReplayRecords(s, [], caps) == s && Phantoms(e, [], caps) == map[];
      assert MapOf(e.bids) + MapOf(e.asks) == map[];
      assert MapOf(e.bids) == map[] && MapOf(e.asks) == map[] by { EmptySum(MapOf(e.bids), MapOf(e.asks)); }
      ShownHasAll(e.bids);
      ShownHasAll(e.asks);
    }
  }

  lemma EmptySum(a: P.Orders, b: P.Orders)
    requires a + b == map[]
    ensures a == map[] && b == map[]
  {
    assert forall id :: id in a ==> id in a + b;
    assert forall id :: id in b ==> id in a + b;
  }

  /** Reconnecting to an engine that kept its book: the replayed order rests twice and is shown once. */
  lemma StaleEngineDiverges()
    ensures var caps, e := Caps(2, 2), FRESH_ENGINE.(bids := [Order(1, Buy, 100, 0, 5)]);
      var r := ReplayRecord(Connecting(e, [New(1, Buy, 100, 5)], {1}, 1), New(1, Buy, 100, 5), caps);
      && r.engine.bids == [Order(1, Buy, 100, 0, 5), Order(1, Buy, 100, 1, 5)]
      && r.app.orders == map[1 := P.Resting(Buy, 100, 5)]
  {
    var caps, e := Caps(2, 2), FRESH_ENGINE.(bids := [Order(1, Buy, 100, 0, 5)]);
    var s, record := Connecting(e, [New(1, Buy, 100, 5)], {1}, 1), New(1, Buy, 100, 5);
    var msg := MessageOf(record, 1);
    assert Prices([]) == {} && 100 in Prices(e.bids) by { assert e.bids[0].price == 100; }
    OnePrice(e.bids[0]);
    var step := Dispatch(e, msg, caps);
    assert step.events == [Ack(1, Accepted)];
    assert step.engine.bids == InsertSorted(e.bids, Order(1, Buy, 100, 1, 5));
    assert e.bids[1..] == [];
    assert step.events[1..] == [];
    ResidualExact(EntryFor(msg));
    assert !Skipped(s, record);
  }

  lemma OnePrice(o: Order)
    ensures Prices([o]) == {o.price}
  {
    assert [o][0] == o;
  }
}
