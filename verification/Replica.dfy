/**
 * Gateway and engine joined by an ordered command queue and an ordered event queue: at every terminator the
 * projection is the engine's book and the journal is the accepted prefix of the history, apart from orders the engine
 * lost and from ids whose in-flight entry was dropped by a timeout.
 */
module Replica {
  import opened Wire
  import opened LinkedNodes
  import opened BookModel
  import opened Engine
  import opened EngineRuns
  import opened AppState
  import opened ReplicaStep

  /** The events of one processed command that have not been delivered yet. */
  datatype Batch = Batch(cmd: Message, before: Engine, phantoms: P.Orders, events: seq<Message>)

  /**
   * outbox: registered requests not yet written; wire: commands on their way to the engine; batches: events on
   * their way back; used: ids the gateway has handed out; history: commands the engine has processed, and
   * phantoms: the accepted orders among them that were lost to a full pool; unheard: ids that timed out.
   */
  datatype System = System(
    engine: Engine, app: App, outbox: seq<Message>, wire: seq<Message>, batches: seq<Batch>,
    used: set<u64>, history: seq<Message>, phantoms: P.Orders, unheard: set<u64>)

  datatype Action =
    | SubmitNew(msg: Message)
    | SubmitCancel(id: u64)
    | Send(i: nat)
    | SendFails(i: nat)
    | Timeout(id: u64)
    | Process
    | Deliver

  const START := System(FRESH_ENGINE, App(map[], map[], [], [], false), [], [], [], {}, [], map[], {})

  /**
   * The steps. A new order carries an unused id; a request is registered before it is sent and refused while its
   * id is in flight; requests are sent in any order; a failed send or a timeout drops the in-flight entry; events
   * are delivered in order.
   */
  predicate Enabled(s: System, a: Action, caps: Caps) {
    match a
    case SubmitNew(msg) => msg.NewOrder? && msg.orderId !in s.used && msg.orderId !in s.app.inflight
    case SubmitCancel(id) => id !in s.app.inflight
    case Send(i) => i < |s.outbox|
    case SendFails(i) => i < |s.outbox|
    case Timeout(id) => id in s.app.inflight
    case Process => s.wire != []
    case Deliver => s.batches != [] && s.batches[0].events != []
  }

  function After(b: Batch, caps: Caps): Engine
    requires caps.orders > 0
  {
    Dispatch(b.before, b.cmd, caps).engine
  }

  function PhantomsAfter(b: Batch, caps: Caps): P.Orders {
    b.phantoms + Phantom(b.before, b.cmd, caps)
  }

  /** What the projection shows once the batch has been handled. */
  function ShownAfter(b: Batch, caps: Caps): P.Orders
    requires caps.orders > 0
  {
    Shown(After(b, caps), PhantomsAfter(b, caps))
  }

  function Submitted(s: System, msg: Message): System
    requires msg.NewOrder? || msg.CancelOrder?
  {
    s.(app := Register(s.app, msg.orderId, EntryFor(msg)), outbox := s.outbox + [msg])
  }

  /** The in-flight entry of an id is gone. */
  function Dropping(s: System, id: u64): System {
    s.(app := s.app.(inflight := s.app.inflight - {id}))
  }

  /** The state after the engine has processed the next command. */
  function Processed(s: System, caps: Caps): System
    requires s.wire != [] && caps.orders > 0
  {
    var step := Dispatch(s.engine, s.wire[0], caps);
    s.(engine := step.engine, wire := s.wire[1..], history := s.history + [s.wire[0]],
       phantoms := s.phantoms + Phantom(s.engine, s.wire[0], caps),
       batches := s.batches + [Batch(s.wire[0], s.engine, s.phantoms, step.events)])
  }

  /** The state after the gateway has handled the next event. */
  function Delivered(s: System): System
    requires s.batches != [] && s.batches[0].events != []
  {
    var b := s.batches[0];
    var rest := if |b.events| == 1 then s.batches[1..] else [b.(events := b.events[1..])] + s.batches[1..];
    s.(app := HandleEvent(s.app, b.events[0]), batches := rest)
  }

  /** A request that could not be written is given up at once. */
  function Failing(s: System, i: nat): System
    requires i < |s.outbox|
  {
    Dropping(s, IdOf(s.outbox[i])).(outbox := RemoveAt(s.outbox, i))
  }

  function Next(s: System, a: Action, caps: Caps): System
    requires Enabled(s, a, caps) && caps.orders > 0
  {
    match a
    case SubmitNew(msg) => Submitted(s, msg).(used := s.used + {msg.orderId})
    case SubmitCancel(id) => Submitted(s, CancelOrder(id))
    case Send(i) => s.(outbox := RemoveAt(s.outbox, i), wire := s.wire + [s.outbox[i]])
    case SendFails(i) => Failing(s, i)
    case Timeout(id) => Dropping(s, id).(unheard := s.unheard + {id})
    case Process => Processed(s, caps)
    case Deliver => Delivered(s)
  }

  // ---- The invariant ---------------------------------------------------------

  ghost predicate IsCommand(msg: Message) {
    msg.NewOrder? || msg.CancelOrder?
  }

  /** The registered request is the command that was sent. */
  ghost predicate SameRequest(entry: InFlight, cmd: Message) {
    IsCommand(cmd) && entry.(fills := []) == EntryFor(cmd)
  }

  /** The id a command is about. */
  function IdOf(msg: Message): u64 {
    if msg.NewOrder? || msg.CancelOrder? then msg.orderId else 0
  }

  function Commands(batches: seq<Batch>): seq<Message> {
    seq(|batches|, i requires 0 <= i < |batches| => batches[i].cmd)
  }

  /** Every command between its submission and the delivery of its terminator. */
  function Pending(s: System): seq<Message> {
    Commands(s.batches) + s.wire + s.outbox
  }

  /** Two pending commands have different ids, unless the id timed out; no two are new orders with the same id. */
  ghost predicate Compatible(unheard: set<u64>, a: Message, b: Message) {
    && (IdOf(a) != IdOf(b) || IdOf(a) in unheard)
    && !(a.NewOrder? && b.NewOrder? && IdOf(a) == IdOf(b))
  }

  ghost predicate AllCompatible(unheard: set<u64>, msgs: seq<Message>) {
    forall i, j :: 0 <= i < |msgs| && 0 <= j < |msgs| && i != j ==> Compatible(unheard, msgs[i], msgs[j])
  }

  ghost predicate NewsUsed(used: set<u64>, msgs: seq<Message>) {
    forall i :: 0 <= i < |msgs| && msgs[i].NewOrder? ==> IdOf(msgs[i]) in used
  }

  /** A command the engine has not seen: registered as sent unless it timed out, and one it may be sent. */
  ghost predicate Waiting(s: System, msg: Message) {
    && IsCommand(msg) && CleanStep(s.engine, s.phantoms, msg)
    && (IdOf(msg) !in s.unheard ==> IdOf(msg) in s.app.inflight && s.app.inflight[IdOf(msg)] == EntryFor(msg))
  }

  ghost predicate AllWaiting(s: System, msgs: seq<Message>) {
    forall i :: 0 <= i < |msgs| ==> Waiting(s, msgs[i])
  }

  ghost predicate RequestsOk(s: System) {
    && AllCompatible(s.unheard, Pending(s)) && NewsUsed(s.used, Pending(s))
    && AllWaiting(s, s.wire) && AllWaiting(s, s.outbox)
  }

  /** The undelivered batches lead from engine state e and its phantoms to engine state `last` and its. */
  ghost predicate Links(e: Engine, ph: P.Orders, batches: seq<Batch>, last: Engine, phLast: P.Orders, caps: Caps)
    requires caps.orders > 0
    decreases |batches|
  {
    if batches == [] then e == last && ph == phLast
    else
      && batches[0].before == e && batches[0].phantoms == ph
      && Links(After(batches[0], caps), PhantomsAfter(batches[0], caps), batches[1..], last, phLast, caps)
  }

  ghost predicate AllTrades(events: seq<Message>) {
    forall i :: 0 <= i < |events| ==> events[i].Trade?
  }

  /** What is left of a batch is a suffix of its command's events, after nothing but trades. */
  ghost predicate SuffixOk(b: Batch, caps: Caps)
    requires caps.orders > 0
  {
    var all := Dispatch(b.before, b.cmd, caps).events;
    && IsCommand(b.cmd) && BatchFor(b.events, IdOf(b.cmd)) && |b.events| <= |all|
    && b.events == all[|all| - |b.events|..] && AllTrades(all[..|all| - |b.events|])
  }

  /** The fills collected so far are the trades delivered so far. */
  ghost predicate EntryOk(inflight: map<u64, InFlight>, b: Batch, caps: Caps)
    requires caps.orders > 0
  {
    var id, all := IdOf(b.cmd), Dispatch(b.before, b.cmd, caps).events;
    && id in inflight && SameRequest(inflight[id], b.cmd)
    && |b.events| <= |all| && AllTrades(all[..|all| - |b.events|])
    && inflight[id].fills == FillsOf(all[..|all| - |b.events|])
  }

  /** Handling this batch takes the projection `m` to the book after its command, apart from `unheard`. */
  ghost predicate BatchOk(m: P.Orders, unheard: set<u64>, inflight: map<u64, InFlight>, b: Batch, caps: Caps)
    requires caps.orders > 0
  {
    && SuffixOk(b, caps) && ExactBut(m, unheard, b.events)
    && (if IdOf(b.cmd) in unheard then ReduceAll(m, b.events) - unheard == ShownAfter(b, caps) - unheard
        else
          && EntryOk(inflight, b, caps)
          && Effect(m, inflight[IdOf(b.cmd)], IdOf(b.cmd), b.events) - unheard == ShownAfter(b, caps) - unheard)
  }

  ghost predicate Chain(
    m: P.Orders, unheard: set<u64>, inflight: map<u64, InFlight>, batches: seq<Batch>, caps: Caps)
    requires caps.orders > 0
    decreases |batches|
  {
    batches == []
    || (BatchOk(m, unheard, inflight, batches[0], caps)
        && Chain(ShownAfter(batches[0], caps), unheard, inflight, batches[1..], caps))
  }

  ghost predicate EngineSide(s: System, caps: Caps) {
    && EngineOk(s.engine, caps) && UniqueIds(s.engine)
    && (forall id :: IsResting(s.engine, id) ==> id in s.used)
    && s.phantoms.Keys <= s.used && Separate(s.engine, s.phantoms)
  }

  /** How many commands have had their terminator delivered. */
  function Done(s: System): int {
    |s.history| - |s.batches|
  }

  /** The journal record of a command. */
  function RecordOf(cmd: Message): Record {
    if cmd.NewOrder? then New(cmd.orderId, cmd.side, cmd.price, cmd.quantity) else Cancel(IdOf(cmd))
  }

  /** The records of the accepted commands of a run. */
  function Records(e: Engine, msgs: seq<Message>, caps: Caps): seq<Record>
    requires caps.orders > 0
    decreases |msgs|
  {
    if msgs == [] then []
    else
      var rest := Records(Dispatch(e, msgs[0], caps).engine, msgs[1..], caps);
      (if Effective(e, msgs[0]) then [RecordOf(msgs[0])] else []) + rest
  }

  /** The records of ids that did not time out. */
  function Heard(records: seq<Record>, unheard: set<u64>): seq<Record> {
    if records == [] then []
    else
      var n := |records| - 1;
      Heard(records[..n], unheard) + (if records[n].id in unheard then [] else [records[n]])
  }

  /** The state of the engine when the next undelivered command was about to be processed. */
  function Seen(s: System, caps: Caps): Engine
    requires caps.orders > 0 && Done(s) >= 0
  {
    Run(FRESH_ENGINE, s.history[..Done(s)], caps)
  }

  /** The phantoms at that moment. */
  function SeenPhantoms(s: System, caps: Caps): P.Orders
    requires caps.orders > 0 && Done(s) >= 0
  {
    Phantoms(FRESH_ENGINE, s.history[..Done(s)], caps)
  }

  /** The records of the answered commands. */
  function SeenRecords(s: System, caps: Caps): seq<Record>
    requires caps.orders > 0 && Done(s) >= 0
  {
    Records(FRESH_ENGINE, s.history[..Done(s)], caps)
  }

  /**
   * The projection and the journal lag the engine by exactly the undelivered batches, apart from ids that timed out.
   * When the head batch is partly delivered the projection is part of the way from Seen to the book after its command.
   */
  ghost predicate Inv(s: System, caps: Caps) {
    && caps.orders > 0 && Done(s) >= 0 && !s.app.restoring
    && EngineSide(s, caps) && RequestsOk(s) && Commands(s.batches) == s.history[Done(s)..]
    && Links(Seen(s, caps), SeenPhantoms(s, caps), s.batches, s.engine, s.phantoms, caps)
    && Chain(s.app.orders, s.unheard, s.app.inflight, s.batches, caps)
    && (s.batches == [] ==> s.app.orders - s.unheard == Shown(s.engine, s.phantoms) - s.unheard)
    && Heard(s.app.journal, s.unheard) == Heard(SeenRecords(s, caps), s.unheard)
  }

  // ---- Lists of batches --------------------------------------------------------

  lemma {:induction false} ChainIds(
    m: P.Orders, unheard: set<u64>, inflight: map<u64, InFlight>, batches: seq<Batch>, caps: Caps, i: nat)
    requires caps.orders > 0 && Chain(m, unheard, inflight, batches, caps) && i < |batches|
    ensures IsCommand(batches[i].cmd)
    ensures IdOf(batches[i].cmd) in inflight || IdOf(batches[i].cmd) in unheard
    decreases |batches|
  {
    hide ShownAfter;
    hide Effect;
    hide Dispatch;
    if i > 0 {
      ChainIds(ShownAfter(batches[0], caps), unheard, inflight, batches[1..], caps, i - 1);
    }
  }

  /** The in-flight entries of all heard commands of the batches are the same. */
  ghost predicate SameEntries(
    unheard: set<u64>, inflight: map<u64, InFlight>, inflight': map<u64, InFlight>, batches: seq<Batch>)
  {
    forall i :: 0 <= i < |batches| && IdOf(batches[i].cmd) !in unheard && IdOf(batches[i].cmd) in inflight ==>
      IdOf(batches[i].cmd) in inflight' && inflight'[IdOf(batches[i].cmd)] == inflight[IdOf(batches[i].cmd)]
  }

  /** A chain only looks at the in-flight entries of its own heard commands. */
  lemma {:induction false} ChainFrame(
    m: P.Orders, unheard: set<u64>, inflight: map<u64, InFlight>, inflight': map<u64, InFlight>,
    batches: seq<Batch>, caps: Caps)
    requires caps.orders > 0 && Chain(m, unheard, inflight, batches, caps)
    requires SameEntries(unheard, inflight, inflight', batches)
    ensures Chain(m, unheard, inflight', batches, caps)
    decreases |batches|
  {
    hide Dispatch;
    hide Effect;
    hide ReduceAll;
    hide ShownAfter;
    if batches != [] {
      ChainFrame(ShownAfter(batches[0], caps), unheard, inflight, inflight', batches[1..], caps);
    }
  }

  /** A chain only looks at the projection beyond the unheard ids. */
  lemma ChainBeyond(
    m: P.Orders, m': P.Orders, unheard: set<u64>, inflight: map<u64, InFlight>, batches: seq<Batch>, caps: Caps)
    requires caps.orders > 0 && Chain(m, unheard, inflight, batches, caps) && m - unheard == m' - unheard
    ensures Chain(m', unheard, inflight, batches, caps)
  {
    hide Dispatch;
    hide Effect;
    hide ReduceAll;
    hide ExactBut;
    hide ShownAfter;
    if batches != [] {
      var b := batches[0];
      var entry := if IdOf(b.cmd) in inflight then inflight[IdOf(b.cmd)] else InFlight(Buy, 0, 0, true, []);
      EffectBeyond(m, m', unheard, entry, IdOf(b.cmd), b.events);
    }
  }

  /** A timeout of `id` leaves the chain in place apart from that id. */
  lemma BatchTimesOut(
    m: P.Orders, unheard: set<u64>, inflight: map<u64, InFlight>, b: Batch, id: u64, caps: Caps)
    requires caps.orders > 0 && BatchOk(m, unheard, inflight, b, caps)
    ensures BatchOk(m, unheard + {id}, inflight - {id}, b, caps)
  {
    hide Dispatch;
    hide Effect;
    hide ReduceAll;
    hide ShownAfter;
    hide ExactBut;
    var more, own := unheard + {id}, IdOf(b.cmd);
    ExactButMore(m, unheard, more, b.events);
    if own in unheard {
      MoreLeftOut(ReduceAll(m, b.events), ShownAfter(b, caps), unheard, more);
    } else {
      var effect := Effect(m, inflight[own], own, b.events);
      MoreLeftOut(effect, ShownAfter(b, caps), unheard, more);
      if own == id {
        EffectIsTrades(m, inflight[own], own, b.events);
        MoreLeftOut(effect, ReduceAll(m, b.events), {id}, more);
      }
    }
  }

  lemma {:induction false} ChainTimesOut(
    m: P.Orders, unheard: set<u64>, inflight: map<u64, InFlight>, batches: seq<Batch>, id: u64, caps: Caps)
    requires caps.orders > 0 && Chain(m, unheard, inflight, batches, caps)
    ensures Chain(m, unheard + {id}, inflight - {id}, batches, caps)
    decreases |batches|
  {
    hide BatchOk;
    hide ShownAfter;
    if batches != [] {
      BatchTimesOut(m, unheard, inflight, batches[0], id, caps);
      ChainTimesOut(ShownAfter(batches[0], caps), unheard, inflight, batches[1..], id, caps);
    }
  }

  lemma {:induction false} ChainAppend(
    e: Engine, ph: P.Orders, m: P.Orders, unheard: set<u64>, inflight: map<u64, InFlight>,
    batches: seq<Batch>, b: Batch, caps: Caps)
    requires caps.orders > 0 && Links(e, ph, batches, b.before, b.phantoms, caps)
    requires Chain(m, unheard, inflight, batches, caps)
    requires batches == [] ==> m - unheard == Shown(b.before, b.phantoms) - unheard
    requires BatchOk(Shown(b.before, b.phantoms), unheard, inflight, b, caps)
    ensures Links(e, ph, batches + [b], After(b, caps), PhantomsAfter(b, caps), caps)
    ensures Chain(m, unheard, inflight, batches + [b], caps)
    decreases |batches|
  {
    hide BatchOk;
    hide After;
    hide PhantomsAfter;
    hide Shown;
    if batches == [] {
      assert ([] + [b])[1..] == [];
      assert Chain(Shown(b.before, b.phantoms), unheard, inflight, [b], caps) by { assert [b][1..] == []; }
      ChainBeyond(Shown(b.before, b.phantoms), m, unheard, inflight, [b], caps);
      assert [] + [b] == [b];
    } else {
      var e', ph', rest := After(batches[0], caps), PhantomsAfter(batches[0], caps), batches[1..];
      ChainAppend(e', ph', Shown(e', ph'), unheard, inflight, rest, b, caps);
      assert (batches + [b])[1..] == rest + [b];
    }
  }

  lemma InvPending(s: System, caps: Caps)
    requires Inv(s, caps)
    ensures caps.orders > 0 && RequestsOk(s) && Chain(s.app.orders, s.unheard, s.app.inflight, s.batches, caps)
  {
    hide EngineSide;
    hide RequestsOk;
    hide Links;
    hide Chain;
  }

  lemma SentWaiting(s: System, i: nat)
    requires RequestsOk(s) && i < |s.wire + s.outbox|
    ensures Waiting(s, (s.wire + s.outbox)[i])
  {
    var n := |s.wire|;
    assert (s.wire + s.outbox)[i] == if i < n then s.wire[i] else s.outbox[i - n];
  }

  lemma PendingInFlight(s: System, caps: Caps, i: nat)
    requires Inv(s, caps) && i < |Pending(s)|
    ensures IdOf(Pending(s)[i]) in s.app.inflight || IdOf(Pending(s)[i]) in s.unheard
  {
    hide Inv;
    hide RequestsOk;
    hide Chain;
    InvPending(s, caps);
    var n := |s.batches|;
    if i < n {
      ChainIds(s.app.orders, s.unheard, s.app.inflight, s.batches, caps, i);
    } else {
      SentWaiting(s, i - n);
    }
  }

  // ---- The journal beyond the unheard ids -------------------------------------------

  lemma HeardAppend(records: seq<Record>, r: Record, unheard: set<u64>)
    ensures Heard(records + [r], unheard) == Heard(records, unheard) + (if r.id in unheard then [] else [r])
  {
    assert (records + [r])[..|records|] == records;
  }

  lemma {:induction false} HeardLess(records: seq<Record>, unheard: set<u64>, more: set<u64>)
    requires unheard <= more
    ensures Heard(Heard(records, unheard), more) == Heard(records, more)
  {
    if records != [] {
      var n := |records| - 1;
      HeardLess(records[..n], unheard, more);
      if records[n].id in unheard {
        assert Heard(records[..n], unheard) + [] == Heard(records[..n], unheard);
        assert Heard(records[..n], more) + [] == Heard(records[..n], more);
      } else {
        HeardAppend(Heard(records[..n], unheard), records[n], more);
      }
    }
  }

  lemma {:induction false} HeardAll(records: seq<Record>)
    ensures Heard(records, {}) == records
  {
    if records != [] {
      HeardAll(records[..|records| - 1]);
    }
  }

  // ---- Submitting, sending and dropping ------------------------------------------------

  lemma CompatibleAppend(unheard: set<u64>, msgs: seq<Message>, msg: Message)
    requires AllCompatible(unheard, msgs)
    requires forall i :: 0 <= i < |msgs| ==> Compatible(unheard, msgs[i], msg)
    ensures AllCompatible(unheard, msgs + [msg])
  {
  }

  lemma SubmitRequests(s: System, msg: Message, used: set<u64>, caps: Caps)
    requires Inv(s, caps) && IsCommand(msg) && IdOf(msg) !in s.app.inflight && s.used <= used
    requires (msg.NewOrder? ==> IdOf(msg) in used && IdOf(msg) !in s.used) && CleanStep(s.engine, s.phantoms, msg)
    ensures RequestsOk(Submitted(s, msg).(used := used))
  {
    hide EngineSide;
    hide Links;
    hide Chain;
    hide CleanStep;
    hide Shown;
    var s' := Submitted(s, msg).(used := used);
    assert Pending(s') == Pending(s) + [msg];
    forall i | 0 <= i < |Pending(s)| ensures Compatible(s.unheard, Pending(s)[i], msg) {
      PendingInFlight(s, caps, i);
    }
    CompatibleAppend(s.unheard, Pending(s), msg);
    forall i | 0 <= i < |s'.wire| ensures Waiting(s', s'.wire[i]) {
      assert Waiting(s, s.wire[i]);
    }
    forall i | 0 <= i < |s'.outbox| ensures Waiting(s', s'.outbox[i]) {
      assert i < |s.outbox| ==> Waiting(s, s.outbox[i]);
    }
  }

  lemma SubmitKeepsInv(s: System, msg: Message, used: set<u64>, caps: Caps)
    requires Inv(s, caps) && IsCommand(msg) && IdOf(msg) !in s.app.inflight && s.used <= used
    requires (msg.NewOrder? ==> IdOf(msg) in used && IdOf(msg) !in s.used) && CleanStep(s.engine, s.phantoms, msg)
    ensures Inv(Submitted(s, msg).(used := used), caps)
  {
    hide RequestsOk;
    hide Links;
    hide Chain;
    hide IsResting;
    hide EngineOk;
    hide Shown;
    hide Heard;
    SubmitRequests(s, msg, used, caps);
    ChainFrame(s.app.orders, s.unheard, s.app.inflight, Submitted(s, msg).app.inflight, s.batches, caps);
  }

  /** Where the j-th pending command was before the i-th request was sent, with n commands ahead of the outbox. */
  function CameFrom(n: nat, i: nat, j: nat): nat {
    if j < n then j else if j == n then n + i else if j - n <= i then j - 1 else j
  }

  lemma SendPending(s: System, i: nat, caps: Caps)
    requires caps.orders > 0 && i < |s.outbox|
    ensures var n, s' := |s.batches| + |s.wire|, Next(s, Send(i), caps);
      && |Pending(s')| == |Pending(s)|
      && forall j :: 0 <= j < |Pending(s')| ==>
           CameFrom(n, i, j) < |Pending(s)| && Pending(s')[j] == Pending(s)[CameFrom(n, i, j)]
  {
  }

  lemma SendKeepsInv(s: System, i: nat, caps: Caps)
    requires caps.orders > 0 && Inv(s, caps) && i < |s.outbox|
    ensures Inv(Next(s, Send(i), caps), caps)
  {
    hide Links;
    hide Chain;
    hide EngineSide;
    hide Pending;
    hide CleanStep;
    hide Shown;
    hide Heard;
    var n, s' := |s.batches| + |s.wire|, Next(s, Send(i), caps);
    SendPending(s, i, caps);
    assert AllCompatible(s.unheard, Pending(s')) by {
      forall a, b | 0 <= a < |Pending(s')| && 0 <= b < |Pending(s')| && a != b
        ensures Compatible(s.unheard, Pending(s')[a], Pending(s')[b])
      {
        assert CameFrom(n, i, a) != CameFrom(n, i, b);
      }
    }
    forall j | 0 <= j < |s'.wire| ensures Waiting(s', s'.wire[j]) {
      assert j < |s.wire| ==> Waiting(s, s.wire[j]);
      assert Waiting(s, s.outbox[i]);
    }
    forall j | 0 <= j < |s'.outbox| ensures Waiting(s', s'.outbox[j]) {
      assert Waiting(s, s.outbox[if j < i then j else j + 1]);
    }
    EngineSideKept(s, s', caps);
  }

  /** Where the j-th pending command was before the i-th request of the outbox was given up. */
  function StoodAt(n: nat, i: nat, j: nat): nat {
    if j < n + i then j else j + 1
  }

  lemma FailPending(s: System, i: nat)
    requires i < |s.outbox|
    ensures var n, s' := |s.batches| + |s.wire|, Failing(s, i);
      && |Pending(s')| == |Pending(s)| - 1 && n + i < |Pending(s)| && Pending(s)[n + i] == s.outbox[i]
      && (forall j :: 0 <= j < |s.batches| ==> Pending(s)[j] == s.batches[j].cmd)
      && forall j :: 0 <= j < |Pending(s')| ==>
           StoodAt(n, i, j) < |Pending(s)| && Pending(s')[j] == Pending(s)[StoodAt(n, i, j)]
  {
  }

  lemma FailCompatible(s: System, i: nat)
    requires AllCompatible(s.unheard, Pending(s)) && NewsUsed(s.used, Pending(s)) && i < |s.outbox|
    ensures var s' := Failing(s, i);
      && AllCompatible(s.unheard, Pending(s')) && NewsUsed(s.used, Pending(s'))
      && forall j :: 0 <= j < |Pending(s')| ==>
           IdOf(Pending(s')[j]) != IdOf(s.outbox[i]) || IdOf(Pending(s')[j]) in s.unheard
  {
    hide Pending;
    var n, s' := |s.batches| + |s.wire|, Failing(s, i);
    FailPending(s, i);
    forall a, b | 0 <= a < |Pending(s')| && 0 <= b < |Pending(s')| && a != b
      ensures Compatible(s.unheard, Pending(s')[a], Pending(s')[b])
    {
      assert StoodAt(n, i, a) != StoodAt(n, i, b);
    }
    forall j | 0 <= j < |Pending(s')|
      ensures IdOf(Pending(s')[j]) != IdOf(s.outbox[i]) || IdOf(Pending(s')[j]) in s.unheard
    {
      assert Compatible(s.unheard, Pending(s)[StoodAt(n, i, j)], Pending(s)[n + i]);
    }
  }

  lemma FailRequests(s: System, i: nat)
    requires RequestsOk(s) && i < |s.outbox|
    ensures RequestsOk(Failing(s, i))
    ensures SameEntries(s.unheard, s.app.inflight, Failing(s, i).app.inflight, s.batches)
  {
    hide Pending;
    hide CleanStep;
    hide AllCompatible;
    hide NewsUsed;
    var n, s', id := |s.batches| + |s.wire|, Failing(s, i), IdOf(s.outbox[i]);
    FailPending(s, i);
    FailCompatible(s, i);
    forall j | 0 <= j < |s'.wire| ensures Waiting(s', s'.wire[j]) {
      assert Waiting(s, s.wire[j]);
      WirePending(s', j);
    }
    forall j | 0 <= j < |s'.outbox| ensures Waiting(s', s'.outbox[j]) {
      assert Waiting(s, s.outbox[if j < i then j else j + 1]);
      OutboxPending(s', j);
    }
    forall j | 0 <= j < |s.batches|
      ensures IdOf(s.batches[j].cmd) != id || IdOf(s.batches[j].cmd) in s.unheard
    {
      assert StoodAt(n, i, j) == j && Pending(s')[j] == s.batches[j].cmd;
    }
  }

  lemma WirePending(s: System, j: nat)
    requires j < |s.wire|
    ensures |s.batches| + j < |Pending(s)| && Pending(s)[|s.batches| + j] == s.wire[j]
  {
  }

  lemma OutboxPending(s: System, j: nat)
    requires j < |s.outbox|
    ensures var k := |s.batches| + |s.wire| + j; k < |Pending(s)| && Pending(s)[k] == s.outbox[j]
  {
  }

  lemma FailKeepsInv(s: System, i: nat, caps: Caps)
    requires caps.orders > 0 && Inv(s, caps) && i < |s.outbox|
    ensures Inv(Failing(s, i), caps)
  {
    hide RequestsOk;
    hide EngineSide;
    hide Links;
    hide Chain;
    hide Shown;
    hide Heard;
    var s' := Failing(s, i);
    FailRequests(s, i);
    ChainFrame(s.app.orders, s.unheard, s.app.inflight, s'.app.inflight, s.batches, caps);
    EngineSideKept(s, s', caps);
  }

  lemma TimeoutRequests(s: System, id: u64)
    requires RequestsOk(s)
    ensures RequestsOk(Dropping(s, id).(unheard := s.unheard + {id}))
  {
    hide CleanStep;
    var s' := Dropping(s, id).(unheard := s.unheard + {id});
    assert Pending(s') == Pending(s);
    forall j | 0 <= j < |s.wire| ensures Waiting(s', s'.wire[j]) {
      assert Waiting(s, s.wire[j]);
    }
    forall j | 0 <= j < |s.outbox| ensures Waiting(s', s'.outbox[j]) {
      assert Waiting(s, s.outbox[j]);
    }
    forall i, j | 0 <= i < |Pending(s)| && 0 <= j < |Pending(s)| && i != j
      ensures Compatible(s'.unheard, Pending(s)[i], Pending(s)[j])
    {
      assert Compatible(s.unheard, Pending(s)[i], Pending(s)[j]);
    }
  }

  lemma TimeoutKeepsInv(s: System, id: u64, caps: Caps)
    requires Inv(s, caps) && Enabled(s, Timeout(id), caps)
    ensures Inv(Next(s, Timeout(id), caps), caps)
  {
    hide RequestsOk;
    hide EngineSide;
    hide Links;
    hide Chain;
    hide Shown;
    hide Heard;
    var s', more := Next(s, Timeout(id), caps), s.unheard + {id};
    TimeoutRequests(s, id);
    ChainTimesOut(s.app.orders, s.unheard, s.app.inflight, s.batches, id, caps);
    EngineSideKept(s, s', caps);
    HeardLess(s.app.journal, s.unheard, more);
    HeardLess(SeenRecords(s, caps), s.unheard, more);
    if s.batches == [] {
      MoreLeftOut(s.app.orders, Shown(s.engine, s.phantoms), s.unheard, more);
    }
  }

  // ---- The engine processes a command ---------------------------------------------

  lemma {:induction false} RunAppend(e: Engine, msgs: seq<Message>, msg: Message, caps: Caps)
    requires caps.orders > 0
    ensures Run(e, msgs + [msg], caps) == Dispatch(Run(e, msgs, caps), msg, caps).engine
    ensures Records(e, msgs + [msg], caps)
         == Records(e, msgs, caps) + if Effective(Run(e, msgs, caps), msg) then [RecordOf(msg)] else []
    ensures Phantoms(e, msgs + [msg], caps) == Phantoms(e, msgs, caps) + Phantom(Run(e, msgs, caps), msg, caps)
    decreases |msgs|
  {
    hide Dispatch;
    hide Effective;
    hide Phantom;
    var all := msgs + [msg];
    if msgs == [] {
      assert all[1..] == [];
      assert Phantom(e, msg, caps) + map[] == map[] + Phantom(e, msg, caps);
    } else {
      var e' := Dispatch(e, msgs[0], caps).engine;
      RunAppend(e', msgs[1..], msg, caps);
      assert all[1..] == msgs[1..] + [msg];
      MapRegroup(Phantom(e, msgs[0], caps), Phantoms(e', msgs[1..], caps), Phantom(Run(e, msgs, caps), msg, caps));
    }
  }

  lemma HeadWaiting(s: System, caps: Caps)
    requires Inv(s, caps) && s.wire != []
    ensures Waiting(s, s.wire[0]) && (s.wire[0].NewOrder? ==> IdOf(s.wire[0]) in s.used)
  {
    hide EngineSide;
    hide Links;
    hide Chain;
    hide Shown;
    WirePending(s, 0);
  }

  lemma ProcessEngineSide(s: System, caps: Caps)
    requires Inv(s, caps) && s.wire != []
    ensures EngineSide(Processed(s, caps), caps)
  {
    hide RequestsOk;
    hide Links;
    hide Chain;
    hide Dispatch;
    hide EngineOk;
    hide IsResting;
    hide UniqueIds;
    hide Heard;
    var msg := s.wire[0];
    HeadWaiting(s, caps);
    DispatchOk(s.engine, msg, caps);
    StepUnique(s.engine, msg, caps);
    forall id | IsResting(Dispatch(s.engine, msg, caps).engine, id) ensures id in s.used {
      StepRests(s.engine, msg, caps, id);
    }
    StepSeparate(s.engine, s.phantoms, msg, caps);
  }

  /** A command that waits behind another one goes on waiting. */
  lemma StillWaiting(s: System, msg: Message, caps: Caps)
    requires Inv(s, caps) && s.wire != [] && Waiting(s, msg) && Compatible(s.unheard, s.wire[0], msg)
    ensures Waiting(Processed(s, caps), msg)
  {
    hide RequestsOk;
    hide Links;
    hide Chain;
    hide Dispatch;
    hide EngineOk;
    hide IsResting;
    hide Heard;
    if msg.NewOrder? && IsResting(Dispatch(s.engine, s.wire[0], caps).engine, IdOf(msg)) {
      StepRests(s.engine, s.wire[0], caps, IdOf(msg));
    }
  }

  lemma ProcessRequests(s: System, caps: Caps)
    requires Inv(s, caps) && s.wire != []
    ensures RequestsOk(Processed(s, caps))
  {
    hide Waiting;
    hide EngineSide;
    hide Chain;
    hide Links;
    hide Shown;
    hide Heard;
    var s' := Processed(s, caps);
    assert Pending(s') == Pending(s);
    WirePending(s, 0);
    forall j | 0 <= j < |s'.wire| ensures Waiting(s', s'.wire[j]) {
      WirePending(s, j + 1);
      assert s'.wire[j] == s.wire[j + 1];
      assert Compatible(s.unheard, Pending(s)[|s.batches|], Pending(s)[|s.batches| + (j + 1)]);
      StillWaiting(s, s.wire[j + 1], caps);
    }
    forall j | 0 <= j < |s'.outbox| ensures Waiting(s', s'.outbox[j]) {
      OutboxPending(s, j);
      assert Compatible(s.unheard, Pending(s)[|s.batches|], Pending(s)[|s.batches| + |s.wire| + j]);
      StillWaiting(s, s.outbox[j], caps);
    }
  }

  /** A freshly processed command leaves a batch that leads from the old book to the new one. */
  lemma NewBatchOk(s: System, caps: Caps)
    requires caps.orders > 0 && s.wire != [] && Inv(s, caps)
    ensures var b := Batch(s.wire[0], s.engine, s.phantoms, Dispatch(s.engine, s.wire[0], caps).events);
      BatchOk(Shown(s.engine, s.phantoms), s.unheard, s.app.inflight, b, caps)
  {
    hide Shown;
    hide Phantom;
    hide EngineOk;
    hide UniqueIds;
    hide IsResting;
    hide Effect;
    hide Exact;
    hide ExactBut;
    hide ReduceAll;
    hide Chain;
    hide Links;
    hide RequestsOk;
    hide Dispatch;
    hide Heard;
    var cmd, m, all := s.wire[0], Shown(s.engine, s.phantoms), Dispatch(s.engine, s.wire[0], caps).events;
    HeadWaiting(s, caps);
    CommandEffect(s.engine, cmd, s.phantoms, caps);
    ExactIsExactBut(m, s.unheard, all);
    assert all == all[0..] && all[..0] == [];
    if IdOf(cmd) in s.unheard {
      EffectIsTrades(m, EntryFor(cmd), IdOf(cmd), all);
      MoreLeftOut(Effect(m, EntryFor(cmd), IdOf(cmd), all), ReduceAll(m, all), {IdOf(cmd)}, s.unheard);
    }
  }

  lemma CommandsAppend(batches: seq<Batch>, b: Batch)
    ensures Commands(batches + [b]) == Commands(batches) + [b.cmd]
  {
  }

  lemma SlicesAppend(history: seq<Message>, msg: Message, n: nat)
    requires n <= |history|
    ensures (history + [msg])[..n] == history[..n] && (history + [msg])[n..] == history[n..] + [msg]
  {
  }

  lemma ProcessKeepsInv(s: System, caps: Caps)
    requires Inv(s, caps) && Enabled(s, Process, caps)
    ensures Inv(Next(s, Process, caps), caps)
  {
    hide Shown;
    hide EngineSide;
    hide RequestsOk;
    hide BatchOk;
    hide Heard;
    hide Records;
    hide Links;
    hide Chain;
    hide Dispatch;
    hide Phantom;
    hide Commands;
    var s' := Processed(s, caps);
    var b := Batch(s.wire[0], s.engine, s.phantoms, Dispatch(s.engine, s.wire[0], caps).events);
    ProcessEngineSide(s, caps);
    ProcessRequests(s, caps);
    NewBatchOk(s, caps);
    ChainAppend(Seen(s, caps), SeenPhantoms(s, caps), s.app.orders, s.unheard, s.app.inflight, s.batches, b, caps);
    CommandsAppend(s.batches, b);
    SlicesAppend(s.history, s.wire[0], Done(s));
  }

  // ---- The gateway handles an event ----------------------------------------------

  /** Everywhere but at `id` the in-flight entries are the same. */
  ghost predicate SameElsewhere(inflight: map<u64, InFlight>, inflight': map<u64, InFlight>, id: u64) {
    forall x :: x in inflight && x != id ==> x in inflight' && inflight'[x] == inflight[x]
  }

  lemma {:induction false} TailRequests(s: System, app: App, batches: seq<Batch>, n: nat, caps: Caps)
    requires Inv(s, caps) && s.batches != [] && n <= 1 && Commands(batches) == Commands(s.batches)[n..]
    requires SameElsewhere(s.app.inflight, app.inflight, IdOf(s.batches[0].cmd))
    ensures RequestsOk(s.(app := app, batches := batches))
    ensures SameEntries(s.unheard, s.app.inflight, app.inflight, s.batches[1..])
  {
    hide EngineSide;
    hide Chain;
    hide Links;
    hide CleanStep;
    hide Shown;
    hide Heard;
    var s', head := s.(app := app, batches := batches), s.batches[0].cmd;
    assert Pending(s') == Pending(s)[n..];
    assert Pending(s)[0] == head;
    forall k | 0 < k < |Pending(s)| ensures IdOf(Pending(s)[k]) != IdOf(head) || IdOf(Pending(s)[k]) in s.unheard {
      assert Compatible(s.unheard, Pending(s)[k], Pending(s)[0]);
    }
    forall j | 0 <= j < |s.wire| ensures Waiting(s', s.wire[j]) {
      assert Waiting(s, s.wire[j]);
      WirePending(s, j);
    }
    forall j | 0 <= j < |s.outbox| ensures Waiting(s', s.outbox[j]) {
      assert Waiting(s, s.outbox[j]);
      OutboxPending(s, j);
    }
    forall j | 0 < j < |s.batches| ensures IdOf(s.batches[j].cmd) != IdOf(head) || IdOf(s.batches[j].cmd) in s.unheard {
      assert Pending(s)[j] == s.batches[j].cmd;
    }
  }

  lemma SameShownAfter(b: Batch, events: seq<Message>, caps: Caps)
    requires caps.orders > 0
    ensures ShownAfter(b.(events := events), caps) == ShownAfter(b, caps)
  {
  }

  /** Dropping a delivered trade from a batch leaves a batch. */
  lemma SuffixTail(b: Batch, caps: Caps)
    requires caps.orders > 0 && SuffixOk(b, caps) && |b.events| > 1
    ensures b.events[0].Trade? && b.events[0].incomingId == IdOf(b.cmd) && SuffixOk(b.(events := b.events[1..]), caps)
  {
    hide Dispatch;
    var all := Dispatch(b.before, b.cmd, caps).events;
    var k := |all| - |b.events|;
    assert all[k] == b.events[0] && b.events[1..] == all[k + 1..];
    assert all[..k + 1] == all[..k] + [all[k]];
  }

  lemma EntryTail(inflight: map<u64, InFlight>, b: Batch, caps: Caps)
    requires caps.orders > 0 && SuffixOk(b, caps) && |b.events| > 1 && EntryOk(inflight, b, caps) && b.events[0].Trade?
    ensures var id := IdOf(b.cmd);
      var entry' := inflight[id].(fills := inflight[id].fills + [FillOf(b.events[0])]);
      EntryOk(inflight[id := entry'], b.(events := b.events[1..]), caps)
  {
    hide Dispatch;
    var all := Dispatch(b.before, b.cmd, caps).events;
    var k := |all| - |b.events|;
    assert all[k] == b.events[0];
    assert all[..k + 1] == all[..k] + [all[k]];
    assert FillsOf(all[..k + 1]) == FillsOf(all[..k]) + [FillOf(all[k])];
  }

  /** A delivered trade takes its batch one event further. */
  lemma TradeBatchOk(app: App, unheard: set<u64>, b: Batch, caps: Caps)
    requires caps.orders > 0 && BatchOk(app.orders, unheard, app.inflight, b, caps) && |b.events| > 1
    ensures var app' := HandleEvent(app, b.events[0]);
      && BatchOk(app'.orders, unheard, app'.inflight, b.(events := b.events[1..]), caps)
      && app' == app.(orders := app'.orders, inflight := app'.inflight)
      && SameElsewhere(app.inflight, app'.inflight, IdOf(b.cmd))
  {
    hide Dispatch;
    hide ShownAfter;
    hide Residual;
    hide P.Reduce;
    hide SuffixOk;
    hide EntryOk;
    SuffixTail(b, caps);
    SuffixHead(b, caps);
    SameShownAfter(b, b.events[1..], caps);
    if IdOf(b.cmd) !in unheard {
      EntryTail(app.inflight, b, caps);
      EntryThere(app.inflight, b, caps);
    }
  }

  lemma SuffixHead(b: Batch, caps: Caps)
    requires caps.orders > 0 && SuffixOk(b, caps)
    ensures BatchFor(b.events, IdOf(b.cmd)) && IsCommand(b.cmd)
  {
  }

  lemma EntryThere(inflight: map<u64, InFlight>, b: Batch, caps: Caps)
    requires caps.orders > 0 && EntryOk(inflight, b, caps)
    ensures IdOf(b.cmd) in inflight && SameRequest(inflight[IdOf(b.cmd)], b.cmd)
  {
  }

  lemma EngineSideKept(s: System, s': System, caps: Caps)
    requires EngineSide(s, caps) && s'.engine == s.engine && s'.used == s.used && s'.phantoms == s.phantoms
    ensures EngineSide(s', caps)
  {
    hide EngineOk;
    hide UniqueIds;
    hide IsResting;
  }

  /** The rest of the batches after the head, seen from any projection that agrees with the book after the head. */
  lemma TailChain(s: System, app: App, caps: Caps)
    requires Inv(s, caps) && s.batches != []
    requires SameElsewhere(s.app.inflight, app.inflight, IdOf(s.batches[0].cmd))
    ensures Chain(ShownAfter(s.batches[0], caps), s.unheard, app.inflight, s.batches[1..], caps)
  {
    hide EngineSide;
    hide RequestsOk;
    hide Links;
    hide BatchOk;
    hide ShownAfter;
    hide Shown;
    hide Heard;
    assert Commands(s.batches) == Commands(s.batches)[0..];
    TailRequests(s, app, s.batches, 0, caps);
    ChainFrame(ShownAfter(s.batches[0], caps), s.unheard, s.app.inflight, app.inflight, s.batches[1..], caps);
  }

  lemma DeliverTradeKeepsInv(s: System, caps: Caps)
    requires caps.orders > 0 && Inv(s, caps) && s.batches != [] && |s.batches[0].events| > 1
    ensures Inv(Delivered(s), caps)
  {
    hide EngineSide;
    hide RequestsOk;
    hide BatchOk;
    hide HandleEvent;
    hide Dispatch;
    hide Shown;
    hide Heard;
    var b, s' := s.batches[0], Delivered(s);
    var b' := b.(events := b.events[1..]);
    TradeBatchOk(s.app, s.unheard, b, caps);
    SameShownAfter(b, b'.events, caps);
    TailChain(s, s'.app, caps);
    assert s'.batches[1..] == s.batches[1..] && s'.batches[0] == b';
    assert Commands(s'.batches) == Commands(s.batches)[0..];
    TailRequests(s, s'.app, s'.batches, 0, caps);
    EngineSideKept(s, s', caps);
  }

  /** The terminator says whether the command was accepted. */
  lemma LastEventTells(e: Engine, cmd: Message, caps: Caps)
    requires caps.orders > 0 && IsCommand(cmd)
    ensures var events := Dispatch(e, cmd, caps).events;
      && events != []
      && (Effective(e, cmd) ==> events[|events| - 1] == Ack(IdOf(cmd), if cmd.NewOrder? then Accepted else Cancelled))
      && (!Effective(e, cmd) ==> events[|events| - 1].Reject?)
  {
    hide MatchFor;
    hide Rests;
  }

  /** A terminator touches nothing but its own id. */
  lemma TerminatorTouchesOwn(app: App, id: u64, event: Message)
    requires (event.Ack? || event.Reject?) && event.orderId == id
    ensures var app' := HandleEvent(app, event);
      && app'.orders - {id} == app.orders - {id} && SameElsewhere(app.inflight, app'.inflight, id)
      && app'.restoring == app.restoring
      && (app'.journal == app.journal || exists r: Record :: r.id == id && app'.journal == app.journal + [r])
  {
    if event.Ack? && id in app.inflight && !app.restoring {
      var entry := app.inflight[id];
      var r := if event.kind.Accepted? then New(id, entry.side, entry.price, entry.quantity) else Cancel(id);
      assert HandleEvent(app, event).journal == app.journal + [r] && r.id == id;
    }
  }

  /** The journal grows by nothing but records of `id`. */
  lemma JournalBeyond(journal: seq<Record>, journal': seq<Record>, id: u64, unheard: set<u64>)
    requires id in unheard
    requires journal' == journal || exists r: Record :: r.id == id && journal' == journal + [r]
    ensures Heard(journal', unheard) == Heard(journal, unheard)
  {
    hide Heard;
    if journal' != journal {
      var r: Record :| r.id == id && journal' == journal + [r];
      HeardAppend(journal, r, unheard);
      assert Heard(journal, unheard) + [] == Heard(journal, unheard);
    }
  }

  /** Handling the terminator of a heard command completes its request. */
  lemma HeardTerminator(app: App, unheard: set<u64>, b: Batch, caps: Caps)
    requires caps.orders > 0 && BatchOk(app.orders, unheard, app.inflight, b, caps) && |b.events| == 1
    requires IdOf(b.cmd) !in unheard && !app.restoring
    ensures var app' := HandleEvent(app, b.events[0]);
      && app'.orders - unheard == ShownAfter(b, caps) - unheard && app'.inflight == app.inflight - {IdOf(b.cmd)}
      && app'.restoring == app.restoring
      && app'.journal == app.journal + (if Effective(b.before, b.cmd) then [RecordOf(b.cmd)] else [])
      && var all := Dispatch(b.before, b.cmd, caps).events;
        all != [] && AllTrades(all[..|all| - 1])
        && app'.replies == app.replies + [Reply(IdOf(b.cmd), all[|all| - 1], FillsOf(all[..|all| - 1]))]
  {
    hide Dispatch;
    hide Effective;
    hide ShownAfter;
    hide Residual;
    hide ExactBut;
    hide ReduceAll;
    hide FillsOf;
    hide P.Insert;
    hide P.Drop;
    LastEventTells(b.before, b.cmd, caps);
    var all := Dispatch(b.before, b.cmd, caps).events;
    assert b.events[0] == all[|all| - 1];
    assert b.events[1..] == [];
  }

  /** The state after the terminator of the head batch, whether its command was heard or not. */
  lemma TerminatorHandled(s: System, caps: Caps)
    requires Inv(s, caps) && s.batches != [] && |s.batches[0].events| == 1
    ensures var b, app := s.batches[0], HandleEvent(s.app, s.batches[0].events[0]);
      && b.before == Seen(s, caps) && b.phantoms == SeenPhantoms(s, caps) && b.cmd == s.history[Done(s)]
      && app.orders - s.unheard == ShownAfter(b, caps) - s.unheard
      && SameElsewhere(s.app.inflight, app.inflight, IdOf(b.cmd)) && app.restoring == s.app.restoring
      && var r := if Effective(b.before, b.cmd) then [RecordOf(b.cmd)] else [];
        Heard(app.journal, s.unheard) == Heard(s.app.journal + r, s.unheard)
  {
    hide EngineSide;
    hide RequestsOk;
    hide Dispatch;
    hide Effective;
    hide Shown;
    hide HandleEvent;
    hide Effect;
    hide Heard;
    hide ExactBut;
    var b := s.batches[0];
    assert BatchOk(s.app.orders, s.unheard, s.app.inflight, b, caps);
    assert Commands(s.batches)[0] == b.cmd;
    if IdOf(b.cmd) in s.unheard {
      SuffixHead(b, caps);
      TerminatorTouchesOwn(s.app, IdOf(b.cmd), b.events[0]);
      var app := HandleEvent(s.app, b.events[0]);
      MoreLeftOut(app.orders, s.app.orders, {IdOf(b.cmd)}, s.unheard);
      assert ReduceAll(s.app.orders, b.events) == s.app.orders;
      JournalBeyond(s.app.journal, app.journal, IdOf(b.cmd), s.unheard);
      var r := if Effective(b.before, b.cmd) then [RecordOf(b.cmd)] else [];
      assert s.app.journal + [] == s.app.journal;
      JournalBeyond(s.app.journal, s.app.journal + r, IdOf(b.cmd), s.unheard);
    } else {
      HeardTerminator(s.app, s.unheard, b, caps);
    }
  }

  lemma HeardSame(a: seq<Record>, b: seq<Record>, r: seq<Record>, unheard: set<u64>)
    requires Heard(a, unheard) == Heard(b, unheard) && |r| <= 1
    ensures Heard(a + r, unheard) == Heard(b + r, unheard)
  {
    hide Heard;
    if r == [] {
      assert a + r == a && b + r == b;
    } else {
      assert r == [r[0]];
      HeardAppend(a, r[0], unheard);
      HeardAppend(b, r[0], unheard);
    }
  }

  lemma DeliverLastKeepsInv(s: System, caps: Caps)
    requires caps.orders > 0 && Inv(s, caps) && s.batches != [] && |s.batches[0].events| == 1
    ensures Inv(Delivered(s), caps)
  {
    hide EngineSide;
    hide RequestsOk;
    hide HandleEvent;
    hide BatchOk;
    hide Dispatch;
    hide Effective;
    hide Shown;
    hide Phantom;
    hide Heard;
    var b, s' := s.batches[0], Delivered(s);
    TerminatorHandled(s, caps);
    TailChain(s, s'.app, caps);
    ChainBeyond(ShownAfter(b, caps), s'.app.orders, s.unheard, s'.app.inflight, s'.batches, caps);
    assert s'.batches == s.batches[1..] && Commands(s'.batches) == Commands(s.batches)[1..];
    TailRequests(s, s'.app, s'.batches, 1, caps);
    EngineSideKept(s, s', caps);
    RunAppend(FRESH_ENGINE, s.history[..Done(s)], b.cmd, caps);
    assert s.history[..Done(s)] + [b.cmd] == s.history[..Done(s')];
    assert Seen(s', caps) == After(b, caps) && SeenPhantoms(s', caps) == PhantomsAfter(b, caps);
    assert Commands(s.batches)[1..] == s.history[Done(s')..];
    var r := if Effective(b.before, b.cmd) then [RecordOf(b.cmd)] else [];
    HeardSame(s.app.journal, SeenRecords(s, caps), r, s.unheard);
    assert RequestsOk(s') && Links(Seen(s', caps), SeenPhantoms(s', caps), s'.batches, s'.engine, s'.phantoms, caps);
  }

  // ---- Every run ----------------------------------------------------------------

  lemma StartHasInv(caps: Caps)
    requires caps.orders > 0
    ensures Inv(START, caps)
  {
    hide EngineSide;
    hide Dispatch;
    StartEngineSide(caps);
    assert Pending(START) == [];
    assert Shown(FRESH_ENGINE, map[]) == map[];
  }

  lemma StartEngineSide(caps: Caps)
    ensures EngineSide(START, caps)
  {
    hide EngineOk;
    FreshEngineOk(caps);
  }

  lemma UnusedIsClean(s: System, id: u64, caps: Caps)
    requires Inv(s, caps) && id !in s.used
    ensures !IsResting(s.engine, id) && id !in s.phantoms
  {
    hide RequestsOk;
    hide Chain;
    hide Links;
    hide EngineOk;
    hide IsResting;
    hide Heard;
  }

  lemma StepKeepsInv(s: System, a: Action, caps: Caps)
    requires caps.orders > 0 && Inv(s, caps) && Enabled(s, a, caps)
    ensures Inv(Next(s, a, caps), caps)
  {
    hide Inv;
    match a
    case SubmitNew(msg) =>
      UnusedIsClean(s, msg.orderId, caps);
      SubmitKeepsInv(s, msg, s.used + {msg.orderId}, caps);
    case SubmitCancel(id) => SubmitKeepsInv(s, CancelOrder(id), s.used, caps);
    case Send(i) => SendKeepsInv(s, i, caps);
    case SendFails(i) => FailKeepsInv(s, i, caps);
    case Timeout(id) => TimeoutKeepsInv(s, id, caps);
    case Process => ProcessKeepsInv(s, caps);
    case Deliver =>
      if |s.batches[0].events| == 1 {
        DeliverLastKeepsInv(s, caps);
      } else {
        DeliverTradeKeepsInv(s, caps);
      }
  }

  ghost predicate IsRun(s: System, actions: seq<Action>, caps: Caps)
    requires caps.orders > 0
    decreases |actions|
  {
    actions == [] || (Enabled(s, actions[0], caps) && IsRun(Next(s, actions[0], caps), actions[1..], caps))
  }

  ghost function Reached(s: System, actions: seq<Action>, caps: Caps): System
    requires caps.orders > 0 && IsRun(s, actions, caps)
    decreases |actions|
  {
    if actions == [] then s else Reached(Next(s, actions[0], caps), actions[1..], caps)
  }

  lemma {:induction false} RunKeepsInv(s: System, actions: seq<Action>, caps: Caps)
    requires caps.orders > 0 && Inv(s, caps) && IsRun(s, actions, caps)
    ensures Inv(Reached(s, actions, caps), caps)
    decreases |actions|
  {
    hide Inv;
    hide Next;
    if actions != [] {
      StepKeepsInv(s, actions[0], caps);
      RunKeepsInv(Next(s, actions[0], caps), actions[1..], caps);
    }
  }

  lemma DoneInRange(s: System, caps: Caps)
    requires Inv(s, caps) && s.batches != []
    ensures 0 <= Done(s) < |s.history|
  {
    hide EngineSide;
    hide RequestsOk;
    hide Links;
    hide Chain;
    hide Heard;
  }

  /** What has been seen once the next command has been answered. */
  lemma SeenNext(s: System, caps: Caps)
    requires caps.orders > 0 && 0 <= Done(s) < |s.history|
    ensures var n, cmd := Done(s), s.history[Done(s)];
      && Run(FRESH_ENGINE, s.history[..n + 1], caps) == Dispatch(Seen(s, caps), cmd, caps).engine
      && Phantoms(FRESH_ENGINE, s.history[..n + 1], caps)
         == SeenPhantoms(s, caps) + Phantom(Seen(s, caps), cmd, caps)
  {
    hide Dispatch;
    hide Phantom;
    var n := Done(s);
    RunAppend(FRESH_ENGINE, s.history[..n], s.history[n], caps);
    assert s.history[..n] + [s.history[n]] == s.history[..n + 1];
  }

  /**
   * In every state of every run: when the terminator of a command is handled the projection becomes the engine's
   * book right after that command, plus every order lost so far, for every id that did not time out. A request that
   * did not time out is answered with exactly its trades.
   */
  lemma ProjectionAtTerminators(actions: seq<Action>, caps: Caps)
    requires caps.orders > 0 && IsRun(START, actions, caps)
    requires var s := Reached(START, actions, caps); s.batches != [] && |s.batches[0].events| == 1
    ensures var s := Reached(START, actions, caps);
      var n := Done(s);
      && 0 <= n < |s.history|
      && var e, s' := Run(FRESH_ENGINE, s.history[..n + 1], caps), Next(s, Deliver, caps);
        && s'.app.orders - s.unheard == Shown(e, Phantoms(FRESH_ENGINE, s.history[..n + 1], caps)) - s.unheard
        && (IdOf(s.history[n]) !in s.unheard ==> Answers(s, s', n, caps))
  {
    hide Inv;
    hide HandleEvent;
    hide Dispatch;
    hide Shown;
    hide Phantom;
    hide Phantoms;
    hide Run;
    hide Answers;
    hide IsRun;
    hide Reached;
    var s := Reached(START, actions, caps);
    StartHasInv(caps);
    RunKeepsInv(START, actions, caps);
    TerminatorHandled(s, caps);
    DoneInRange(s, caps);
    SeenNext(s, caps);
    if IdOf(s.history[Done(s)]) !in s.unheard {
      HeadAnswers(s, caps);
    }
  }

  /** The registered request is that of command n; it has been answered with its terminator and exactly its trades. */
  ghost predicate Answers(s: System, s': System, n: nat, caps: Caps)
    requires caps.orders > 0 && n < |s.history|
  {
    var id, events := IdOf(s.history[n]), Dispatch(Run(FRESH_ENGINE, s.history[..n], caps), s.history[n], caps).events;
    && id in s.app.inflight && SameRequest(s.app.inflight[id], s.history[n]) && id !in s'.app.inflight
    && events != [] && AllTrades(events[..|events| - 1])
    && s'.app.replies == s.app.replies
         + [Reply(id, events[|events| - 1], FillsOf(events[..|events| - 1]))]
  }

  lemma HeadAnswers(s: System, caps: Caps)
    requires caps.orders > 0 && Inv(s, caps) && s.batches != [] && |s.batches[0].events| == 1
    requires 0 <= Done(s) < |s.history| && IdOf(s.history[Done(s)]) !in s.unheard
    ensures Answers(s, Delivered(s), Done(s), caps)
  {
    hide EngineSide;
    hide RequestsOk;
    hide Dispatch;
    hide Effective;
    hide Shown;
    hide Effect;
    hide ExactBut;
    hide Heard;
    hide HandleEvent;
    var b := s.batches[0];
    assert BatchOk(s.app.orders, s.unheard, s.app.inflight, b, caps);
    assert Commands(s.batches)[0] == b.cmd;
    HeardTerminator(s.app, s.unheard, b, caps);
  }

  /**
   * Whenever nothing is undelivered, the projection shows the engine's book plus the lost orders, and the journal
   * is the accepted history, for every id that did not time out.
   */
  lemma QuiescentAgreement(actions: seq<Action>, caps: Caps)
    requires caps.orders > 0 && IsRun(START, actions, caps) && Reached(START, actions, caps).batches == []
    ensures var s := Reached(START, actions, caps);
      && s.engine == Run(FRESH_ENGINE, s.history, caps)
      && s.app.orders - s.unheard == Shown(s.engine, Phantoms(FRESH_ENGINE, s.history, caps)) - s.unheard
      && Heard(s.app.journal, s.unheard) == Heard(Records(FRESH_ENGINE, s.history, caps), s.unheard)
  {
    hide EngineSide;
    hide RequestsOk;
    hide Dispatch;
    hide Shown;
    hide Heard;
    var s := Reached(START, actions, caps);
    StartHasInv(caps);
    RunKeepsInv(START, actions, caps);
    assert s.history[..|s.history|] == s.history;
  }

  /** No delivered trade with an order that did not time out is clipped by the projection's saturating subtraction. */
  lemma NothingSaturates(actions: seq<Action>, caps: Caps)
    requires caps.orders > 0 && IsRun(START, actions, caps)
    requires var s := Reached(START, actions, caps);
      s.batches != [] && s.batches[0].events != [] && s.batches[0].events[0].Trade?
    ensures var s := Reached(START, actions, caps);
      var t := s.batches[0].events[0];
      t.restingId in s.unheard
      || (t.restingId in s.app.orders && t.quantity <= s.app.orders[t.restingId].remaining)
  {
    hide EngineSide;
    hide RequestsOk;
    hide Links;
    hide Effect;
    hide Shown;
    hide Heard;
    var s := Reached(START, actions, caps);
    StartHasInv(caps);
    RunKeepsInv(START, actions, caps);
    assert BatchOk(s.app.orders, s.unheard, s.app.inflight, s.batches[0], caps);
  }
}
