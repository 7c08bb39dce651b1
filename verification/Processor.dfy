/** The single-threaded processing loop over an ingress and an egress ring. */
module Processor {
  import opened Wire
  import opened LinkedNodes
  import opened BookModel
  import opened RetiredIds
  import opened Engine
  import opened EngineRuns
  import M = MatchingEngine
  import R = RingBuffer

  /** The loop's state as a value. */
  datatype Processor = Processor(
    engine: Engine, ingress: seq<Message>, egress: seq<Message>,
    processed: nat, errors: nat, overflow: nat, operational: bool)

  /** Fixed capacities. */
  datatype Sizes = Sizes(caps: Caps, ingress: nat, egress: nat)

  /** A message that is answered by an error event. */
  predicate Invalid(msg: Message) {
    if msg.NewOrder? then Validate(msg).Refuse? else !msg.CancelOrder?
  }

  function Errors(msgs: seq<Message>): nat {
    if msgs == [] then 0 else (if Invalid(msgs[0]) then 1 else 0) + Errors(msgs[1..])
  }

  /** Push events until the egress ring is full; the rest are counted, not kept. */
  function Emit(p: Processor, events: seq<Message>, room: nat): (r: Processor)
    requires |p.egress| <= room
    ensures |r.egress| <= room && r == p.(egress := r.egress, overflow := r.overflow)
  {
    var n := Min(|events|, room - |p.egress|);
    p.(egress := p.egress + events[..n], overflow := p.overflow + (|events| - n))
  }

  /** A refused submission changes nothing. */
  function Submit(p: Processor, msg: Message, sizes: Sizes): Processor {
    if |p.ingress| < sizes.ingress then p.(ingress := p.ingress + [msg]) else p
  }

  function ProcessOne(p: Processor, sizes: Sizes): Processor
    requires sizes.caps.orders > 0 && |p.egress| <= sizes.egress && p.ingress != []
  {
    var step := Dispatch(p.engine, p.ingress[0], sizes.caps);
    Emit(p.(engine := step.engine, ingress := p.ingress[1..], processed := p.processed + 1,
            errors := p.errors + (if Invalid(p.ingress[0]) then 1 else 0)),
         step.events, sizes.egress)
  }

  /** The whole ingress ring, one message after the other. */
  function ProcessAll(p: Processor, sizes: Sizes): Processor
    requires sizes.caps.orders > 0 && |p.egress| <= sizes.egress
    decreases |p.ingress|
  {
    if !p.operational || p.ingress == [] then p else ProcessAll(ProcessOne(p, sizes), sizes)
  }

  // ---- What a batch does ---------------------------------------------------------

  lemma EmitTwice(p: Processor, a: seq<Message>, b: seq<Message>, room: nat)
    requires |p.egress| <= room
    ensures Emit(Emit(p, a, room), b, room) == Emit(p, a + b, room)
  {
    var n := Min(|a|, room - |p.egress|);
    var k := Min(|b|, room - |p.egress| - n);
    assert (a + b)[..n + k] == a[..n] + b[..k];
    assert p.egress + a[..n] + b[..k] == p.egress + (a[..n] + b[..k]);
  }

  /** A batch is one run of the engine, whose events are emitted in order; what does not fit is counted. */
  lemma {:induction false} BatchIsRun(p: Processor, sizes: Sizes)
    requires sizes.caps.orders > 0 && |p.egress| <= sizes.egress && p.operational
    ensures ProcessAll(p, sizes)
         == Emit(p.(engine := Run(p.engine, p.ingress, sizes.caps), ingress := [],
                    processed := p.processed + |p.ingress|, errors := p.errors + Errors(p.ingress)),
                 Events(p.engine, p.ingress, sizes.caps), sizes.egress)
    decreases |p.ingress|
  {
    hide Dispatch;
    hide Emit;
    if p.ingress == [] {
      EmitNothing(p, sizes.egress);
    } else {
      var step := Dispatch(p.engine, p.ingress[0], sizes.caps);
      var q := ProcessOne(p, sizes);
      EmitFrame(p, sizes);
      BatchIsRun(q, sizes);
      var rest := Events(step.engine, p.ingress[1..], sizes.caps);
      BatchJoins(p, q, rest, sizes, Run(p.engine, p.ingress, sizes.caps),
                 p.processed + |p.ingress|, p.errors + Errors(p.ingress));
    }
  }

  lemma EmitNothing(p: Processor, room: nat)
    requires |p.egress| <= room
    ensures Emit(p, [], room) == p
  {
    assert p.egress + [] == p.egress;
  }

  lemma EmitFrame(p: Processor, sizes: Sizes)
    requires sizes.caps.orders > 0 && |p.egress| <= sizes.egress && p.ingress != []
    ensures var q := ProcessOne(p, sizes);
      && q.operational == p.operational && |q.egress| <= sizes.egress && q.ingress == p.ingress[1..]
      && q.engine == Dispatch(p.engine, p.ingress[0], sizes.caps).engine
      && q.processed == p.processed + 1 && q.errors == p.errors + (if Invalid(p.ingress[0]) then 1 else 0)
  {
    hide Dispatch;
  }

  /** Emitting a message's events and then the rest is emitting them together, whatever else has changed. */
  lemma BatchJoins(p: Processor, q: Processor, rest: seq<Message>, sizes: Sizes, e: Engine, n: nat, k: nat)
    requires sizes.caps.orders > 0 && |p.egress| <= sizes.egress && p.ingress != [] && q == ProcessOne(p, sizes)
    ensures |q.egress| <= sizes.egress
    ensures Emit(q.(engine := e, ingress := [], processed := n, errors := k), rest, sizes.egress)
         == Emit(p.(engine := e, ingress := [], processed := n, errors := k),
                 Dispatch(p.engine, p.ingress[0], sizes.caps).events + rest, sizes.egress)
  {
    hide Dispatch;
    var events := Dispatch(p.engine, p.ingress[0], sizes.caps).events;
    EmitTwice(p.(engine := e, ingress := [], processed := n, errors := k), events, rest, sizes.egress);
  }

  /** With 2n + r free egress slots, a batch of n messages on a book of r orders loses no event. */
  lemma EgressSuffices(p: Processor, sizes: Sizes)
    requires sizes.caps.orders > 0 && p.operational
    requires |p.egress| + 2 * |p.ingress| + RestingCount(p.engine) <= sizes.egress
    ensures var q := ProcessAll(p, sizes);
      q.overflow == p.overflow && q.egress == p.egress + Events(p.engine, p.ingress, sizes.caps)
  {
    hide ProcessAll;
    hide Run;
    hide Events;
    BatchIsRun(p, sizes);
    EventBound(p.engine, p.ingress, sizes.caps);
  }

  // ---- A batch against one message at a time ---------------------------------------

  function SubmitAll(p: Processor, msgs: seq<Message>, sizes: Sizes): (r: Processor)
    ensures r.egress == p.egress
    decreases |msgs|
  {
    if msgs == [] then p else SubmitAll(Submit(p, msgs[0], sizes), msgs[1..], sizes)
  }

  lemma {:induction false} SubmitAllQueues(p: Processor, msgs: seq<Message>, sizes: Sizes)
    requires |p.ingress| <= sizes.ingress
    ensures var n := Min(|msgs|, sizes.ingress - |p.ingress|);
      SubmitAll(p, msgs, sizes) == p.(ingress := p.ingress + msgs[..n])
    decreases |msgs|
  {
    var n := Min(|msgs|, sizes.ingress - |p.ingress|);
    if msgs == [] {
      assert p.ingress + msgs[..n] == p.ingress;
    } else {
      SubmitAllQueues(Submit(p, msgs[0], sizes), msgs[1..], sizes);
      if n == 0 {
        assert p.ingress + msgs[..n] == p.ingress == p.ingress + msgs[1..][..n];
      } else {
        assert p.ingress + [msgs[0]] + msgs[1..][..n - 1] == p.ingress + msgs[..n];
      }
    }
  }

  /** What a client sees when each message is processed and its events are taken before the next is submitted. */
  datatype Seen = Seen(processor: Processor, events: seq<Message>)

  function OneByOne(p: Processor, msgs: seq<Message>, sizes: Sizes): Seen
    requires sizes.caps.orders > 0 && |p.egress| <= sizes.egress
    decreases |msgs|
  {
    if msgs == [] then Seen(p, [])
    else
      var q := ProcessAll(Submit(p, msgs[0], sizes), sizes);
      var rest := OneByOne(q.(egress := []), msgs[1..], sizes);
      Seen(rest.processor, q.egress + rest.events)
  }

  /** One at a time, with every single command's events fitting the ring: the events of the run, and its state. */
  lemma {:induction false} OneByOneIsRun(p: Processor, msgs: seq<Message>, sizes: Sizes)
    requires sizes.caps.orders > 0 && sizes.ingress > 0 && p.operational && p.ingress == [] && p.egress == []
    requires |Events(p.engine, msgs, sizes.caps)| <= sizes.egress
    ensures OneByOne(p, msgs, sizes)
         == Seen(p.(engine := Run(p.engine, msgs, sizes.caps),
                    processed := p.processed + |msgs|, errors := p.errors + Errors(msgs)),
                 Events(p.engine, msgs, sizes.caps))
    decreases |msgs|
  {
    hide Dispatch;
    hide ProcessAll;
    if msgs != [] {
      var step := Dispatch(p.engine, msgs[0], sizes.caps);
      var p1 := Submit(p, msgs[0], sizes);
      var q := ProcessAll(p1, sizes);
      assert p1.ingress == [msgs[0]];
      BatchIsRun(p1, sizes);
      SingleRun(p.engine, msgs[0], sizes.caps);
      assert q == p.(engine := step.engine, egress := step.events, processed := p.processed + 1,
                     errors := p.errors + Errors([msgs[0]]));
      OneByOneIsRun(q.(egress := []), msgs[1..], sizes);
    }
  }

  lemma SingleRun(e: Engine, msg: Message, caps: Caps)
    requires caps.orders > 0
    ensures Run(e, [msg], caps) == Dispatch(e, msg, caps).engine
    ensures Events(e, [msg], caps) == Dispatch(e, msg, caps).events
    ensures Errors([msg]) == if Invalid(msg) then 1 else 0
  {
    hide Dispatch;
    hide Invalid;
    assert [msg][1..] == [];
    var step := Dispatch(e, msg, caps);
    assert Run(step.engine, [], caps) == step.engine && Events(step.engine, [], caps) == [] && Errors([]) == 0;
  }

  /**
   * A batch that fits the ingress ring and overflows nothing gives the client the same events in the same order,
   * and leaves the same processor, as submitting and processing its messages one at a time.
   */
  lemma BatchIsOneByOne(p: Processor, msgs: seq<Message>, sizes: Sizes)
    requires sizes.caps.orders > 0 && sizes.ingress > 0 && p.operational && p.ingress == [] && p.egress == []
    requires |msgs| <= sizes.ingress && ProcessAll(SubmitAll(p, msgs, sizes), sizes).overflow == p.overflow
    ensures var q := ProcessAll(SubmitAll(p, msgs, sizes), sizes);
      OneByOne(p, msgs, sizes) == Seen(q.(egress := []), q.egress)
  {
    hide Run;
    hide Events;
    hide ProcessAll;
    hide OneByOne;
    SubmitAllQueues(p, msgs, sizes);
    var p1 := SubmitAll(p, msgs, sizes);
    assert [] + msgs[..|msgs|] == msgs;
    BatchIsRun(p1, sizes);
    OneByOneIsRun(p, msgs, sizes);
  }

  // ---- The loop in place --------------------------------------------------------------

  datatype Config = Config(orders: nat, levels: nat, ingress: nat, egress: nat, forceFailure: bool)

  predicate Satisfiable(config: Config, sizes: Sizes) {
    && !config.forceFailure && config.orders <= sizes.caps.orders && config.levels <= sizes.caps.levels
    && config.ingress <= sizes.ingress && config.egress <= sizes.egress
  }

  class EngineProcessor {
    const engine: M.MatchingEngine
    const ingress: R.RingBuffer<Message>
    const egress: R.RingBuffer<Message>
    var processed: nat
    var errors: nat
    var overflow: nat
    var operational: bool

    ghost function Repr(): set<object> {
      engine.Repr() + {this, ingress, ingress.slots, egress, egress.slots}
    }

    ghost predicate Separate() {
      && {this, ingress, ingress.slots, egress, egress.slots} !! engine.Repr()
      && ingress != egress && ingress.slots != egress.slots
    }

    ghost predicate Valid()
      reads Repr()
    {
      Separate() && engine.Valid() && ingress.Valid() && egress.Valid()
    }

    function Size(): Sizes
      reads ingress.slots, egress.slots
    {
      Sizes(engine.book.caps, ingress.slots.Length, egress.slots.Length)
    }

    ghost function Abs(): Processor
      reads Repr()
    {
      Processor(engine.State(), ingress.Contents(), egress.Contents(), processed, errors, overflow, operational)
    }

    constructor (sizes: Sizes, table: nat, home: u64 -> nat)
      requires 0 < sizes.caps.orders <= NULL && 0 < sizes.caps.levels <= NULL && sizes.ingress > 0 && sizes.egress > 0
      requires 2 * sizes.caps.orders <= table && HomeOk(home, table)
      ensures Valid() && fresh(Repr()) && Size() == sizes
      ensures Abs() == Processor(FRESH_ENGINE, [], [], 0, 0, 0, true)
    {
      hide M.MatchingEngine.Repr;
      hide M.MatchingEngine.Valid;
      hide M.MatchingEngine.State;
      hide R.RingBuffer.Valid;
      hide R.RingBuffer.Contents;
      ingress := new R.RingBuffer(sizes.ingress, CancelOrder(0));
      egress := new R.RingBuffer(sizes.egress, CancelOrder(0));
      engine := new M.MatchingEngine(sizes.caps, table, home);
      processed, errors, overflow, operational := 0, 0, 0, true;
      new;
      NotInEngine();
    }

    lemma NotInEngine()
      ensures this !in engine.Repr()
    {
    }

    /** Check the requested capacities; on success the book and the retired ids are emptied, nothing else. */
    method Initialize(config: Config) returns (ok: bool)
      requires Valid()
      modifies Repr()
      ensures Valid() && ok == operational == Satisfiable(config, Size())
      ensures var e, exec := old(engine.State()), old(engine.exec);
        Abs() == old(Abs()).(operational := ok, engine := if ok then FRESH_ENGINE.(exec := exec) else e)
    {
      hide M.MatchingEngine.Repr;
      hide M.MatchingEngine.Valid;
      hide M.MatchingEngine.State;
      hide R.RingBuffer.Valid;
      hide R.RingBuffer.Contents;
      operational := false;
      if !Satisfiable(config, Size()) {
        return false;
      }
      engine.Clear();
      operational := true;
      ok := true;
    }

    method SubmitMessage(msg: Message) returns (ok: bool)
      requires Valid()
      modifies Repr()
      ensures Valid() && ok == (|old(ingress.Contents())| < ingress.slots.Length)
      ensures Abs() == Submit(old(Abs()), msg, Size())
    {
      hide M.MatchingEngine.Valid;
      hide M.MatchingEngine.State;
      hide R.RingBuffer.Valid;
      hide R.RingBuffer.Contents;
      ok := ingress.TryPush(msg);
    }

    /** Push one event, or count it when the egress ring is full. */
    method EmitEvent(event: Message)
      requires Valid()
      modifies this`overflow, egress, egress.slots
      ensures Valid()
      ensures Abs() == Emit(old(Abs()), [event], Size().egress)
    {
      hide M.MatchingEngine.Valid;
      hide M.MatchingEngine.State;
      hide R.RingBuffer.Valid;
      hide R.RingBuffer.Contents;
      hide Emit;
      EmitSingle(Abs(), event, Size().egress);
      var ok := egress.TryPush(event);
      if !ok {
        overflow := overflow + 1;
      }
    }

    /** Push a command's events in order. */
    method EmitEvents(events: seq<Message>)
      requires Valid()
      modifies this`overflow, egress, egress.slots
      ensures Valid()
      ensures Abs() == Emit(old(Abs()), events, Size().egress)
    {
      hide M.MatchingEngine.Repr;
      hide M.MatchingEngine.Valid;
      hide M.MatchingEngine.State;
      hide R.RingBuffer.Valid;
      hide R.RingBuffer.Contents;
      hide Emit;
      ghost var p := Abs();
      EmitNothing(p, Size().egress);
      for i := 0 to |events|
        invariant Valid()
        invariant Abs() == Emit(p, events[..i], Size().egress)
      {
        assert events[..i + 1] == events[..i] + [events[i]];
        EmitTwice(p, events[..i], [events[i]], Size().egress);
        EmitEvent(events[i]);
      }
      assert events[..|events|] == events;
    }

    /** Validate, match and emit: the trades and the acknowledgement, or the one error event. */
    method DispatchNewOrder(msg: Message)
      requires Valid() && msg.NewOrder?
      modifies Repr()
      ensures Valid()
      ensures var step := Dispatch(old(engine.State()), msg, engine.book.caps);
        Abs() == Emit(old(Abs()).(engine := step.engine, errors := old(errors) + (if Invalid(msg) then 1 else 0)),
                      step.events, Size().egress)
    {
      hide M.MatchingEngine.Repr;
      hide M.MatchingEngine.Valid;
      hide M.MatchingEngine.State;
      hide R.RingBuffer.Valid;
      hide R.RingBuffer.Contents;
      hide Emit;
      hide ProcessNew;
      var events, accepted := engine.ProcessValidated(msg);
      if accepted {
        events := events + [Ack(msg.orderId, Accepted)];
      } else {
        errors := errors + 1;
        assert events + [] == events;
      }
      EmitEvents(events);
    }

    /** Cancel and emit the acknowledgement or the rejection, which is not an error event. */
    method DispatchCancelOrder(msg: Message)
      requires Valid() && msg.CancelOrder?
      modifies Repr()
      ensures Valid()
      ensures var step := Dispatch(old(engine.State()), msg, engine.book.caps);
        Abs() == Emit(old(Abs()).(engine := step.engine), step.events, Size().egress)
    {
      hide M.MatchingEngine.Repr;
      hide M.MatchingEngine.Valid;
      hide M.MatchingEngine.State;
      hide R.RingBuffer.Valid;
      hide R.RingBuffer.Contents;
      hide Emit;
      hide ProcessCancel;
      var event := engine.ProcessCancelOrder(msg.orderId);
      EmitEvents([event]);
    }

    /** Route one message to the matching core or to the error path. */
    method DispatchMessage(msg: Message)
      requires Valid()
      modifies Repr()
      ensures Valid()
      ensures var step := Dispatch(old(engine.State()), msg, engine.book.caps);
        Abs() == Emit(old(Abs()).(engine := step.engine, errors := old(errors) + (if Invalid(msg) then 1 else 0)),
                      step.events, Size().egress)
    {
      hide M.MatchingEngine.Repr;
      hide M.MatchingEngine.Valid;
      hide M.MatchingEngine.State;
      hide R.RingBuffer.Valid;
      hide R.RingBuffer.Contents;
      hide Emit;
      hide ProcessNew;
      hide ProcessCancel;
      hide Validate;
      match msg
      case NewOrder(_, _, _, _, _) =>
        DispatchNewOrder(msg);
      case CancelOrder(_) =>
        DispatchCancelOrder(msg);
      case _ =>
        errors := errors + 1;
        EmitEvents([Reject(InvalidId(msg), IntegrityViolation)]);
    }

    /** Take one message off the ingress ring. */
    method TakeMessage() returns (msg: Option<Message>)
      requires Valid()
      modifies Repr()
      ensures Valid() && operational == old(operational)
      ensures old(ingress.Contents()) == Pending(msg, ingress.Contents()) && (msg.None? ==> ingress.Contents() == [])
      ensures Abs() == old(Abs()).(ingress := ingress.Contents())
    {
      hide M.MatchingEngine.Valid;
      hide M.MatchingEngine.State;
      hide R.RingBuffer.Valid;
      hide R.RingBuffer.Contents;
      msg := ingress.TryPop();
    }

    /** Take one message off the ingress ring and process it; false when there is none or not operational. */
    method ProcessNext() returns (ok: bool)
      requires Valid()
      modifies Repr()
      ensures Valid() && 0 < Size().caps.orders
      ensures ok == (operational && old(ingress.Contents()) != []) && operational == old(operational)
      ensures Abs() == if ok then ProcessOne(old(Abs()), Size()) else old(Abs())
    {
      hide M.MatchingEngine.Repr;
      hide M.MatchingEngine.Valid;
      hide M.MatchingEngine.State;
      hide R.RingBuffer.Valid;
      hide R.RingBuffer.Contents;
      hide Emit;
      HasCaps();
      if !operational {
        return false;
      }
      var msg := TakeMessage();
      if msg.None? {
        return false;
      }
      processed := processed + 1;
      DispatchMessage(msg.value);
      ok := true;
    }

    lemma AbsFields()
      ensures Abs().operational == operational && Abs().ingress == ingress.Contents()
      ensures Abs().egress == egress.Contents()
    {
    }

    lemma HasCaps()
      requires Valid()
      ensures 0 < Size().caps.orders
    {
    }

    method ProcessQueue() returns (n: nat)
      requires Valid()
      modifies Repr()
      ensures Valid() && 0 < Size().caps.orders
      ensures Abs() == ProcessAll(old(Abs()), Size())
      ensures n == processed - old(processed)
    {
      hide M.MatchingEngine.Repr;
      hide M.MatchingEngine.Valid;
      hide M.MatchingEngine.State;
      hide R.RingBuffer.Valid;
      hide R.RingBuffer.Contents;
      hide Dispatch;
      HasCaps();
      n := 0;
      ghost var p, was := ProcessAll(Abs(), Size()), processed;
      var more := true;
      while more
        invariant Valid() && 0 < Size().caps.orders
        invariant ProcessAll(Abs(), Size()) == p && (!more ==> Abs() == p) && n == processed - was
        decreases |ingress.Contents()|, more
      {
        more := ProcessNext();
        if more {
          n := n + 1;
        }
      }
    }

    method NextEvent() returns (event: Option<Message>)
      requires Valid()
      modifies Repr()
      ensures Valid()
      ensures old(egress.Contents()) == Pending(event, egress.Contents()) && (event.None? ==> egress.Contents() == [])
      ensures Abs() == old(Abs()).(egress := egress.Contents())
    {
      hide M.MatchingEngine.Valid;
      hide M.MatchingEngine.State;
      hide R.RingBuffer.Valid;
      hide R.RingBuffer.Contents;
      event := egress.TryPop();
    }
  }

  /** A queue whose head may have been taken out. */
  function Pending(event: Option<Message>, rest: seq<Message>): seq<Message> {
    if event.Some? then [event.value] + rest else []
  }

  lemma EmitSingle(p: Processor, event: Message, room: nat)
    requires |p.egress| <= room
    ensures Emit(p, [event], room)
         == if |p.egress| < room then p.(egress := p.egress + [event]) else p.(overflow := p.overflow + 1)
  {
    assert [event][..1] == [event];
    assert p.egress + [event][..0] == p.egress;
  }
}
