/** One command seen from both ends: the events it emits turn the projection into the engine's new book. */
module ReplicaStep {
  import opened Wire
  import opened LinkedNodes
  import opened BookModel
  import opened Matching
  import opened Engine
  import opened EngineRuns
  import P = Projection
  import opened AppState

  function View(o: Order): P.Resting {
    P.Resting(o.side, o.price, o.qty)
  }

  function MapOf(s: seq<Order>): P.Orders {
    if s == [] then map[] else MapOf(s[1..])[s[0].id := View(s[0])]
  }

  /** The engine's resting orders as the projection should show them. */
  function BookMap(e: Engine): P.Orders {
    MapOf(e.bids) + MapOf(e.asks)
  }

  lemma {:induction false} MapKeys(s: seq<Order>, id: u64)
    ensures id in MapOf(s) <==> Holds(s, id)
  {
    if s != [] {
      MapKeys(s[1..], id);
      if id in MapOf(s[1..]) {
        var i :| 0 <= i < |s[1..]| && s[1..][i].id == id;
        assert s[i + 1].id == id;
      }
      if i :| 0 < i < |s| && s[i].id == id {
        assert s[1..][i - 1].id == id;
      }
    }
  }

  lemma {:induction false} MapAt(s: seq<Order>, i: nat)
    requires i < |s| && DistinctIds(s)
    ensures s[i].id in MapOf(s) && MapOf(s)[s[i].id] == View(s[i])
  {
    if i > 0 {
      assert s[1..][i - 1] == s[i];
      MapAt(s[1..], i - 1);
    }
  }

  lemma {:induction false} MapInsert(s: seq<Order>, o: Order)
    requires !Holds(s, o.id)
    ensures MapOf(InsertSorted(s, o)) == MapOf(s)[o.id := View(o)]
  {
    if s == [] || Ahead(o, s[0]) {
      assert ([o] + s)[1..] == s;
    } else {
      assert !Holds(s[1..], o.id);
      MapInsert(s[1..], o);
      assert ([s[0]] + InsertSorted(s[1..], o))[1..] == InsertSorted(s[1..], o);
      assert s[0].id != o.id;
    }
  }

  lemma {:induction false} MapRemove(s: seq<Order>, i: nat)
    requires i < |s| && DistinctIds(s)
    ensures MapOf(RemoveAt(s, i)) == MapOf(s) - {s[i].id}
  {
    if i == 0 {
      assert RemoveAt(s, 0) == s[1..];
      MapKeys(s[1..], s[0].id);
    } else {
      assert s[1..][i - 1] == s[i] && s[0].id != s[i].id;
      MapRemove(s[1..], i - 1);
      assert RemoveAt(s, i)[1..] == RemoveAt(s[1..], i - 1);
    }
  }

  // ---- Trades --------------------------------------------------------------

  /** The projection after a run of trades. */
  function ReduceAll(m: P.Orders, trades: seq<Message>): P.Orders
    decreases |trades|
  {
    if trades == [] || !trades[0].Trade? then m
    else ReduceAll(P.Reduce(m, trades[0].restingId, trades[0].quantity), trades[1..])
  }

  /** No trade exceeds what the projection shows, so no subtraction saturates. */
  ghost predicate Exact(m: P.Orders, trades: seq<Message>)
    decreases |trades|
  {
    trades == [] || !trades[0].Trade?
    || (trades[0].restingId in m && trades[0].quantity <= m[trades[0].restingId].remaining
        && Exact(P.Reduce(m, trades[0].restingId, trades[0].quantity), trades[1..]))
  }

  lemma MapTail(opp: seq<Order>, other: P.Orders, qty: u32)
    requires opp != [] && DistinctIds(opp) && qty <= opp[0].qty && (forall id :: id in other ==> !Holds(opp, id))
    ensures var m := MapOf(opp) + other;
      var rest := if qty == opp[0].qty then opp[1..] else [opp[0].(qty := opp[0].qty - qty)] + opp[1..];
      && opp[0].id in m && m[opp[0].id].remaining == opp[0].qty
      && P.Reduce(m, opp[0].id, qty) == MapOf(rest) + other
  {
    MapKeys(opp[1..], opp[0].id);
    assert Holds(opp, opp[0].id);
    var r := opp[0].(qty := opp[0].qty - qty);
    assert ([r] + opp[1..])[1..] == opp[1..];
  }

  lemma HeldBehind(s: seq<Order>, id: u64)
    requires s != []
    ensures Holds(s[1..], id) ==> Holds(s, id)
  {
    if i :| 0 <= i < |s[1..]| && s[1..][i].id == id {
      assert s[i + 1].id == id;
    }
  }

  /** The trades of a match turn the opposite side into what is left of it. */
  lemma {:induction false} MatchReduces(
    opp: seq<Order>, side: Side, limit: u64, id: u64, left: u32, exec: u64, other: P.Orders)
    requires DistinctIds(opp) && (forall x :: x in other ==> !Holds(opp, x))
    ensures var m := Match(opp, side, limit, id, left, exec);
      Exact(MapOf(opp) + other, m.trades) && ReduceAll(MapOf(opp) + other, m.trades) == MapOf(m.book) + other
    decreases |opp|
  {
    hide MapOf;
    hide Match;
    hide P.Reduce;
    if left == 0 || opp == [] || !Crosses(side, limit, opp[0].price) {
      MatchStops(opp, side, limit, id, left, exec);
    } else {
      var q: u32 := Min(left, opp[0].qty);
      MapTail(opp, other, q);
      var m := Match(opp, side, limit, id, left, exec);
      if q == opp[0].qty {
        forall x | x in other ensures !Holds(opp[1..], x) {
          HeldBehind(opp, x);
        }
        MatchFills(opp, side, limit, id, left, exec);
        MatchReduces(opp[1..], side, limit, id, left - q, Next64(exec), other);
        assert m.trades[1..] == Match(opp[1..], side, limit, id, left - q, Next64(exec)).trades;
      } else {
        MatchReducesFront(opp, side, limit, id, left, exec);
        assert m.trades[1..] == [];
      }
    }
  }

  // ---- The whole batch of one command ---------------------------------------

  /** The in-flight entry the gateway registers for a command. */
  function EntryFor(msg: Message): InFlight
    requires msg.NewOrder? || msg.CancelOrder?
  {
    if msg.NewOrder? then InFlight(msg.side, msg.price, msg.quantity, false, []) else InFlight(Buy, 0, 0, true, [])
  }

  function FillOf(t: Message): Fill
    requires t.Trade?
  {
    Fill(t.execSeq, t.price, t.quantity, t.restingId)
  }

  /** What handling a batch does to the projection, given the command's in-flight entry. */
  function Effect(m: P.Orders, entry: InFlight, id: u64, events: seq<Message>): P.Orders
    decreases |events|
  {
    if events == [] then m
    else match events[0]
      case Trade(_, _, q, _, resting) =>
        Effect(P.Reduce(m, resting, q), entry.(fills := entry.fills + [FillOf(events[0])]), id, events[1..])
      case Ack(_, kind) =>
        if kind.Accepted? then P.Insert(m, id, P.Resting(entry.side, entry.price, Residual(entry))) else P.Drop(m, id)
      case _ => m
  }

  /** A batch of one command: trades of that order, then one terminator. */
  ghost predicate BatchFor(events: seq<Message>, id: u64) {
    && events != []
    && (forall i :: 0 <= i < |events| - 1 ==> events[i].Trade? && events[i].incomingId == id)
    && (events[|events| - 1].Ack? || events[|events| - 1].Reject?) && events[|events| - 1].orderId == id
  }

  function FillsOf(trades: seq<Message>): seq<Fill>
    requires forall i :: 0 <= i < |trades| ==> trades[i].Trade?
  {
    seq(|trades|, i requires 0 <= i < |trades| => FillOf(trades[i]))
  }

  lemma {:induction false} EffectOfTrades(m: P.Orders, entry: InFlight, id: u64, trades: seq<Message>)
    requires forall i :: 0 <= i < |trades| ==> trades[i].Trade?
    ensures Effect(m, entry, id, trades + [Ack(id, Accepted)])
         == P.Insert(ReduceAll(m, trades), id,
                     P.Resting(entry.side, entry.price, Residual(entry.(fills := entry.fills + FillsOf(trades)))))
    decreases |trades|
  {
    hide Residual;
    var events := trades + [Ack(id, Accepted)];
    if trades == [] {
      assert entry.(fills := entry.fills + []) == entry;
    } else {
      assert events[0] == trades[0] && events[1..] == trades[1..] + [Ack(id, Accepted)];
      var entry' := entry.(fills := entry.fills + [FillOf(trades[0])]);
      EffectOfTrades(P.Reduce(m, trades[0].restingId, trades[0].quantity), entry', id, trades[1..]);
      assert entry'.fills + FillsOf(trades[1..]) == entry.fills + FillsOf(trades);
    }
  }

  lemma {:induction false} FillTotalIsTraded(trades: seq<Message>)
    requires forall i :: 0 <= i < |trades| ==> trades[i].Trade?
    ensures FillTotal(FillsOf(trades)) == Traded(trades)
  {
    if trades != [] {
      var n := |trades| - 1;
      FillTotalIsTraded(trades[..n]);
      assert FillsOf(trades)[..n] == FillsOf(trades[..n]);
      assert trades == trades[..n] + [trades[n]];
      TradedConcat(trades[..n], [trades[n]]);
      assert [trades[n]][1..] == [];
    }
  }

  lemma {:induction false} TradesOfIncoming(
    opp: seq<Order>, side: Side, limit: u64, id: u64, left: u32, exec: u64, k: nat)
    requires k < |Match(opp, side, limit, id, left, exec).trades|
    ensures var t := Match(opp, side, limit, id, left, exec).trades[k]; t.Trade? && t.incomingId == id
    decreases |opp|
  {
    if k > 0 {
      TradesOfIncoming(opp[1..], side, limit, id, left - opp[0].qty, Next64(exec), k - 1);
    }
  }

  lemma {:induction false} ExactPrefix(m: P.Orders, trades: seq<Message>, last: Message)
    requires Exact(m, trades) && !last.Trade? && forall i :: 0 <= i < |trades| ==> trades[i].Trade?
    ensures Exact(m, trades + [last])
    decreases |trades|
  {
    if trades != [] {
      assert (trades + [last])[1..] == trades[1..] + [last];
      ExactPrefix(P.Reduce(m, trades[0].restingId, trades[0].quantity), trades[1..], last);
    }
  }

  lemma SidesSwap(e: Engine, side: Side)
    requires UniqueIds(e)
    ensures BookMap(e) == MapOf(e.On(side)) + MapOf(e.On(Opposite(side)))
    ensures DistinctIds(e.On(side)) && forall x :: x in MapOf(e.On(side)) ==> !Holds(e.On(Opposite(side)), x)
  {
    forall x ensures !(x in MapOf(e.bids) && x in MapOf(e.asks)) {
      MapKeys(e.bids, x);
      MapKeys(e.asks, x);
    }
    forall x | x in MapOf(e.On(side)) ensures !Holds(e.On(Opposite(side)), x) {
      MapKeys(e.On(side), x);
      MapKeys(e.On(Opposite(side)), x);
    }
  }

  lemma ResidualExact(entry: InFlight)
    requires FillTotal(entry.fills) <= entry.quantity
    ensures Residual(entry) == entry.quantity - FillTotal(entry.fills)
  {
    hide FillTotal;
  }

  /** The residual the gateway computes is what the engine left over; its subtraction does not saturate. */
  lemma ResidualIsLeft(e: Engine, o: Message)
    requires o.NewOrder?
    ensures var m := MatchFor(e, o);
      && (forall i :: 0 <= i < |m.trades| ==> m.trades[i].Trade? && m.trades[i].incomingId == o.orderId)
      && FillTotal(FillsOf(m.trades)) == o.quantity - m.left
      && Residual(EntryFor(o).(fills := FillsOf(m.trades))) == m.left
  {
    hide Match;
    hide FillTotal;
    hide Residual;
    var opp, m := e.On(Opposite(o.side)), MatchFor(e, o);
    forall k | 0 <= k < |m.trades| ensures m.trades[k].Trade? && m.trades[k].incomingId == o.orderId {
      TradesOfIncoming(opp, o.side, o.price, o.orderId, o.quantity, e.exec, k);
    }
    MatchBalances(opp, o.side, o.price, o.orderId, o.quantity, e.exec);
    FillTotalIsTraded(m.trades);
    ResidualExact(EntryFor(o).(fills := FillsOf(m.trades)));
  }

  lemma RestedMap(own: seq<Order>, book: seq<Order>, o: Order)
    requires !Holds(own, o.id)
    ensures MapOf(book) + MapOf(InsertSorted(own, o)) == (MapOf(book) + MapOf(own))[o.id := View(o)]
  {
    MapInsert(own, o);
  }

  // ---- Orders the projection shows although the engine lost them ---------------------

  /** What an accepted order that is lost to a full pool leaves in the projection. */
  function Phantom(e: Engine, msg: Message, caps: Caps): P.Orders {
    if msg.NewOrder? && Lost(e, msg, caps) > 0 then map[msg.orderId := P.Resting(msg.side, msg.price, msg.quantity)]
    else map[]
  }

  function Phantoms(e: Engine, msgs: seq<Message>, caps: Caps): P.Orders
    requires caps.orders > 0
    decreases |msgs|
  {
    if msgs == [] then map[]
    else Phantom(e, msgs[0], caps) + Phantoms(Dispatch(e, msgs[0], caps).engine, msgs[1..], caps)
  }

  /** The projection of an engine whose losses so far are `phantoms`. */
  function Shown(e: Engine, phantoms: P.Orders): P.Orders {
    BookMap(e) + phantoms
  }

  /** No phantom has the id of a resting order. */
  ghost predicate Separate(e: Engine, phantoms: P.Orders) {
    forall id :: id in phantoms ==> !IsResting(e, id)
  }

  /** A command the gateway may send: a new order carries an id that neither rests nor is shown. */
  ghost predicate CleanStep(e: Engine, phantoms: P.Orders, msg: Message) {
    && (msg.NewOrder? || msg.CancelOrder?)
    && (msg.NewOrder? ==> !IsResting(e, msg.orderId) && msg.orderId !in phantoms)
  }

  lemma MapRegroup(a: P.Orders, b: P.Orders, c: P.Orders)
    ensures a + b + c == a + (b + c)
  {
  }

  lemma MapUpdate(a: P.Orders, b: P.Orders, id: u64, r: P.Resting)
    requires id !in b
    ensures a[id := r] + b == (a + b)[id := r]
  {
  }

  lemma ApartFromOpposite(e: Engine, side: Side, phantoms: P.Orders)
    requires UniqueIds(e) && Separate(e, phantoms)
    ensures forall x :: x in MapOf(e.On(side)) + phantoms ==> !Holds(e.On(Opposite(side)), x)
  {
    SidesSwap(e, side);
    forall x | x in phantoms ensures !Holds(e.On(Opposite(side)), x) {
      RestingIsHeld(e, x);
    }
  }

  /** An accepted order whose remainder, if any, rests. */
  lemma RestedBookMap(e: Engine, o: Message, phantoms: P.Orders, caps: Caps)
    requires EngineOk(e, caps) && caps.orders > 0 && UniqueIds(e) && Separate(e, phantoms) && CleanStep(e, phantoms, o)
    requires o.NewOrder? && Dropped(e, o, caps) == 0
    ensures var m := MatchFor(e, o);
      && Exact(Shown(e, phantoms), m.trades)
      && Shown(ProcessNew(e, o, caps).engine, phantoms)
         == P.Insert(ReduceAll(Shown(e, phantoms), m.trades), o.orderId, P.Resting(o.side, o.price, m.left))
  {
    hide MapOf;
    hide Match;
    hide EngineOk;
    hide Separate;
    var own, opp, m, e' := e.On(o.side), e.On(Opposite(o.side)), MatchFor(e, o), ProcessNew(e, o, caps).engine;
    NewUnique(e, o, caps);
    SidesSwap(e, Opposite(o.side));
    SidesSwap(e, o.side);
    SidesSwap(e', Opposite(o.side));
    ApartFromOpposite(e, o.side, phantoms);
    MatchReduces(opp, o.side, o.price, o.orderId, o.quantity, e.exec, MapOf(own) + phantoms);
    MapRegroup(MapOf(opp), MapOf(own), phantoms);
    MapRegroup(MapOf(m.book), MapOf(own), phantoms);
    RestingIsHeld(e, o.orderId);
    if m.left > 0 {
      RestedMap(own, m.book, Remainder(o, m.left));
      MapUpdate(MapOf(m.book) + MapOf(own), phantoms, o.orderId, View(Remainder(o, m.left)));
    }
  }

  lemma NewBookMap(e: Engine, o: Message, phantoms: P.Orders, caps: Caps)
    requires EngineOk(e, caps) && caps.orders > 0 && UniqueIds(e) && Separate(e, phantoms) && CleanStep(e, phantoms, o)
    requires o.NewOrder? && Validate(o).Accept?
    ensures var m := MatchFor(e, o);
      && Exact(Shown(e, phantoms), m.trades)
      && Shown(ProcessNew(e, o, caps).engine, phantoms + Phantom(e, o, caps))
         == P.Insert(ReduceAll(Shown(e, phantoms), m.trades), o.orderId, P.Resting(o.side, o.price, m.left))
  {
    hide BookMap;
    hide EngineOk;
    hide UniqueIds;
    if Dropped(e, o, caps) == 0 {
      RestedBookMap(e, o, phantoms, caps);
      assert phantoms + map[] == phantoms;
    } else {
      LostExactly(e, o, caps);
      var view := P.Resting(o.side, o.price, o.quantity);
      assert BookMap(e) + (phantoms + map[o.orderId := view]) == (BookMap(e) + phantoms)[o.orderId := view];
    }
  }

  lemma DropOne(a: P.Orders, b: P.Orders, c: P.Orders, id: u64)
    requires id !in b && id !in c
    ensures (a - {id}) + b + c == (a + b + c) - {id}
  {
  }

  lemma DropOther(a: P.Orders, b: P.Orders, c: P.Orders, id: u64)
    requires id !in a && id !in c
    ensures a + (b - {id}) + c == (a + b + c) - {id}
  {
  }

  lemma CancelBookMap(e: Engine, id: u64, phantoms: P.Orders, caps: Caps)
    requires caps.orders > 0 && UniqueIds(e) && Separate(e, phantoms) && IsResting(e, id)
    ensures Shown(ProcessCancel(e, id, caps).engine, phantoms) == P.Drop(Shown(e, phantoms), id)
  {
    hide MapOf;
    hide UniqueIds;
    var side := CancelSide(e, id);
    var own, other, i := e.On(side), e.On(Opposite(side)), IndexOf(e.On(side), id);
    SidesSwap(e, side);
    MapRemove(own, i);
    MapKeys(own, id);
    MapKeys(other, id);
    assert Holds(own, id);
    assert id !in phantoms;
    DropOne(MapOf(own), MapOf(other), phantoms, id);
    DropOther(MapOf(other), MapOf(own), phantoms, id);
  }

  lemma AcceptedEffect(e: Engine, o: Message, phantoms: P.Orders, caps: Caps)
    requires EngineOk(e, caps) && caps.orders > 0 && UniqueIds(e) && Separate(e, phantoms) && CleanStep(e, phantoms, o)
    requires o.NewOrder? && Validate(o).Accept?
    ensures var step, shown := ProcessNew(e, o, caps), Shown(e, phantoms);
      && BatchFor(step.events, o.orderId) && Exact(shown, step.events)
      && Effect(shown, EntryFor(o), o.orderId, step.events) == Shown(step.engine, phantoms + Phantom(e, o, caps))
  {
    hide Shown;
    hide Phantom;
    hide MatchFor;
    hide EngineOk;
    hide UniqueIds;
    hide CleanStep;
    hide Separate;
    hide Residual;
    hide Effect;
    hide Exact;
    var m := MatchFor(e, o);
    NewBookMap(e, o, phantoms, caps);
    ResidualIsLeft(e, o);
    EffectOfTrades(Shown(e, phantoms), EntryFor(o), o.orderId, m.trades);
    assert [] + FillsOf(m.trades) == FillsOf(m.trades);
    ExactPrefix(Shown(e, phantoms), m.trades, Ack(o.orderId, Accepted));
  }

  /**
   * Every command, accepted or rejected, rested or lost: its events take the projection to the engine's new book
   * plus one phantom for an order that was lost.
   */
  lemma CommandEffect(e: Engine, msg: Message, phantoms: P.Orders, caps: Caps)
    requires EngineOk(e, caps) && caps.orders > 0 && UniqueIds(e) && Separate(e, phantoms)
    requires CleanStep(e, phantoms, msg)
    ensures var step, shown := Dispatch(e, msg, caps), Shown(e, phantoms);
      && BatchFor(step.events, msg.orderId) && Exact(shown, step.events)
      && Effect(shown, EntryFor(msg), msg.orderId, step.events) == Shown(step.engine, phantoms + Phantom(e, msg, caps))
  {
    hide Shown;
    hide Dropped;
    hide EngineOk;
    hide ProcessNew;
    hide UniqueIds;
    hide Separate;
    if msg.NewOrder? && Validate(msg).Accept? {
      hide Phantom;
      AcceptedEffect(e, msg, phantoms, caps);
    } else {
      assert phantoms + Phantom(e, msg, caps) == phantoms;
      if msg.CancelOrder? && IsResting(e, msg.orderId) {
        CancelBookMap(e, msg.orderId, phantoms, caps);
      }
    }
  }

  // ---- Leaving some ids out of account ---------------------------------------------------

  /** No trade with an order outside `out` exceeds what the projection shows. */
  ghost predicate ExactBut(m: P.Orders, out: set<u64>, trades: seq<Message>)
    decreases |trades|
  {
    trades == [] || !trades[0].Trade?
    || ((trades[0].restingId !in out ==>
           trades[0].restingId in m && trades[0].quantity <= m[trades[0].restingId].remaining)
        && ExactBut(P.Reduce(m, trades[0].restingId, trades[0].quantity), out, trades[1..]))
  }

  lemma {:induction false} ExactIsExactBut(m: P.Orders, out: set<u64>, trades: seq<Message>)
    requires Exact(m, trades)
    ensures ExactBut(m, out, trades)
    decreases |trades|
  {
    if trades != [] && trades[0].Trade? {
      ExactIsExactBut(P.Reduce(m, trades[0].restingId, trades[0].quantity), out, trades[1..]);
    }
  }

  lemma SameBeyond(m: P.Orders, m': P.Orders, out: set<u64>, id: u64)
    requires m - out == m' - out && id !in out
    ensures id in m <==> id in m'
    ensures id in m ==> m[id] == m'[id]
  {
    assert id in m <==> id in m - out;
    assert id in m' <==> id in m' - out;
    assert id in m ==> m[id] == (m - out)[id];
    assert id in m' ==> m'[id] == (m' - out)[id];
  }

  lemma ReduceBeyond(m: P.Orders, m': P.Orders, out: set<u64>, id: u64, q: u32)
    requires m - out == m' - out
    ensures P.Reduce(m, id, q) - out == P.Reduce(m', id, q) - out
  {
    if id in out {
      assert P.Reduce(m, id, q) - out == m - out && P.Reduce(m', id, q) - out == m' - out;
    } else {
      SameBeyond(m, m', out, id);
      ReduceOutside(m, out, id, q);
      ReduceOutside(m', out, id, q);
    }
  }

  lemma ReduceOutside(m: P.Orders, out: set<u64>, id: u64, q: u32)
    requires id !in out
    ensures P.Reduce(m, id, q) - out == P.Reduce(m - out, id, q)
  {
    assert id in m <==> id in m - out;
    assert id in m ==> m[id] == (m - out)[id];
    if id in m {
      var r := m[id].(remaining := P.SatSub(m[id].remaining, q));
      assert m[id := r] - out == (m - out)[id := r];
      assert m - {id} - out == (m - out) - {id};
    }
  }

  /** Handling a batch leads to the same view beyond `out` from any two projections that agree there. */
  lemma {:induction false} EffectBeyond(
    m: P.Orders, m': P.Orders, out: set<u64>, entry: InFlight, id: u64, events: seq<Message>)
    requires m - out == m' - out
    ensures Effect(m, entry, id, events) - out == Effect(m', entry, id, events) - out
    ensures ReduceAll(m, events) - out == ReduceAll(m', events) - out
    ensures ExactBut(m, out, events) <==> ExactBut(m', out, events)
    decreases |events|
  {
    hide Residual;
    hide P.Reduce;
    if events != [] {
      match events[0]
      case Trade(_, _, q, _, resting) =>
        ReduceBeyond(m, m', out, resting, q);
        if resting !in out {
          SameBeyond(m, m', out, resting);
        }
        EffectBeyond(P.Reduce(m, resting, q), P.Reduce(m', resting, q), out,
                     entry.(fills := entry.fills + [FillOf(events[0])]), id, events[1..]);
      case Ack(_, kind) =>
        var r := P.Resting(entry.side, entry.price, Residual(entry));
        UpdateBeyond(m, m', out, id, r);
      case _ =>
    }
  }

  lemma UpdateBeyond(m: P.Orders, m': P.Orders, out: set<u64>, id: u64, r: P.Resting)
    requires m - out == m' - out
    ensures m[id := r] - out == m'[id := r] - out && m - {id} - out == m' - {id} - out
  {
    assert m[id := r] - out == if id in out then m - out else (m - out)[id := r];
    assert m'[id := r] - out == if id in out then m' - out else (m' - out)[id := r];
    assert m - {id} - out == (m - out) - {id} && m' - {id} - out == (m' - out) - {id};
  }

  /** Apart from its own id, a batch does to the projection what its trades do. */
  lemma {:induction false} EffectIsTrades(m: P.Orders, entry: InFlight, id: u64, events: seq<Message>)
    ensures Effect(m, entry, id, events) - {id} == ReduceAll(m, events) - {id}
    decreases |events|
  {
    hide Residual;
    if events != [] && events[0].Trade? {
      EffectIsTrades(P.Reduce(m, events[0].restingId, events[0].quantity),
                     entry.(fills := entry.fills + [FillOf(events[0])]), id, events[1..]);
    }
  }

  lemma MoreLeftOut(m: P.Orders, m': P.Orders, out: set<u64>, more: set<u64>)
    requires m - out == m' - out && out <= more
    ensures m - more == m' - more
  {
    assert m - more == (m - out) - more && m' - more == (m' - out) - more;
  }

  lemma {:induction false} ExactButMore(m: P.Orders, out: set<u64>, more: set<u64>, trades: seq<Message>)
    requires ExactBut(m, out, trades) && out <= more
    ensures ExactBut(m, more, trades)
    decreases |trades|
  {
    if trades != [] && trades[0].Trade? {
      ExactButMore(P.Reduce(m, trades[0].restingId, trades[0].quantity), out, more, trades[1..]);
    }
  }

  // ---- The phantoms of a whole run ------------------------------------------------------

  /** Every command is one the gateway may send at that point. */
  ghost predicate CleanRun(e: Engine, phantoms: P.Orders, msgs: seq<Message>, caps: Caps)
    requires caps.orders > 0
    decreases |msgs|
  {
    msgs == []
    || (CleanStep(e, phantoms, msgs[0])
        && CleanRun(Dispatch(e, msgs[0], caps).engine, phantoms + Phantom(e, msgs[0], caps), msgs[1..], caps))
  }

  /** A command makes no phantom rest and no resting order a phantom. */
  lemma StepSeparate(e: Engine, phantoms: P.Orders, msg: Message, caps: Caps)
    requires EngineOk(e, caps) && caps.orders > 0 && Separate(e, phantoms) && CleanStep(e, phantoms, msg)
    ensures Separate(Dispatch(e, msg, caps).engine, phantoms + Phantom(e, msg, caps))
  {
    hide Dispatch;
    hide IsResting;
    hide EngineOk;
    var e' := Dispatch(e, msg, caps).engine;
    forall id | id in phantoms + Phantom(e, msg, caps) ensures !IsResting(e', id) {
      if IsResting(e', id) {
        StepRests(e, msg, caps, id);
      }
      if id in Phantom(e, msg, caps) {
        LostExactly(e, msg, caps);
      }
    }
  }

  lemma {:induction false} RunSeparate(e: Engine, phantoms: P.Orders, msgs: seq<Message>, caps: Caps)
    requires EngineOk(e, caps) && caps.orders > 0 && Separate(e, phantoms) && CleanRun(e, phantoms, msgs, caps)
    ensures Separate(Run(e, msgs, caps), phantoms + Phantoms(e, msgs, caps))
    decreases |msgs|
  {
    hide Dispatch;
    hide Separate;
    hide EngineOk;
    hide CleanStep;
    hide Phantom;
    if msgs == [] {
      assert phantoms + map[] == phantoms;
    } else {
      var e', phantom := Dispatch(e, msgs[0], caps).engine, Phantom(e, msgs[0], caps);
      StepSeparate(e, phantoms, msgs[0], caps);
      DispatchOk(e, msgs[0], caps);
      RunSeparate(e', phantoms + phantom, msgs[1..], caps);
      MapRegroup(phantoms, phantom, Phantoms(e', msgs[1..], caps));
    }
  }

  /** There are phantoms iff quantity was lost. */
  lemma {:induction false} PhantomsTell(e: Engine, msgs: seq<Message>, caps: Caps)
    requires caps.orders > 0
    ensures Phantoms(e, msgs, caps) == map[] <==> Account(e, msgs, caps).lost == 0
    decreases |msgs|
  {
    hide Dispatch;
    hide Lost;
    if msgs != [] {
      var rest := Phantoms(Dispatch(e, msgs[0], caps).engine, msgs[1..], caps);
      PhantomsTell(Dispatch(e, msgs[0], caps).engine, msgs[1..], caps);
      LostIsNew(e, msgs[0], caps);
      if Lost(e, msgs[0], caps) > 0 {
        assert msgs[0].orderId in Phantom(e, msgs[0], caps) + rest;
      } else {
        assert map[] + rest == rest;
      }
    }
  }

  lemma LostIsNew(e: Engine, msg: Message, caps: Caps)
    ensures Lost(e, msg, caps) > 0 ==> msg.NewOrder?
  {
  }

  /** Beyond `out`, the projection is the engine's book iff every phantom is in `out`. */
  lemma ShownTells(e: Engine, phantoms: P.Orders, out: set<u64>)
    requires Separate(e, phantoms)
    ensures Shown(e, phantoms) - out == BookMap(e) - out <==> phantoms.Keys <= out
  {
    if id :| id in phantoms && id !in out {
      RestingIsHeld(e, id);
      MapKeys(e.bids, id);
      MapKeys(e.asks, id);
      assert id in Shown(e, phantoms) - out && id !in BookMap(e) - out;
    } else {
      assert Shown(e, phantoms) - out == BookMap(e) - out;
    }
  }

  /**
   * After a clean run from a fresh engine the projection is, beyond `out`, the engine's book iff every lost order is in
   * `out`; there is a lost order iff quantity was lost.
   */
  lemma ShownExactly(msgs: seq<Message>, out: set<u64>, caps: Caps)
    requires caps.orders > 0 && CleanRun(FRESH_ENGINE, map[], msgs, caps)
    ensures var e, phantoms := Run(FRESH_ENGINE, msgs, caps), Phantoms(FRESH_ENGINE, msgs, caps);
      && (Shown(e, phantoms) - out == BookMap(e) - out <==> phantoms.Keys <= out)
      && (phantoms.Keys == {} <==> Account(FRESH_ENGINE, msgs, caps).lost == 0)
  {
    var phantoms := Phantoms(FRESH_ENGINE, msgs, caps);
    FreshEngineOk(caps);
    RunSeparate(FRESH_ENGINE, map[], msgs, caps);
    assert map[] + phantoms == phantoms;
    ShownTells(Run(FRESH_ENGINE, msgs, caps), phantoms, out);
    PhantomsTell(FRESH_ENGINE, msgs, caps);
    assert phantoms.Keys == {} <==> phantoms == map[];
  }
}
