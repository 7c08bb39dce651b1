/** The matching engine as a function from commands to events, and the invariant every command keeps. */
module Engine {
  import opened Wire
  import opened LinkedNodes
  import opened BookModel
  import opened Matching
  import opened RetiredIds

  datatype Engine = Engine(bids: seq<Order>, asks: seq<Order>, exec: u64, retired: seq<u64>) {
    function On(side: Side): seq<Order> {
      if side.Buy? then bids else asks
    }
  }

  const FRESH_ENGINE := Engine([], [], 1, [])

  datatype Step = Step(engine: Engine, events: seq<Message>)

  function WithSides(e: Engine, side: Side, own: seq<Order>, other: seq<Order>): Engine {
    if side.Buy? then e.(bids := own, asks := other) else e.(bids := other, asks := own)
  }

  datatype Verdict = Accept | Refuse(reason: RejectReason)

  /** Quantity is checked before price. */
  function Validate(o: Message): Verdict
    requires o.NewOrder?
  {
    if o.quantity < MIN_QUANTITY || o.quantity > MAX_ENGINE_QUANTITY then Refuse(InvalidQuantity)
    else if o.price < MIN_PRICE || o.price > MAX_PRICE then Refuse(InvalidPrice)
    else Accept
  }

  function MatchFor(e: Engine, o: Message): Matched
    requires o.NewOrder?
  {
    Match(e.On(Opposite(o.side)), o.side, o.price, o.orderId, o.quantity, e.exec)
  }

  /** The unmatched remainder as a resting order. */
  function Remainder(o: Message, left: u32): Order
    requires o.NewOrder?
  {
    Order(o.orderId, o.side, o.price, o.arrival, left)
  }

  /** Whether the remainder, if any, finds room in the pools. */
  predicate Rests(e: Engine, o: Message, caps: Caps)
    requires o.NewOrder?
  {
    MatchFor(e, o).left > 0 && CanRest(e.On(o.side), MatchFor(e, o).book, o.price, caps)
  }

  /** The quantity that is neither traded nor rested, lost to a full pool. */
  function Dropped(e: Engine, o: Message, caps: Caps): nat
    requires o.NewOrder?
  {
    if Rests(e, o, caps) then 0 else MatchFor(e, o).left
  }

  /** Match a validated order and rest what is left of it. */
  function ProcessNew(e: Engine, o: Message, caps: Caps): Step
    requires o.NewOrder? && caps.orders > 0
  {
    var m := MatchFor(e, o);
    var own := e.On(o.side);
    var own' := if Rests(e, o, caps) then InsertSorted(own, Remainder(o, m.left)) else own;
    Step(WithSides(e, o.side, own', m.book).(exec := m.exec, retired := RetireAll(e.retired, m.gone, caps.orders)),
         m.trades + [Ack(o.orderId, Accepted)])
  }

  /** The side a cancel looks at: bids first, asks when no bid has the id. */
  function CancelSide(e: Engine, id: u64): Side {
    if IndexOf(e.bids, id) < |e.bids| then Buy else Sell
  }

  predicate IsResting(e: Engine, id: u64) {
    IndexOf(e.On(CancelSide(e, id)), id) < |e.On(CancelSide(e, id))|
  }

  function ProcessCancel(e: Engine, id: u64, caps: Caps): Step
    requires caps.orders > 0
  {
    var side := CancelSide(e, id);
    var own, i := e.On(side), IndexOf(e.On(side), id);
    if i == |own| then
      Step(e, [Reject(id, if id in e.retired then NoLongerResting else OrderNotFound)])
    else
      Step(WithSides(e, side, RemoveAt(own, i), e.On(Opposite(side))).(retired := Retire(e.retired, id, caps.orders)),
           [Ack(id, Cancelled)])
  }

  /** The id an out-of-place message is reported under. */
  function InvalidId(msg: Message): u64 {
    match msg
    case Trade(_, _, _, incoming, _) => incoming
    case Ack(id, _) => id
    case Reject(id, _) => id
    case _ => 0
  }

  /** One message through the engine: its new state and the events it emits. */
  function Dispatch(e: Engine, msg: Message, caps: Caps): Step
    requires caps.orders > 0
  {
    match msg
    case NewOrder(id, _, _, _, _) =>
      if Validate(msg).Accept? then ProcessNew(e, msg, caps) else Step(e, [Reject(id, Validate(msg).reason)])
    case CancelOrder(id) => ProcessCancel(e, id, caps)
    case _ => Step(e, [Reject(InvalidId(msg), IntegrityViolation)])
  }

  /** A whole run. */
  function Run(e: Engine, msgs: seq<Message>, caps: Caps): Engine
    requires caps.orders > 0
    decreases |msgs|
  {
    if msgs == [] then e else Run(Dispatch(e, msgs[0], caps).engine, msgs[1..], caps)
  }

  function Events(e: Engine, msgs: seq<Message>, caps: Caps): seq<Message>
    requires caps.orders > 0
    decreases |msgs|
  {
    if msgs == [] then []
    else Dispatch(e, msgs[0], caps).events + Events(Dispatch(e, msgs[0], caps).engine, msgs[1..], caps)
  }

  // ---- The invariant ------------------------------------------------------

  ghost predicate SideOk(s: seq<Order>, side: Side) {
    && Sorted(s) && OnSide(s, side)
    && forall i :: 0 <= i < |s| ==> InDomain(s[i])
  }

  predicate InDomain(o: Order) {
    MIN_QUANTITY <= o.qty <= MAX_ENGINE_QUANTITY && MIN_PRICE <= o.price <= MAX_PRICE
  }

  ghost predicate Uncrossed(bids: seq<Order>, asks: seq<Order>) {
    forall i, j :: 0 <= i < |bids| && 0 <= j < |asks| ==> bids[i].price < asks[j].price
  }

  /** Sorted, un-crossed, every quantity and price in range, and within the pools. */
  ghost predicate EngineOk(e: Engine, caps: Caps) {
    && SideOk(e.bids, Buy) && SideOk(e.asks, Sell) && Uncrossed(e.bids, e.asks)
    && |e.bids| + |e.asks| <= caps.orders
    && |Prices(e.bids)| + |Prices(e.asks)| <= caps.levels
    && NoRepeats(e.retired) && |e.retired| <= caps.orders
  }

  predicate SameBut(a: Order, b: Order) {
    a.(qty := b.qty) == b
  }

  /** What is left of a matched side: its tail, with only the front quantity possibly reduced. */
  ghost predicate TailOf(book: seq<Order>, opp: seq<Order>, n: nat) {
    && n <= |opp| && |book| == |opp| - n
    && (forall i :: 0 <= i < |book| ==> SameBut(book[i], opp[n + i]) && 0 < book[i].qty <= opp[n + i].qty)
    && (forall i :: 0 < i < |book| ==> book[i] == opp[n + i])
  }

  lemma TailShift(book: seq<Order>, opp: seq<Order>, n: nat)
    requires opp != [] && TailOf(book, opp[1..], n)
    ensures TailOf(book, opp, n + 1)
  {
  }

  lemma TailFront(opp: seq<Order>, qty: u32)
    requires Positive(opp)
    ensures TailOf(opp, opp, 0)
    ensures opp != [] && 0 < qty <= opp[0].qty ==> TailOf([opp[0].(qty := qty)] + opp[1..], opp, 0)
  {
  }

  lemma {:induction false} MatchTail(opp: seq<Order>, side: Side, limit: u64, id: u64, left: u32, exec: u64)
    requires Positive(opp)
    ensures var m := Match(opp, side, limit, id, left, exec); TailOf(m.book, opp, |m.gone|)
    decreases |opp|
  {
    hide TailOf;
    hide Match;
    TailFront(opp, 0);
    if left == 0 || opp == [] || !Crosses(side, limit, opp[0].price) {
      MatchStops(opp, side, limit, id, left, exec);
    } else if left >= opp[0].qty {
      MatchFills(opp, side, limit, id, left, exec);
      MatchTail(opp[1..], side, limit, id, left - opp[0].qty, Next64(exec));
      var m' := Match(opp[1..], side, limit, id, left - opp[0].qty, Next64(exec));
      TailShift(m'.book, opp, |m'.gone|);
    } else {
      MatchReducesFront(opp, side, limit, id, left, exec);
      TailFront(opp, opp[0].qty - left);
    }
  }

  /** When quantity is left over, nothing eligible remains. */
  lemma {:induction false} MatchExhausts(opp: seq<Order>, side: Side, limit: u64, id: u64, left: u32, exec: u64)
    ensures var m := Match(opp, side, limit, id, left, exec);
      m.left <= left && (m.left > 0 ==> m.book == [] || !Crosses(side, limit, m.book[0].price))
    decreases |opp|
  {
    if left > 0 && opp != [] && Crosses(side, limit, opp[0].price) && left >= opp[0].qty {
      MatchExhausts(opp[1..], side, limit, id, left - opp[0].qty, Next64(exec));
    }
  }

  lemma TailSideOk(book: seq<Order>, opp: seq<Order>, n: nat, side: Side)
    requires TailOf(book, opp, n) && SideOk(opp, side)
    ensures SideOk(book, side)
  {
    forall i, j | 0 <= i < j < |book| ensures !Ahead(book[j], book[i]) {
      assert !Ahead(opp[n + j], opp[n + i]);
    }
  }

  lemma TailPrices(book: seq<Order>, opp: seq<Order>, n: nat)
    requires TailOf(book, opp, n)
    ensures Prices(book) <= Prices(opp) && |Prices(book)| <= |Prices(opp)|
  {
    forall p | p in Prices(book) ensures p in Prices(opp) {
      var i :| 0 <= i < |book| && book[i].price == p;
      assert SameBut(book[i], opp[n + i]);
    }
    SubsetSize(Prices(book), Prices(opp));
  }

  /** No order of `own`, on `side`, would trade with any of `other`. */
  ghost predicate Apart(own: seq<Order>, other: seq<Order>, side: Side) {
    forall i, j :: 0 <= i < |own| && 0 <= j < |other| ==> !Crosses(side, own[i].price, other[j].price)
  }

  lemma UncrossedIsApart(e: Engine, side: Side)
    ensures Uncrossed(e.bids, e.asks) <==> Apart(e.On(side), e.On(Opposite(side)), side)
  {
  }

  lemma InsertSideOk(s: seq<Order>, o: Order)
    requires SideOk(s, o.side) && MIN_QUANTITY <= o.qty <= MAX_ENGINE_QUANTITY && MIN_PRICE <= o.price <= MAX_PRICE
    ensures SideOk(InsertSorted(s, o), o.side)
  {
    InsertKeepsSorted(s, o);
    InsertSortedAt(s, o, InsertPoint(s, o));
  }

  lemma PricesCons(x: Order, s: seq<Order>)
    ensures Prices([x] + s) == {x.price} + Prices(s)
  {
    var r := [x] + s;
    assert r[0] == x;
    forall q | q in Prices(s) ensures q in Prices(r) {
      var i :| 0 <= i < |s| && s[i].price == q;
      assert r[i + 1] == s[i];
    }
  }

  lemma {:induction false} InsertPrices(s: seq<Order>, o: Order)
    ensures Prices(InsertSorted(s, o)) == Prices(s) + {o.price}
  {
    hide Prices;
    if s == [] || Ahead(o, s[0]) {
      PricesCons(o, s);
    } else {
      InsertPrices(s[1..], o);
      PricesCons(s[0], InsertSorted(s[1..], o));
      PricesCons(s[0], s[1..]);
      assert s == [s[0]] + s[1..];
    }
  }

  lemma InsertApart(s: seq<Order>, o: Order, other: seq<Order>)
    requires Apart(s, other, o.side)
    requires forall j :: 0 <= j < |other| ==> !Crosses(o.side, o.price, other[j].price)
    ensures Apart(InsertSorted(s, o), other, o.side)
  {
    InsertSortedAt(s, o, InsertPoint(s, o));
  }

  /** Left-over quantity cannot trade with anything that is still resting opposite. */
  lemma RemainderApart(e: Engine, o: Message, caps: Caps)
    requires EngineOk(e, caps) && o.NewOrder? && MatchFor(e, o).left > 0
    ensures forall j :: 0 <= j < |MatchFor(e, o).book| ==> !Crosses(o.side, o.price, MatchFor(e, o).book[j].price)
  {
    var opp, m := e.On(Opposite(o.side)), MatchFor(e, o);
    MatchTail(opp, o.side, o.price, o.orderId, o.quantity, e.exec);
    MatchExhausts(opp, o.side, o.price, o.orderId, o.quantity, e.exec);
    TailSideOk(m.book, opp, |m.gone|, Opposite(o.side));
    forall j | 0 <= j < |m.book| ensures !Crosses(o.side, o.price, m.book[j].price) {
      assert j > 0 ==> !Ahead(m.book[j], m.book[0]);
    }
  }

  lemma {:induction false} RetireAllBounded(q: seq<u64>, ids: seq<u64>, capacity: nat)
    requires capacity > 0 && NoRepeats(q) && |q| <= capacity
    ensures NoRepeats(RetireAll(q, ids, capacity)) && |RetireAll(q, ids, capacity)| <= capacity
    decreases |ids|
  {
    if ids != [] {
      RetireAllBounded(Retire(q, ids[0], capacity), ids[1..], capacity);
    }
  }

  /** Matching keeps the opposite side well-formed, no larger, and apart from the own side. */
  lemma MatchKeeps(e: Engine, o: Message, caps: Caps)
    requires EngineOk(e, caps) && o.NewOrder?
    ensures var opp, m := e.On(Opposite(o.side)), MatchFor(e, o);
      && SideOk(m.book, Opposite(o.side)) && |m.book| == |opp| - |m.gone| && |Prices(m.book)| <= |Prices(opp)|
      && Apart(e.On(o.side), m.book, o.side)
  {
    var opp, m := e.On(Opposite(o.side)), MatchFor(e, o);
    MatchTail(opp, o.side, o.price, o.orderId, o.quantity, e.exec);
    TailSideOk(m.book, opp, |m.gone|, Opposite(o.side));
    TailPrices(m.book, opp, |m.gone|);
    UncrossedIsApart(e, o.side);
    forall i, j | 0 <= i < |e.On(o.side)| && 0 <= j < |m.book|
      ensures !Crosses(o.side, e.On(o.side)[i].price, m.book[j].price)
    {
      assert SameBut(m.book[j], opp[|m.gone| + j]);
    }
  }

  lemma PriceAdded(prices: set<u64>, p: u64)
    ensures |prices + {p}| == if p in prices then |prices| else |prices| + 1
  {
    assert p in prices ==> prices + {p} == prices;
  }

  /** Resting the remainder keeps its side well-formed, within the pools and apart from the other. */
  lemma RestKeeps(e: Engine, o: Message, caps: Caps)
    requires EngineOk(e, caps) && o.NewOrder? && Validate(o).Accept? && Rests(e, o, caps)
    ensures var own', book := InsertSorted(e.On(o.side), Remainder(o, MatchFor(e, o).left)), MatchFor(e, o).book;
      && SideOk(own', o.side) && |own'| + |book| <= caps.orders && |Prices(own')| + |Prices(book)| <= caps.levels
      && Apart(own', book, o.side)
  {
    hide MatchFor;
    var own, m := e.On(o.side), MatchFor(e, o);
    var r := Remainder(o, m.left);
    RemainderApart(e, o, caps);
    MatchKeeps(e, o, caps);
    LeftBounded(e, o);
    InsertSideOk(own, r);
    InsertPrices(own, r);
    PriceAdded(Prices(own), r.price);
    InsertAddsOne(own, r);
    InsertApart(own, r, m.book);
  }

  lemma LeftBounded(e: Engine, o: Message)
    requires o.NewOrder?
    ensures MatchFor(e, o).left <= o.quantity
  {
    MatchExhausts(e.On(Opposite(o.side)), o.side, o.price, o.orderId, o.quantity, e.exec);
  }

  lemma WithSidesOk(e: Engine, side: Side, own: seq<Order>, other: seq<Order>, caps: Caps)
    requires SideOk(own, side) && SideOk(other, Opposite(side)) && Apart(own, other, side)
    requires |own| + |other| <= caps.orders && |Prices(own)| + |Prices(other)| <= caps.levels
    requires NoRepeats(e.retired) && |e.retired| <= caps.orders
    ensures EngineOk(WithSides(e, side, own, other), caps)
  {
    hide SideOk;
    UncrossedIsApart(WithSides(e, side, own, other), side);
  }

  /** Every accepted order keeps the invariant. */
  lemma ProcessNewOk(e: Engine, o: Message, caps: Caps)
    requires EngineOk(e, caps) && caps.orders > 0 && o.NewOrder? && Validate(o).Accept?
    ensures EngineOk(ProcessNew(e, o, caps).engine, caps)
  {
    hide MatchFor;
    hide SideOk;
    hide Apart;
    hide Rests;
    hide RetireAll;
    hide NoRepeats;
    hide InsertSorted;
    hide Prices;
    hide Uncrossed;
    var m := MatchFor(e, o);
    MatchKeeps(e, o, caps);
    RetireAllBounded(e.retired, m.gone, caps.orders);
    if Rests(e, o, caps) {
      RestKeeps(e, o, caps);
    }
    var own' := if Rests(e, o, caps) then InsertSorted(e.On(o.side), Remainder(o, m.left)) else e.On(o.side);
    WithSidesOk(e.(exec := m.exec, retired := RetireAll(e.retired, m.gone, caps.orders)), o.side, own', m.book, caps);
  }

  lemma RemoveSideOk(s: seq<Order>, i: nat, side: Side)
    requires SideOk(s, side) && i < |s|
    ensures SideOk(RemoveAt(s, i), side) && |Prices(RemoveAt(s, i))| <= |Prices(s)|
    ensures forall k :: 0 <= k < |s| - 1 ==> RemoveAt(s, i)[k] in s
  {
    var r := RemoveAt(s, i);
    forall a, b | 0 <= a < b < |r| ensures !Ahead(r[b], r[a]) {
      assert !Ahead(s[if b < i then b else b + 1], s[if a < i then a else a + 1]);
    }
    forall p | p in Prices(r) ensures p in Prices(s) {
      var k :| 0 <= k < |r| && r[k].price == p;
      assert r[k] == s[if k < i then k else k + 1];
    }
    SubsetSize(Prices(r), Prices(s));
  }

  lemma ProcessCancelOk(e: Engine, id: u64, caps: Caps)
    requires EngineOk(e, caps) && caps.orders > 0
    ensures EngineOk(ProcessCancel(e, id, caps).engine, caps)
  {
    var side := CancelSide(e, id);
    var own := e.On(side);
    if IndexOf(own, id) < |own| {
      RemoveSideOk(own, IndexOf(own, id), side);
      UncrossedIsApart(e, side);
      UncrossedIsApart(ProcessCancel(e, id, caps).engine, side);
      RetireAllBounded(e.retired, [id], caps.orders);
    }
  }

  /** Every message, valid or not, keeps the invariant. */
  lemma DispatchOk(e: Engine, msg: Message, caps: Caps)
    requires EngineOk(e, caps) && caps.orders > 0
    ensures EngineOk(Dispatch(e, msg, caps).engine, caps)
  {
    hide EngineOk;
    match msg
    case NewOrder(_, _, _, _, _) =>
      if Validate(msg).Accept? {
        ProcessNewOk(e, msg, caps);
      }
    case CancelOrder(id) => ProcessCancelOk(e, id, caps);
    case _ =>
  }

  /** After every prefix of every run the book is sorted, un-crossed and within its limits. */
  lemma {:induction false} RunOk(e: Engine, msgs: seq<Message>, caps: Caps)
    requires EngineOk(e, caps) && caps.orders > 0
    ensures EngineOk(Run(e, msgs, caps), caps)
    decreases |msgs|
  {
    hide EngineOk;
    if msgs != [] {
      DispatchOk(e, msgs[0], caps);
      RunOk(Dispatch(e, msgs[0], caps).engine, msgs[1..], caps);
    }
  }
}
