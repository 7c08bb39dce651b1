/** The matching core over the linked book and the retired-id table, refining the engine model. */
module MatchingEngine {
  import opened Wire
  import opened LinkedNodes
  import opened BookModel
  import opened Matching
  import opened RetiredIds
  import opened OrderBook
  import E = Engine

  /** One turn of the matching loop, filling the front order or not. */
  lemma MatchStep(opp: seq<Order>, side: Side, limit: u64, id: u64, left: u32, exec: u64)
    requires left > 0 && opp != [] && Crosses(side, limit, opp[0].price)
    ensures var q := Min(left, opp[0].qty);
      var rest := if q == opp[0].qty then opp[1..] else opp[0 := opp[0].(qty := opp[0].qty - q)];
      var m, m' := Match(opp, side, limit, id, left, exec), Match(rest, side, limit, id, left - q, Next64(exec));
      && m.trades == [Trade(exec, opp[0].price, q, id, opp[0].id)] + m'.trades
      && m.gone == (if q == opp[0].qty then [opp[0].id] else []) + m'.gone
      && m.book == m'.book && m.left == m'.left && m.exec == m'.exec
  {
    var q := Min(left, opp[0].qty);
    assert opp[0 := opp[0].(qty := opp[0].qty - q)] == [opp[0].(qty := opp[0].qty - q)] + opp[1..];
  }

  /** `m` is what has been emitted so far followed by what `rest` will still do. */
  ghost predicate Continues(m: Matched, trades: seq<Message>, gone: seq<u64>, rest: Matched) {
    && m.trades == trades + rest.trades && m.gone == gone + rest.gone
    && m.book == rest.book && m.left == rest.left && m.exec == rest.exec
  }

  lemma ContinuesStart(m: Matched)
    ensures Continues(m, [], [], m)
  {
  }

  lemma ContinuesStep(m: Matched, trades: seq<Message>, gone: seq<u64>,
                      opp: seq<Order>, side: Side, limit: u64, id: u64, left: u32, exec: u64)
    requires left > 0 && opp != [] && Crosses(side, limit, opp[0].price)
    requires Continues(m, trades, gone, Match(opp, side, limit, id, left, exec))
    ensures var q := Min(left, opp[0].qty);
      var rest := if q == opp[0].qty then opp[1..] else opp[0 := opp[0].(qty := opp[0].qty - q)];
      Continues(m, trades + [Trade(exec, opp[0].price, q, id, opp[0].id)],
                if q == opp[0].qty then gone + [opp[0].id] else gone,
                Match(rest, side, limit, id, left - q, Next64(exec)))
  {
    hide Match;
    MatchStep(opp, side, limit, id, left, exec);
  }

  lemma ContinuesEnd(m: Matched, trades: seq<Message>, gone: seq<u64>,
                     opp: seq<Order>, side: Side, limit: u64, id: u64, left: u32, exec: u64)
    requires left == 0 || opp == [] || !Crosses(side, limit, opp[0].price)
    requires Continues(m, trades, gone, Match(opp, side, limit, id, left, exec))
    ensures m == Matched(trades, opp, left, exec, gone)
  {
  }

  lemma RetireNone(q: seq<u64>, capacity: nat)
    requires capacity > 0
    ensures RetireAll(q, [], capacity) == q
  {
  }

  lemma {:induction false} RetireAllAppend(q: seq<u64>, ids: seq<u64>, id: u64, capacity: nat)
    requires capacity > 0
    ensures RetireAll(q, ids + [id], capacity) == Retire(RetireAll(q, ids, capacity), id, capacity)
    decreases |ids|
  {
    if ids != [] {
      RetireAllAppend(Retire(q, ids[0], capacity), ids[1..], id, capacity);
      assert (ids + [id])[1..] == ids[1..] + [id];
    }
  }

  class MatchingEngine {
    const book: Book
    const retired: RetiredIdSet
    var exec: u64

    ghost function Repr(): set<object> {
      book.Repr() + {this, retired, retired.slots, retired.ring}
    }

    ghost predicate Valid()
      reads Repr()
    {
      && book.Valid() && retired.Valid() && 0 < retired.capacity == book.caps.orders
      && this !in book.Repr() && {retired, retired.slots, retired.ring} !! book.Repr()
    }

    /** The abstract engine state. */
    ghost function State(): E.Engine
      reads Repr()
    {
      E.Engine(book.Resting(Buy), book.Resting(Sell), exec, retired.Queue())
    }

    constructor (caps: Caps, size: nat, home: u64 -> nat)
      requires 0 < caps.orders <= NULL && 0 < caps.levels <= NULL && 2 * caps.orders <= size && HomeOk(home, size)
      ensures Valid() && fresh(Repr()) && book.caps == caps && State() == E.FRESH_ENGINE
    {
      hide Book.Valid;
      hide Book.Resting;
      hide RetiredIdSet.Valid;
      hide RetiredIdSet.Queue;
      book := new Book(caps);
      retired := new RetiredIdSet(caps.orders, size, home);
      exec := 1;
    }

    /** Empty the book and the retired record; the execution counter goes on. */
    method Clear()
      requires Valid()
      modifies Repr()
      ensures Valid() && State() == E.FRESH_ENGINE.(exec := old(exec))
    {
      hide Book.Valid;
      hide Book.Resting;
      hide RetiredIdSet.Valid;
      hide RetiredIdSet.Queue;
      book.ValidIsShaped();
      book.Clear();
      retired.Clear();
    }

    /** Give the front order its share: reduce it, or retire and remove it when it is used up. */
    method TakeFront(node: nat, qty: u32, ghost side: Side)
      requires Valid() && book.St().Slots(side) != [] && book.St().Slots(side)[0] == node < book.orders.slots.Length
      requires book.Resting(side) != [] && book.orders.slots[node].item == book.Resting(side)[0]
      requires qty <= book.Resting(side)[0].qty
      modifies Repr()
      ensures Valid() && exec == old(exec)
      ensures book.Resting(Opposite(side)) == old(book.Resting(Opposite(side)))
      ensures var opp, q := old(book.Resting(side)), old(retired.Queue());
        && book.Resting(side) == (if qty == opp[0].qty then opp[1..] else opp[0 := opp[0].(qty := opp[0].qty - qty)])
        && retired.Queue() == (if qty == opp[0].qty then Retire(q, opp[0].id, retired.capacity) else q)
    {
      hide Book.Valid;
      hide Book.Resting;
      hide RetiredIdSet.Valid;
      hide RetiredIdSet.Queue;
      ghost var opp := book.Resting(side);
      var resting := book.orders.slots[node].item;
      book.SetQuantity(node, resting.qty - qty, side, 0);
      if resting.qty - qty == 0 {
        retired.Insert(resting.id);
        book.RemoveOrder(node, side, 0);
        assert book.Resting(side) == opp[1..];
      }
    }

    /** Number the next execution and take its quantity from the best opposite order. */
    method Execute(node: nat, qty: u32, ghost side: Side)
      requires Valid() && book.St().Slots(side) != [] && book.St().Slots(side)[0] == node < book.orders.slots.Length
      requires book.Resting(side) != [] && book.orders.slots[node].item == book.Resting(side)[0]
      requires qty <= book.Resting(side)[0].qty
      modifies Repr()
      ensures Valid() && exec == Next64(old(exec))
      ensures book.Resting(Opposite(side)) == old(book.Resting(Opposite(side)))
      ensures var opp, q := old(book.Resting(side)), old(retired.Queue());
        && book.Resting(side) == (if qty == opp[0].qty then opp[1..] else opp[0 := opp[0].(qty := opp[0].qty - qty)])
        && retired.Queue() == (if qty == opp[0].qty then Retire(q, opp[0].id, retired.capacity) else q)
    {
      hide Book.Valid;
      hide Book.Resting;
      hide RetiredIdSet.Valid;
      hide RetiredIdSet.Queue;
      exec := Next64(exec);
      TakeFront(node, qty, side);
    }

    /** The matching loop; the trade sink receives `trades` in this order. */
    method MatchIncoming(o: Message) returns (trades: seq<Message>, remaining: u32)
      requires Valid() && o.NewOrder?
      modifies Repr()
      ensures Valid()
      ensures var m := E.MatchFor(old(State()), o);
        && trades == m.trades && remaining == m.left && exec == m.exec
        && book.Resting(Opposite(o.side)) == m.book && book.Resting(o.side) == old(book.Resting(o.side))
        && retired.Queue() == RetireAll(old(retired.Queue()), m.gone, book.caps.orders)
    {
      hide Book.Valid;
      hide Book.Resting;
      hide RetiredIdSet.Valid;
      hide RetiredIdSet.Queue;
      hide Match;
      hide Continues;
      hide Book.Repr;
      hide RetireAll;
      hide Retire;
      var opposite := Opposite(o.side);
      ghost var m, q0 := E.MatchFor(State(), o), retired.Queue();
      ghost var gone: seq<u64> := [];
      ContinuesStart(m);
      RetireNone(q0, book.caps.orders);
      remaining, trades := o.quantity, [];
      while remaining > 0
        invariant Valid() && book.Resting(o.side) == old(book.Resting(o.side))
        invariant retired.Queue() == RetireAll(q0, gone, book.caps.orders)
        invariant Continues(m, trades, gone, Match(book.Resting(opposite), o.side, o.price, o.orderId, remaining, exec))
        decreases |book.Resting(opposite)|, remaining
      {
        assert allocated(book.Repr());
        var node, price := book.Front(opposite);
        ghost var opp := book.Resting(opposite);
        if node == NULL || !Crosses(o.side, o.price, price) {
          break;
        }
        var resting := book.orders.slots[node].item;
        var qty := Min(remaining, resting.qty);
        ContinuesStep(m, trades, gone, opp, o.side, o.price, o.orderId, remaining, exec);
        trades := trades + [Trade(exec, resting.price, qty, o.orderId, resting.id)];
        remaining := remaining - qty;
        Execute(node, qty, opposite);
        if qty == resting.qty {
          RetireAllAppend(q0, gone, resting.id, book.caps.orders);
          gone := gone + [resting.id];
        }
      }
      ContinuesEnd(m, trades, gone, book.Resting(opposite), o.side, o.price, o.orderId, remaining, exec);
    }

    /** Match an already validated order in price-time priority and rest what is left of it, if there is room. */
    method ProcessNewOrder(o: Message) returns (trades: seq<Message>, rested: u32)
      requires Valid() && o.NewOrder?
      modifies Repr()
      ensures Valid()
      ensures State() == E.ProcessNew(old(State()), o, book.caps).engine
      ensures trades == E.MatchFor(old(State()), o).trades
      ensures rested == if E.Rests(old(State()), o, book.caps) then E.MatchFor(old(State()), o).left else 0
    {
      hide Book.Valid;
      hide Book.Resting;
      hide RetiredIdSet.Valid;
      hide RetiredIdSet.Queue;
      hide E.MatchFor;
      hide CanRest;
      hide Book.Repr;
      hide InsertSorted;
      hide RetireAll;
      var remaining;
      trades, remaining := MatchIncoming(o);
      rested := 0;
      if remaining > 0 {
        var ok := book.InsertOrder(Order(o.orderId, o.side, o.price, o.arrival, remaining));
        rested := if ok then remaining else 0;
      }
    }

    /** Validate, then match; an invalid order is only rejected. */
    method ProcessValidated(o: Message) returns (events: seq<Message>, accepted: bool)
      requires Valid() && o.NewOrder?
      modifies Repr()
      ensures Valid()
      ensures accepted <==> 1 <= o.quantity <= 1_000_000 && 1 <= o.price <= 99_999_999_999
      ensures !accepted ==>
        events == [Reject(o.orderId, if 1 <= o.quantity <= 1_000_000 then InvalidPrice else InvalidQuantity)]
      ensures State() == E.Dispatch(old(State()), o, book.caps).engine
      ensures E.Dispatch(old(State()), o, book.caps).events
           == events + (if accepted then [Ack(o.orderId, Accepted)] else [])
    {
      hide Book.Valid;
      hide Book.Resting;
      hide RetiredIdSet.Valid;
      hide RetiredIdSet.Queue;
      hide E.MatchFor;
      var verdict := E.Validate(o);
      if verdict.Refuse? {
        return [Reject(o.orderId, verdict.reason)], false;
      }
      var rested;
      events, rested := ProcessNewOrder(o);
      accepted := true;
    }

    /** Take a found order out of the book and remember its id. */
    method Withdraw(node: nat, id: u64, ghost side: Side, ghost i: nat)
      requires Valid() && i < |book.St().Slots(side)| && book.St().Slots(side)[i] == node
      modifies Repr()
      ensures Valid() && exec == old(exec) && i < |old(book.Resting(side))|
      ensures book.Resting(side) == RemoveAt(old(book.Resting(side)), i)
      ensures book.Resting(Opposite(side)) == old(book.Resting(Opposite(side)))
      ensures retired.Queue() == Retire(old(retired.Queue()), id, retired.capacity)
    {
      hide Book.Valid;
      hide Book.Resting;
      hide RetiredIdSet.Valid;
      hide RetiredIdSet.Queue;
      book.RemoveOrder(node, side, i);
      retired.Insert(id);
    }

    /** Remove a resting order, or report why it is not resting. */
    method ProcessCancelOrder(id: u64) returns (event: Message)
      requires Valid()
      modifies Repr()
      ensures Valid()
      ensures State() == E.ProcessCancel(old(State()), id, book.caps).engine
      ensures [event] == E.ProcessCancel(old(State()), id, book.caps).events
    {
      hide Book.Valid;
      hide Book.Resting;
      hide RetiredIdSet.Valid;
      hide RetiredIdSet.Queue;
      hide Book.Repr;
      hide RemoveAt;
      hide Retire;
      assert allocated(book.Repr());
      var node, side, i := book.FindOrder(id);
      if node == NULL {
        var gone := retired.Contains(id);
        return Reject(id, if gone then NoLongerResting else OrderNotFound);
      }
      Withdraw(node, id, side, i);
      event := Ack(id, Cancelled);
    }
  }
}
