/** The gateway's shared state: in-flight requests, the projection, the journal and the replies. */
module AppState {
  import opened Wire
  import opened Projection

  datatype Fill = Fill(execSeq: u64, price: u64, quantity: u32, restingId: u64)

  datatype InFlight = InFlight(side: Side, price: u64, quantity: u32, isCancel: bool, fills: seq<Fill>)

  datatype Record = New(id: u64, side: Side, price: u64, quantity: u32) | Cancel(id: u64)

  /** What the waiting request handler receives. */
  datatype Reply = Reply(id: u64, terminator: Message, fills: seq<Fill>)

  datatype App = App(
    inflight: map<u64, InFlight>, orders: Orders, journal: seq<Record>, replies: seq<Reply>, restoring: bool)

  function FillTotal(fills: seq<Fill>): nat {
    if fills == [] then 0 else FillTotal(fills[..|fills| - 1]) + fills[|fills| - 1].quantity
  }

  /** The filled quantity in 32 bits, as the handler sums it. */
  function Filled(fills: seq<Fill>): u32 {
    FillTotal(fills) % 0x1_0000_0000
  }

  /** What comes to rest of an accepted order. */
  function Residual(entry: InFlight): u32 {
    SatSub(entry.quantity, Filled(entry.fills))
  }

  function Journaled(app: App, record: Record): seq<Record> {
    if app.restoring then app.journal else app.journal + [record]
  }

  /** Register a request; refused when its id is already in flight. */
  function Register(app: App, id: u64, entry: InFlight): App {
    if id in app.inflight then app else app.(inflight := app.inflight[id := entry])
  }

  function Finish(app: App, id: u64, terminator: Message): App
    requires id in app.inflight
  {
    app.(inflight := app.inflight - {id}, replies := app.replies + [Reply(id, terminator, app.inflight[id].fills)])
  }

  /** One engine event applied to all derived state. */
  function HandleEvent(app: App, msg: Message): App {
    match msg
    case Trade(exec, price, quantity, incoming, resting) =>
      var orders := Reduce(app.orders, resting, quantity);
      if incoming in app.inflight then
        var entry := app.inflight[incoming];
        var entry' := entry.(fills := entry.fills + [Fill(exec, price, quantity, resting)]);
        app.(orders := orders, inflight := app.inflight[incoming := entry'])
      else app.(orders := orders)
    case Ack(id, kind) =>
      if id !in app.inflight then app
      else
        var entry := app.inflight[id];
        if kind.Accepted? then
          Finish(app, id, msg).(orders := Insert(app.orders, id, Resting(entry.side, entry.price, Residual(entry))),
                                journal := Journaled(app, New(id, entry.side, entry.price, entry.quantity)))
        else
          Finish(app, id, msg).(orders := Drop(app.orders, id), journal := Journaled(app, Cancel(id)))
    case Reject(id, _) => if id !in app.inflight then app else Finish(app, id, msg)
    case _ => app
  }

  /** A batch of events in order. */
  function HandleAll(app: App, events: seq<Message>): App
    decreases |events|
  {
    if events == [] then app else HandleAll(HandleEvent(app, events[0]), events[1..])
  }

  class State {
    var inflight: map<u64, InFlight>
    const book: OrderBook
    var journal: seq<Record>
    var replies: seq<Reply>
    var restoring: bool

    ghost predicate Valid()
      reads this, book
    {
      book.Valid()
    }

    ghost function Abs(): App
      reads this, book
    {
      App(inflight, book.orders, journal, replies, restoring)
    }

    constructor ()
      ensures Valid() && fresh(book) && Abs() == App(map[], map[], [], [], false)
    {
      inflight, journal, replies, restoring := map[], [], [], false;
      book := new OrderBook();
    }

    method BeginRestore()
      requires Valid()
      modifies this
      ensures Valid() && Abs() == old(Abs()).(restoring := true)
    {
      restoring := true;
    }

    method EndRestore()
      requires Valid()
      modifies this
      ensures Valid() && Abs() == old(Abs()).(restoring := false)
    {
      restoring := false;
    }

    method RegisterInflight(id: u64, side: Side, price: u64, quantity: u32, isCancel: bool) returns (ok: bool)
      requires Valid()
      modifies this
      ensures Valid() && ok == (id !in old(inflight))
      ensures Abs() == Register(old(Abs()), id, InFlight(side, price, quantity, isCancel, []))
    {
      if id in inflight {
        return false;
      }
      inflight := inflight[id := InFlight(side, price, quantity, isCancel, [])];
      ok := true;
    }

    /** Drop an entry, as a timeout or a send failure does. */
    method DropInflight(id: u64)
      requires Valid()
      modifies this
      ensures Valid() && Abs() == old(Abs()).(inflight := old(inflight) - {id})
    {
      inflight := inflight - {id};
    }

    method HandleEngineEvent(msg: Message)
      requires Valid()
      modifies this, book
      ensures Valid() && Abs() == HandleEvent(old(Abs()), msg)
    {
      match msg
      case Trade(exec, price, quantity, incoming, resting) =>
        if incoming in inflight {
          var entry := inflight[incoming];
          inflight := inflight[incoming := entry.(fills := entry.fills + [Fill(exec, price, quantity, resting)])];
        }
        book.ApplyTrade(resting, quantity);
      case Ack(id, kind) =>
        if kind.Accepted? {
          CompleteAccept(id, msg);
        } else {
          CompleteCancel(id, msg);
        }
      case Reject(id, _) =>
        CompleteReject(id, msg);
      case NewOrder(_, _, _, _, _) =>
      case CancelOrder(_) =>
    }

    method CompleteAccept(id: u64, terminator: Message)
      requires Valid() && terminator.Ack? && terminator.orderId == id && terminator.kind.Accepted?
      modifies this, book
      ensures Valid() && Abs() == HandleEvent(old(Abs()), terminator)
    {
      if id !in inflight {
        return;
      }
      var entry := inflight[id];
      inflight := inflight - {id};
      var filled := 0;
      for i := 0 to |entry.fills|
        invariant filled == Filled(entry.fills[..i])
      {
        assert entry.fills[..i + 1][..i] == entry.fills[..i];
        filled := (filled + entry.fills[i].quantity) % 0x1_0000_0000;
      }
      assert entry.fills[..|entry.fills|] == entry.fills;
      var resting: u32 := SatSub(entry.quantity, filled);
      if resting > 0 {
        book.InsertResting(id, Resting(entry.side, entry.price, resting));
      }
      if !restoring {
        journal := journal + [New(id, entry.side, entry.price, entry.quantity)];
      }
      replies := replies + [Reply(id, terminator, entry.fills)];
    }

    method CompleteCancel(id: u64, terminator: Message)
      requires Valid() && terminator.Ack? && terminator.orderId == id && terminator.kind.Cancelled?
      modifies this, book
      ensures Valid() && Abs() == HandleEvent(old(Abs()), terminator)
    {
      if id !in inflight {
        return;
      }
      var entry := inflight[id];
      inflight := inflight - {id};
      book.Remove(id);
      if !restoring {
        journal := journal + [Cancel(id)];
      }
      replies := replies + [Reply(id, terminator, entry.fills)];
    }

    method CompleteReject(id: u64, terminator: Message)
      requires Valid() && terminator.Reject? && terminator.orderId == id
      modifies this, book
      ensures Valid() && Abs() == HandleEvent(old(Abs()), terminator)
    {
      if id !in inflight {
        return;
      }
      var entry := inflight[id];
      inflight := inflight - {id};
      replies := replies + [Reply(id, terminator, entry.fills)];
    }
  }
}
