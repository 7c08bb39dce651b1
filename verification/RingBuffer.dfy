/** The fixed-capacity circular queue between producer and engine. */
module RingBuffer {
  import opened Wire
  import opened Rings

  class RingBuffer<T> {
    const slots: array<T>
    var head: nat
    var tail: nat
    var count: nat

    ghost predicate Valid()
      reads this, slots
    {
      head < slots.Length && count <= slots.Length && tail == Wrap(head + count, slots.Length)
    }

    /** The buffered elements, oldest first. */
    ghost function Contents(): (r: seq<T>)
      reads this, slots
      ensures |r| <= slots.Length
    {
      if Valid() then Window(slots[..], head, count) else []
    }

    constructor (capacity: nat, blank: T)
      requires capacity > 0
      ensures Valid() && fresh(slots) && slots.Length == capacity && Contents() == []
    {
      slots := new T[capacity](_ => blank);
      head, tail, count := 0, 0, 0;
    }

    function Advance(i: nat): nat
      reads slots
    {
      if i + 1 == slots.Length then 0 else i + 1
    }

    /** Enqueue; a full ring refuses and keeps its contents. */
    method TryPush(value: T) returns (ok: bool)
      requires Valid()
      modifies this, slots
      ensures Valid() && ok == (|old(Contents())| < slots.Length)
      ensures Contents() == if ok then old(Contents()) + [value] else old(Contents())
    {
      if count == slots.Length {
        return false;
      }
      WindowPush(slots[..], head, count, value);
      slots[tail] := value;
      assert slots[..] == old(slots[..])[tail := value];
      tail := Advance(tail);
      count := count + 1;
      ok := true;
    }

    /** Dequeue the oldest element. */
    method TryPop() returns (value: Option<T>)
      requires Valid()
      modifies this
      ensures Valid()
      ensures value.None? ==> old(Contents()) == [] && Contents() == []
      ensures value.Some? ==> old(Contents()) == [value.value] + Contents()
    {
      if count == 0 {
        return None;
      }
      WindowPop(slots[..], head, count);
      value := Some(slots[head]);
      head := Advance(head);
      count := count - 1;
    }
  }
}
