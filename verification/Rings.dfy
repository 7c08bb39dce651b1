/** Circular windows over a fixed array. */
module Rings {
  /** `x % capacity` for the sums of two ring positions. */
  function Wrap(x: nat, capacity: nat): nat
    requires x < 2 * capacity
  {
    if x < capacity then x else x - capacity
  }

  lemma WrapIsModulo(x: nat, capacity: nat)
    requires x < 2 * capacity
    ensures Wrap(x, capacity) == x % capacity
  {
  }

  /** The `count` elements of the ring from `head`, oldest first. */
  function Window<T>(ring: seq<T>, head: nat, count: nat): seq<T>
    requires head < |ring| && count <= |ring|
  {
    seq(count, k requires 0 <= k < count => ring[Wrap(head + k, |ring|)])
  }

  lemma WindowPush<T>(ring: seq<T>, head: nat, count: nat, x: T)
    requires head < |ring| && count < |ring|
    ensures Window(ring[Wrap(head + count, |ring|) := x], head, count + 1) == Window(ring, head, count) + [x]
  {
    var a, b := Window(ring[Wrap(head + count, |ring|) := x], head, count + 1), Window(ring, head, count) + [x];
    forall k | 0 <= k < |a| ensures a[k] == b[k] {
      assert k < count ==> Wrap(head + k, |ring|) != Wrap(head + count, |ring|);
    }
  }

  lemma WindowPop<T>(ring: seq<T>, head: nat, count: nat)
    requires head < |ring| && 0 < count <= |ring|
    ensures Window(ring, head, count) == [ring[head]] + Window(ring, Wrap(head + 1, |ring|), count - 1)
  {
    var all, rest := Window(ring, head, count), Window(ring, Wrap(head + 1, |ring|), count - 1);
    forall k | 0 <= k < |rest| ensures rest[k] == all[k + 1] {
      assert Wrap(Wrap(head + 1, |ring|) + k, |ring|) == Wrap(head + (k + 1), |ring|);
    }
    assert Wrap(head + 0, |ring|) == head;
  }
}
