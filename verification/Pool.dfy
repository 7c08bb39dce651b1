/** The fixed-capacity slot pool with an intrusive free list. */
module Pool {
  import opened LinkedNodes

  /** `free` is threaded through `nextFree` from `head`. */
  ghost predicate FreeChain(nextFree: seq<nat>, head: nat, free: seq<nat>) {
    && InRange(free, |nextFree|)
    && Distinct(free)
    && head == At(free, 0)
    && forall k {:trigger FreeLink(nextFree, free, k)} :: 0 <= k < |free| ==> FreeLink(nextFree, free, k)
  }

  ghost predicate FreeLink(nextFree: seq<nat>, free: seq<nat>, k: nat)
    requires k < |free| && InRange(free, |nextFree|)
  {
    nextFree[free[k]] == At(free, k + 1)
  }

  lemma FreeChainPop(nextFree: seq<nat>, head: nat, free: seq<nat>)
    requires |nextFree| <= NULL && FreeChain(nextFree, head, free) && free != []
    ensures head < |nextFree| && FreeChain(nextFree, nextFree[head], free[1..])
  {
    assert FreeLink(nextFree, free, 0);
    forall k | 0 <= k < |free[1..]| ensures FreeLink(nextFree, free[1..], k) {
      assert FreeLink(nextFree, free, k + 1);
    }
  }

  lemma FreeChainPush(nextFree: seq<nat>, head: nat, free: seq<nat>, index: nat)
    requires FreeChain(nextFree, head, free) && index < |nextFree| && index !in free
    ensures FreeChain(nextFree[index := head], index, [index] + free)
  {
    var nextFree', free' := nextFree[index := head], [index] + free;
    forall k | 0 <= k < |free'| ensures FreeLink(nextFree', free', k) {
      assert k > 0 ==> FreeLink(nextFree, free, k - 1);
    }
  }

  class FreeListPool<T> {
    const slots: array<T>
    const nextFree: array<nat>
    var freeHead: nat
    var inUse: nat
    /** The free slots, in the order acquire will hand them out. */
    ghost var free: seq<nat>

    ghost predicate Valid()
      reads this, nextFree
    {
      && slots.Length == nextFree.Length <= NULL
      && FreeChain(nextFree[..], freeHead, free)
      && inUse + |free| == slots.Length
    }

    constructor (capacity: nat, blank: T)
      requires 0 < capacity <= NULL
      ensures Valid() && fresh(slots) && fresh(nextFree)
      ensures slots.Length == capacity && inUse == 0
      ensures forall i :: 0 <= i < capacity ==> i in free
    {
      slots := new T[capacity](_ => blank);
      nextFree := new nat[capacity](_ => 0);
      freeHead, inUse, free := NULL, capacity, [];
      new;
      Reset();
    }

    method Reset()
      requires 0 < slots.Length == nextFree.Length <= NULL
      modifies this, nextFree
      ensures Valid() && inUse == 0
      ensures forall i :: 0 <= i < slots.Length ==> i in free
    {
      var n := slots.Length;
      for i := 0 to n
        invariant forall k :: 0 <= k < i ==> nextFree[k] == (if k + 1 == n then NULL else k + 1)
      {
        nextFree[i] := if i + 1 == n then NULL else i + 1;
      }
      freeHead := 0;
      inUse := 0;
      free := seq(n, i => i);
      forall i | 0 <= i < n ensures i in free { assert free[i] == i; }
    }

    predicate Full()
      reads this
    {
      inUse == slots.Length
    }

    lemma FreeInRange()
      requires Valid()
      ensures InRange(free, slots.Length)
    {
    }

    /** Hand out the head of the free list; NULL exactly when nothing is free. */
    method Acquire() returns (index: nat)
      requires Valid()
      modifies this
      ensures Valid()
      ensures old(Full()) ==> index == NULL && free == old(free) && inUse == old(inUse)
      ensures !old(Full()) ==> index < slots.Length && old(free) == [index] + free && inUse == old(inUse) + 1
      ensures index !in free
    {
      if freeHead == NULL {
        return NULL;
      }
      FreeChainPop(nextFree[..], freeHead, free);
      index := freeHead;
      freeHead := nextFree[index];
      inUse := inUse + 1;
      free := free[1..];
    }

    /** Put a slot that is not on the free list back at its head. */
    method Release(index: nat)
      requires Valid() && index < slots.Length && index !in free && inUse > 0
      modifies this, nextFree
      ensures Valid()
      ensures free == [index] + old(free) && inUse == old(inUse) - 1
    {
      FreeChainPush(nextFree[..], freeHead, free, index);
      nextFree[index] := freeHead;
      freeHead := index;
      assert nextFree[..] == old(nextFree[..])[index := old(freeHead)];
      inUse := inUse - 1;
      free := [index] + free;
    }

    /** Member-wise copy of another pool of the same capacity. */
    method CopyFrom(other: FreeListPool<T>)
      requires slots.Length == other.slots.Length && nextFree.Length == other.nextFree.Length
      requires this != other && slots != other.slots && nextFree != other.nextFree
      requires {slots as object, other.slots} !! {nextFree as object, other.nextFree}
      modifies this, slots, nextFree
      ensures slots[..] == other.slots[..] && nextFree[..] == other.nextFree[..]
      ensures freeHead == other.freeHead && inUse == other.inUse && free == other.free
      ensures other.Valid() ==> Valid()
    {
      forall i | 0 <= i < slots.Length {
        slots[i] := other.slots[i];
      }
      forall i | 0 <= i < nextFree.Length {
        nextFree[i] := other.nextFree[i];
      }
      freeHead, inUse, free := other.freeHead, other.inUse, other.free;
    }
  }
}
