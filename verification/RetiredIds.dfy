/**
 * The bounded set of ids that have left the book: an open-addressing table with linear probing and
 * back-shift deletion, paired with a FIFO ring.
 */
module RetiredIds {
  import opened Wire
  import opened Rings

  datatype Slot = Slot(key: u64, occupied: bool)

  /** Cyclic distance from slot a forward to slot b. */
  function Dist(a: nat, b: nat, size: nat): nat
    requires a < size && b < size
  {
    if a <= b then b - a else b + size - a
  }

  function Next(i: nat, size: nat): nat
    requires i < size
  {
    if i + 1 == size then 0 else i + 1
  }

  /** A hash function into the table range. */
  ghost predicate HomeOk(home: u64 -> nat, size: nat) {
    forall key: u64 :: home(key) < size
  }

  /** Slot p lies on the probe path of the key stored at slot m, before m itself. */
  ghost predicate OnPath(t: seq<Slot>, home: u64 -> nat, m: nat, p: nat)
    requires m < |t| && p < |t| && home(t[m].key) < |t|
  {
    Dist(home(t[m].key), p, |t|) < Dist(home(t[m].key), m, |t|)
  }

  ghost predicate KeysDistinct(t: seq<Slot>) {
    forall a, b :: 0 <= a < b < |t| && t[a].occupied && t[b].occupied ==> t[a].key != t[b].key
  }

  /** Every probe path is unbroken, except that it may cross the slot `hole`. */
  ghost predicate PathsBut(t: seq<Slot>, home: u64 -> nat, hole: int)
    requires HomeOk(home, |t|)
  {
    forall m, p :: 0 <= m < |t| && 0 <= p < |t| && t[m].occupied && OnPath(t, home, m, p) ==> t[p].occupied || p == hole
  }

  ghost predicate TableOk(t: seq<Slot>, home: u64 -> nat) {
    && HomeOk(home, |t|) && KeysDistinct(t) && PathsBut(t, home, -1)
  }

  function Keys(t: seq<Slot>): set<u64> {
    set i | 0 <= i < |t| && t[i].occupied :: t[i].key
  }

  // ---- The table size and hash of the source ------------------------------

  function Pow2(n: nat): (p: nat)
    ensures p > 0
  {
    if n == 0 then 1 else 2 * Pow2(n - 1)
  }

  /** The exponent of the smallest power of two that is at least n, starting the search at 2^b. */
  function BitsFor(n: nat, b: nat): (r: nat)
    ensures r >= b && Pow2(r) >= n && (r == b || Pow2(r - 1) < n)
    decreases n - Pow2(b)
  {
    if Pow2(b) >= n then b else BitsFor(n, b + 1)
  }

  /** Fibonacci hashing: the top `bits` bits of the 64-bit product. */
  function FibonacciHome(bits: nat, key: u64): nat
    requires bits <= 64
  {
    Quotient(key * 0x9E37_79B9_7F4A_7C15 % TWO64, Pow2(64 - bits))
  }

  function Quotient(x: nat, d: nat): nat
    requires d > 0
  {
    x / d
  }

  lemma {:induction false} Pow2Sum(a: nat, b: nat)
    ensures Pow2(a + b) == Pow2(a) * Pow2(b)
  {
    if a > 0 {
      Pow2Sum(a - 1, b);
    }
  }

  lemma QuotientBound(x: nat, d: nat, m: nat)
    requires d > 0 && x < d * m
    ensures Quotient(x, d) < m
  {
    if x / d >= m {
      TimesMonotone(d, m, x / d);
      assert false;
    }
  }

  /** The source's hash lands in its table, so it is one of the hash functions covered here. */
  lemma FibonacciInRange(bits: nat, key: u64)
    requires bits <= 64
    ensures FibonacciHome(bits, key) < Pow2(bits)
  {
    Pow2Sum(64 - bits, bits);
    Pow2Is64();
    QuotientBound(key * 0x9E37_79B9_7F4A_7C15 % TWO64, Pow2(64 - bits), Pow2(bits));
  }

  /** The table the source allocates for `capacity` ids, and the hash it uses on it. */
  function SourceBits(capacity: nat): nat {
    BitsFor(2 * capacity, 0)
  }

  lemma {:induction false} Pow2Grows(a: nat, b: nat)
    requires a <= b
    ensures Pow2(a) <= Pow2(b)
    decreases b
  {
    if a < b {
      Pow2Grows(a, b - 1);
    }
  }

  /** The source's own size and hash satisfy what is asked of a table: twice the capacity, and a home inside it. */
  lemma SourceTableFits(capacity: nat)
    requires 0 < capacity && 2 * capacity <= TWO64
    ensures 0 < SourceBits(capacity) <= 64 && 2 * capacity <= Pow2(SourceBits(capacity)) < 4 * capacity
    ensures HomeOk((key: u64) => FibonacciHome(SourceBits(capacity), key), Pow2(SourceBits(capacity)))
  {
    var bits := SourceBits(capacity);
    Pow2Is64();
    assert Pow2(0) == 1;
    if bits > 64 {
      Pow2Grows(64, bits - 1);
      assert false;
    }
    forall key: u64 ensures FibonacciHome(bits, key) < Pow2(bits) {
      FibonacciInRange(bits, key);
    }
  }

  lemma Pow2Is8()
    ensures Pow2(8) == 256
  {
  }

  lemma Pow2Is64()
    ensures Pow2(64) == TWO64
  {
    hide Pow2;
    Pow2Is8();
    Pow2Sum(8, 8);
    Pow2Sum(16, 16);
    Pow2Sum(32, 32);
  }

  // ---- Erasing: the hole and the scanned cluster ---------------------------

  /**
   * The loop state of a deletion: slot i is the hole, the slots strictly after i up to j are occupied,
   * and none of their keys needs the hole.
   */
  ghost predicate Scanned(t: seq<Slot>, home: u64 -> nat, i: nat, j: nat)
    requires HomeOk(home, |t|) && i < |t| && j < |t|
  {
    forall m :: 0 <= m < |t| && 0 < Dist(i, m, |t|) <= Dist(i, j, |t|) ==> t[m].occupied && !OnPath(t, home, m, i)
  }

  ghost predicate Erasing(t: seq<Slot>, home: u64 -> nat, i: nat, j: nat) {
    && HomeOk(home, |t|) && i < |t| && j < |t|
    && KeysDistinct(t) && PathsBut(t, home, i) && !t[i].occupied && Scanned(t, home, i, j)
  }

  /** The wrap-around test of the source is a test on cyclic distances. */
  lemma WithinIsDist(i: nat, j: nat, k: nat, size: nat)
    requires i < size && j < size && k < size
    ensures (if i <= j then i < k && k <= j else i < k || k <= j) <==> 0 < Dist(i, k, size) <= Dist(i, j, size)
  {
  }

  /** A path across the hole from beyond the scanned slots would also cross the next slot. */
  lemma HoleCrossed(t: seq<Slot>, home: u64 -> nat, i: nat, j: nat, next: nat, m: nat)
    requires Erasing(t, home, i, j) && next == Next(j, |t|) && next != i && m < |t| && t[m].occupied
    ensures OnPath(t, home, m, i) ==> t[next].occupied
  {
    if OnPath(t, home, m, i) && m != next {
      assert !(0 < Dist(i, m, |t|) <= Dist(i, j, |t|));
      assert OnPath(t, home, m, next);
    }
  }

  /** Reaching a free slot ends the deletion: no path crosses the hole any more. */
  lemma EraseDone(t: seq<Slot>, home: u64 -> nat, i: nat, j: nat, next: nat)
    requires Erasing(t, home, i, j) && next == Next(j, |t|) && !t[next].occupied
    ensures TableOk(t, home)
  {
    forall m, p | 0 <= m < |t| && 0 <= p < |t| && t[m].occupied && OnPath(t, home, m, p) ensures t[p].occupied {
      if p == i && next != i {
        HoleCrossed(t, home, i, j, next, m);
        assert false;
      }
    }
  }

  /** A key whose home lies cyclically in (i, j] does not need the hole: keep scanning. */
  lemma EraseSkip(t: seq<Slot>, home: u64 -> nat, i: nat, j: nat, next: nat)
    requires Erasing(t, home, i, j) && next == Next(j, |t|) && next != i && t[next].occupied
    requires 0 < Dist(i, home(t[next].key), |t|) <= Dist(i, next, |t|)
    ensures Erasing(t, home, i, next)
  {
  }

  /** Any other key may fill the hole, which moves to where the key was. */
  function Shifted(t: seq<Slot>, i: nat, j: nat): seq<Slot>
    requires i < |t| && j < |t|
  {
    t[i := t[j]][j := t[j].(occupied := false)]
  }

  lemma ShiftKeys(t: seq<Slot>, i: nat, j: nat)
    requires i < |t| && j < |t| && i != j && !t[i].occupied && t[j].occupied
    ensures Keys(Shifted(t, i, j)) == Keys(t)
  {
    var t' := Shifted(t, i, j);
    forall k | k in Keys(t) ensures k in Keys(t') {
      var m :| 0 <= m < |t| && t[m].occupied && t[m].key == k;
      assert t'[if m == j then i else m].key == k;
    }
    forall k | k in Keys(t') ensures k in Keys(t) {
      var m :| 0 <= m < |t| && t'[m].occupied && t'[m].key == k;
      assert t[if m == i then j else m].key == k;
    }
  }

  lemma ShiftPaths(t: seq<Slot>, home: u64 -> nat, i: nat, j: nat, m: nat, p: nat)
    requires HomeOk(home, |t|) && i < |t| && j < |t| && i != j && t[j].occupied && PathsBut(t, home, i)
    requires !(0 < Dist(i, home(t[j].key), |t|) <= Dist(i, j, |t|))
    requires m < |t| && p < |t| && Shifted(t, i, j)[m].occupied && OnPath(Shifted(t, i, j), home, m, p)
    ensures Shifted(t, i, j)[p].occupied || p == j
  {
    var t' := Shifted(t, i, j);
    if m == i {
      assert OnPath(t, home, j, p);
    } else {
      assert t'[m] == t[m] && OnPath(t, home, m, p);
    }
  }

  lemma EraseShift(t: seq<Slot>, home: u64 -> nat, i: nat, j: nat, next: nat)
    requires Erasing(t, home, i, j) && next == Next(j, |t|) && next != i && t[next].occupied
    requires !(0 < Dist(i, home(t[next].key), |t|) <= Dist(i, next, |t|))
    ensures Erasing(Shifted(t, i, next), home, next, next)
    ensures Keys(Shifted(t, i, next)) == Keys(t)
  {
    hide OnPath;
    hide Keys;
    ShiftKeys(t, i, next);
    var t' := Shifted(t, i, next);
    forall m, p | 0 <= m < |t'| && 0 <= p < |t'| && t'[m].occupied && OnPath(t', home, m, p)
      ensures t'[p].occupied || p == next
    {
      ShiftPaths(t, home, i, next, m, p);
    }
  }

  // ---- Probing ------------------------------------------------------------

  /** All slots from `home(id)` up to i are occupied by other keys. */
  ghost predicate Probed(t: seq<Slot>, home: u64 -> nat, id: u64, i: nat)
    requires HomeOk(home, |t|) && i < |t|
  {
    forall p :: 0 <= p < |t| && Dist(home(id), p, |t|) < Dist(home(id), i, |t|) ==> t[p].occupied && t[p].key != id
  }

  lemma ProbeStep(t: seq<Slot>, home: u64 -> nat, id: u64, i: nat, e: nat)
    requires HomeOk(home, |t|) && i < |t| && Probed(t, home, id, i) && t[i].occupied && t[i].key != id
    requires e < |t| && !t[e].occupied
    ensures Probed(t, home, id, Next(i, |t|))
    ensures Dist(home(id), i, |t|) < Dist(home(id), Next(i, |t|), |t|) <= Dist(home(id), e, |t|)
  {
  }

  /** A probe that stops at a free slot proves absence. */
  lemma ProbeMiss(t: seq<Slot>, home: u64 -> nat, id: u64, i: nat)
    requires TableOk(t, home) && i < |t| && Probed(t, home, id, i) && !t[i].occupied
    ensures id !in Keys(t)
  {
    forall m | 0 <= m < |t| && t[m].occupied ensures t[m].key != id {
      var onPath := OnPath(t, home, m, i);
    }
  }

  lemma InsertOk(t: seq<Slot>, home: u64 -> nat, id: u64, i: nat)
    requires TableOk(t, home) && i < |t| && Probed(t, home, id, i) && !t[i].occupied
    ensures TableOk(t[i := Slot(id, true)], home) && Keys(t[i := Slot(id, true)]) == Keys(t) + {id}
  {
    ProbeMiss(t, home, id, i);
    var t' := t[i := Slot(id, true)];
    forall m, p | 0 <= m < |t| && 0 <= p < |t| && t'[m].occupied && OnPath(t', home, m, p) ensures t'[p].occupied {
      assert m != i ==> OnPath(t, home, m, p);
    }
    assert t'[i].key == id;
    forall k | k in Keys(t) ensures k in Keys(t') {
      var m :| 0 <= m < |t| && t[m].occupied && t[m].key == k;
      assert t'[m] == t[m];
    }
  }

  lemma EraseStart(t: seq<Slot>, home: u64 -> nat, i: nat)
    requires TableOk(t, home) && i < |t| && t[i].occupied
    ensures Erasing(t[i := t[i].(occupied := false)], home, i, i)
    ensures Keys(t[i := t[i].(occupied := false)]) == Keys(t) - {t[i].key}
  {
    var t' := t[i := t[i].(occupied := false)];
    forall m, p | 0 <= m < |t| && 0 <= p < |t| && t'[m].occupied && OnPath(t', home, m, p)
      ensures t'[p].occupied || p == i
    {
      assert OnPath(t, home, m, p);
    }
    forall k | k in Keys(t) && k != t[i].key ensures k in Keys(t') {
      var m :| 0 <= m < |t| && t[m].occupied && t[m].key == k;
      assert t'[m] == t[m];
    }
  }

  /** A table that holds fewer keys than slots has a free slot. */
  lemma {:induction false} FullHasAllKeys(t: seq<Slot>)
    requires KeysDistinct(t) && forall i :: 0 <= i < |t| ==> t[i].occupied
    ensures |Keys(t)| == |t|
  {
    if t != [] {
      var n := |t| - 1;
      var rest := t[..n];
      FullHasAllKeys(rest);
      forall k | k in Keys(t) ensures k in Keys(rest) + {t[n].key} {
        var m :| 0 <= m < |t| && t[m].key == k;
        assert m < n ==> rest[m] == t[m];
      }
      forall k | k in Keys(rest) ensures k in Keys(t) {
        var m :| 0 <= m < n && rest[m].key == k;
        assert t[m] == rest[m];
      }
      assert t[n].key in Keys(t);
      assert Keys(t) == Keys(rest) + {t[n].key};
    }
  }

  lemma {:induction false} ElementsBound(q: seq<u64>)
    ensures |Elements(q)| <= |q|
  {
    if q != [] {
      var n := |q| - 1;
      ElementsBound(q[..n]);
      assert Elements(q) == Elements(q[..n]) + {q[n]} by {
        assert q == q[..n] + [q[n]];
      }
    }
  }

  function Elements(q: seq<u64>): set<u64> {
    set x | x in q
  }

  /** Without its oldest id a record holds the others. */
  lemma Tail(id: u64, rest: seq<u64>)
    requires NoRepeats([id] + rest)
    ensures NoRepeats(rest) && Elements(rest) == Elements([id] + rest) - {id}
  {
    assert ([id] + rest)[1..] == rest;
    forall i, j | 0 <= i < j < |rest| ensures rest[i] != rest[j] {
      assert ([id] + rest)[i + 1] == rest[i] && ([id] + rest)[j + 1] == rest[j];
    }
    forall i | 0 <= i < |rest| ensures rest[i] != id {
      assert ([id] + rest)[0] == id && ([id] + rest)[i + 1] == rest[i];
    }
  }

  lemma FreeSlot(t: seq<Slot>, q: seq<u64>) returns (e: nat)
    requires KeysDistinct(t) && Keys(t) == Elements(q) && |q| < |t|
    ensures e < |t| && !t[e].occupied
  {
    if forall i :: 0 <= i < |t| ==> t[i].occupied {
      FullHasAllKeys(t);
      ElementsBound(q);
      assert false;
    }
    e :| 0 <= e < |t| && !t[e].occupied;
  }

  // ---- The abstract queue -------------------------------------------------

  /** Recording an id: ignored when present, evicting the oldest when full. */
  function Retire(q: seq<u64>, id: u64, capacity: nat): seq<u64>
    requires capacity > 0
  {
    if id in q then q else if |q| >= capacity then q[1..] + [id] else q + [id]
  }

  ghost predicate NoRepeats(q: seq<u64>) {
    forall i, j :: 0 <= i < j < |q| ==> q[i] != q[j]
  }

  function RetireAll(q: seq<u64>, ids: seq<u64>, capacity: nat): seq<u64>
    requires capacity > 0
    decreases |ids|
  {
    if ids == [] then q else RetireAll(Retire(q, ids[0], capacity), ids[1..], capacity)
  }

  /** The ids of a run that were not on record when they arrived. */
  function Fresh(q: seq<u64>, ids: seq<u64>, capacity: nat): seq<u64>
    requires capacity > 0
    decreases |ids|
  {
    if ids == [] then []
    else (if ids[0] in q then [] else [ids[0]]) + Fresh(Retire(q, ids[0], capacity), ids[1..], capacity)
  }

  function Last(s: seq<u64>, n: nat): seq<u64> {
    if |s| <= n then s else s[|s| - n..]
  }

  lemma RetireIsLast(q: seq<u64>, id: u64, capacity: nat)
    requires capacity > 0 && |q| <= capacity && id !in q
    ensures Retire(q, id, capacity) == Last(q + [id], capacity)
  {
  }

  lemma LastOfLast(s: seq<u64>, log: seq<u64>, n: nat)
    ensures Last(Last(s, n) + log, n) == Last(s + log, n)
  {
  }

  lemma LastOfShort(s: seq<u64>, n: nat)
    requires |s| <= n
    ensures Last(s, n) == s
  {
  }

  lemma RetireBounded(q: seq<u64>, id: u64, capacity: nat)
    requires capacity > 0 && |q| <= capacity
    ensures |Retire(q, id, capacity)| <= capacity && (id in q ==> Retire(q, id, capacity) == q)
  {
  }

  /** After any run the record is exactly the last `capacity` fresh ids. */
  lemma {:induction false} RecordIsLastFresh(q: seq<u64>, ids: seq<u64>, capacity: nat)
    requires capacity > 0 && |q| <= capacity
    ensures RetireAll(q, ids, capacity) == Last(q + Fresh(q, ids, capacity), capacity)
    decreases |ids|
  {
    hide Retire;
    hide Last;
    if ids == [] {
      LastOfShort(q, capacity);
      assert q + [] == q;
    } else {
      RetireBounded(q, ids[0], capacity);
      var q' := Retire(q, ids[0], capacity);
      RecordIsLastFresh(q', ids[1..], capacity);
      var log := Fresh(q', ids[1..], capacity);
      if ids[0] in q {
        assert [] + log == log;
      } else {
        assert q + ([ids[0]] + log) == q + [ids[0]] + log;
        RetireIsLast(q, ids[0], capacity);
        LastOfLast(q + [ids[0]], log, capacity);
      }
    }
  }

  lemma {:induction false} DistinctCount(q: seq<u64>)
    requires NoRepeats(q)
    ensures |Elements(q)| == |q|
  {
    if q != [] {
      var n := |q| - 1;
      DistinctCount(q[..n]);
      assert Elements(q) == Elements(q[..n]) + {q[n]} by {
        assert q == q[..n] + [q[n]];
      }
    }
  }

  lemma RetireKeepsAll(q: seq<u64>, id: u64, capacity: nat)
    requires capacity > 0 && NoRepeats(q) && |Elements(q) + {id}| <= capacity
    ensures Elements(Retire(q, id, capacity)) == Elements(q) + {id} && NoRepeats(Retire(q, id, capacity))
  {
    DistinctCount(q);
    assert id !in q ==> |Elements(q) + {id}| == |q| + 1;
  }

  /** As long as no more than `capacity` distinct ids have been recorded, none is forgotten. */
  lemma {:induction false} NothingForgotten(q: seq<u64>, ids: seq<u64>, capacity: nat)
    requires capacity > 0 && NoRepeats(q) && |Elements(q) + Elements(ids)| <= capacity
    ensures Elements(RetireAll(q, ids, capacity)) == Elements(q) + Elements(ids)
    ensures NoRepeats(RetireAll(q, ids, capacity))
    decreases |ids|
  {
    hide Elements;
    hide NoRepeats;
    hide Retire;
    ElementsCons(ids);
    if ids != [] {
      var id, rest := ids[0], ids[1..];
      SubsetSize(Elements(q) + {id}, Elements(q) + Elements(ids));
      RetireKeepsAll(q, id, capacity);
      assert Elements(q) + {id} + Elements(rest) == Elements(q) + Elements(ids);
      NothingForgotten(Retire(q, id, capacity), rest, capacity);
    }
  }

  lemma ElementsCons(ids: seq<u64>)
    ensures Elements(ids) == if ids == [] then {} else {ids[0]} + Elements(ids[1..])
  {
    assert ids != [] ==> ids == [ids[0]] + ids[1..];
  }

  lemma SubsetSize(a: set<u64>, b: set<u64>)
    requires a <= b
    ensures |a| <= |b|
  {
    assert b == a + (b - a);
  }

  class RetiredIdSet {
    const capacity: nat
    const home: u64 -> nat
    const slots: array<Slot>
    const ring: array<u64>
    var head: nat
    var count: nat

    ghost predicate Shaped()
      reads this, ring
    {
      && 0 < capacity == ring.Length && 2 * capacity <= slots.Length && head < capacity && count <= capacity
      && HomeOk(home, slots.Length)
    }

    /** The recorded ids, oldest first. */
    ghost function Queue(): seq<u64>
      reads this, ring
    {
      if head < ring.Length && count <= ring.Length then Window(ring[..], head, count) else []
    }

    ghost predicate Valid()
      reads this, slots, ring
    {
      && Shaped() && NoRepeats(Queue())
      && TableOk(slots[..], home) && Keys(slots[..]) == Elements(Queue())
    }

    constructor (capacity: nat, size: nat, home: u64 -> nat)
      requires 0 < capacity && 2 * capacity <= size && HomeOk(home, size)
      ensures Valid() && Queue() == [] && this.capacity == capacity && fresh(slots) && fresh(ring)
    {
      this.capacity, this.home := capacity, home;
      slots := new Slot[size](_ => Slot(0, false));
      ring := new u64[capacity](_ => 0);
      head, count := 0, 0;
    }

    method Clear()
      requires Valid()
      modifies this, slots
      ensures Valid() && Queue() == []
    {
      for i := 0 to slots.Length
        invariant forall k :: 0 <= k < i ==> !slots[k].occupied
      {
        slots[i] := Slot(0, false);
      }
      count, head := 0, 0;
    }

    /** Probe for `id`: its slot, or the size of the table when absent. */
    method FindSlot(id: u64) returns (i: nat)
      requires TableOk(slots[..], home) && exists e :: 0 <= e < slots.Length && !slots[e].occupied
      ensures id in Keys(slots[..]) ==> i < slots.Length && slots[i] == Slot(id, true)
      ensures id !in Keys(slots[..]) ==> i == slots.Length
    {
      ghost var t, size := slots[..], slots.Length;
      ghost var e :| 0 <= e < size && !slots[e].occupied;
      i := home(id);
      while slots[i].occupied
        invariant i < size && Probed(t, home, id, i)
        invariant Dist(home(id), i, size) <= Dist(home(id), e, size)
        decreases Dist(home(id), e, size) - Dist(home(id), i, size)
      {
        if slots[i].key == id {
          assert t[i].key in Keys(t);
          return i;
        }
        ProbeStep(t, home, id, i, e);
        i := if i + 1 == slots.Length then 0 else i + 1;
      }
      ProbeMiss(t, home, id, i);
      i := slots.Length;
    }

    /** Put an absent id into the first free slot of its probe path. */
    method TableInsert(id: u64)
      requires TableOk(slots[..], home) && id !in Keys(slots[..])
      requires exists e :: 0 <= e < slots.Length && !slots[e].occupied
      modifies slots
      ensures TableOk(slots[..], home) && Keys(slots[..]) == old(Keys(slots[..])) + {id}
    {
      ghost var t, size := slots[..], slots.Length;
      ghost var e :| 0 <= e < size && !slots[e].occupied;
      var i: nat := home(id);
      while slots[i].occupied
        invariant i < size && Probed(t, home, id, i) && slots[..] == t
        invariant Dist(home(id), i, size) <= Dist(home(id), e, size)
        decreases Dist(home(id), e, size) - Dist(home(id), i, size)
      {
        assert t[i].key in Keys(t);
        ProbeStep(t, home, id, i, e);
        i := if i + 1 == slots.Length then 0 else i + 1;
      }
      InsertOk(t, home, id, i);
      slots[i] := Slot(id, true);
      assert slots[..] == t[i := Slot(id, true)];
    }

    /** Remove `id` and shift the rest of its cluster back so that no probe path breaks. */
    method Erase(id: u64)
      requires TableOk(slots[..], home) && exists e :: 0 <= e < slots.Length && !slots[e].occupied
      modifies slots
      ensures TableOk(slots[..], home) && Keys(slots[..]) == old(Keys(slots[..])) - {id}
    {
      hide Scanned;
      hide PathsBut;
      hide KeysDistinct;
      hide Keys;
      hide OnPath;
      var i := FindSlot(id);
      if i == slots.Length {
        return;
      }
      ghost var size := slots.Length;
      ghost var e :| 0 <= e < size && !slots[e].occupied;
      ghost var keys := Keys(slots[..]) - {id};
      var j: nat := i;
      EraseStart(slots[..], home, i);
      slots[i] := slots[i].(occupied := false);
      assert slots[..] == old(slots[..])[i := old(slots[i]).(occupied := false)];
      while true
        invariant i < size && j < size && Erasing(slots[..], home, i, j) && Keys(slots[..]) == keys
        invariant e < size && !slots[e].occupied && e != i && j != e
        decreases Dist(j, e, size)
      {
        ghost var last := j;
        j := if j + 1 == slots.Length then 0 else j + 1;
        if !slots[j].occupied {
          EraseDone(slots[..], home, i, last, j);
          return;
        }
        var k := home(slots[j].key);
        WithinIsDist(i, j, k, size);
        if if i <= j then i < k && k <= j else i < k || k <= j {
          EraseSkip(slots[..], home, i, last, j);
        } else {
          EraseShift(slots[..], home, i, last, j);
          ghost var t := slots[..];
          slots[i] := slots[j];
          slots[j] := slots[j].(occupied := false);
          assert slots[..] == Shifted(t, i, j);
          i := j;
        }
      }
    }

    method Contains(id: u64) returns (found: bool)
      requires Valid()
      ensures found <==> id in Queue()
    {
      var e := FreeSlot(slots[..], Queue());
      var i := FindSlot(id);
      found := i != slots.Length;
    }

    /** Drop the oldest id of a full set. */
    method Evict()
      requires Valid() && count == capacity
      modifies this, slots
      ensures Valid() && Queue() == old(Queue())[1..]
    {
      hide Keys;
      hide Elements;
      hide NoRepeats;
      hide OnPath;
      ghost var q := Queue();
      var e := FreeSlot(slots[..], q);
      WindowPop(ring[..], head, count);
      assert q == [ring[head]] + q[1..];
      Tail(ring[head], q[1..]);
      Erase(ring[head]);
      head := Wrap(head + 1, capacity);
      count := count - 1;
    }

    /** Record `id`, evicting the oldest id when the set is full. */
    method Insert(id: u64)
      requires Valid()
      modifies this, slots, ring
      ensures Valid() && Queue() == Retire(old(Queue()), id, capacity)
    {
      var known := Contains(id);
      if known {
        return;
      }
      if count == capacity {
        Evict();
      }
      Append(id);
    }

    /** Record a new id in a set that is not full. */
    method Append(id: u64)
      requires Valid() && count < capacity && id !in Queue()
      modifies this`count, slots, ring
      ensures Valid() && Queue() == old(Queue()) + [id]
    {
      ghost var q := Queue();
      var e := FreeSlot(slots[..], q);
      TableInsert(id);
      WindowPush(ring[..], head, count, id);
      ring[Wrap(head + count, capacity)] := id;
      count := count + 1;
      assert Queue() == q + [id];
    }
  }
}
