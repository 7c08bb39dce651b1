/** The gateway's identifier allocation and arrival numbering. */
module GatewayIds {
  import opened Wire
  import opened RetiredIds

  datatype Refusal = InvalidField | DuplicateOrderId(id: u64)
  datatype Outcome<+T> = Granted(value: T) | Refused(error: Refusal)

  // ---- There is a free id unless all 2^64 are taken ---------------------------

  ghost function Range(n: nat): (r: set<int>)
    ensures |r| == n && forall x :: x in r <==> 0 <= x < n
  {
    if n == 0 then {} else Range(n - 1) + {n - 1}
  }

  lemma FreeIdExists(inUse: set<u64>)
    requires |inUse| < TWO64
    ensures exists id: u64 :: id !in inUse
  {
    if forall id: u64 :: id in inUse {
      var ints: set<int> := set id | id in inUse;
      assert ints == Range(TWO64);
      SameSize(inUse, ints);
      assert false;
    }
  }

  lemma {:induction false} SameSize(a: set<u64>, b: set<int>)
    requires b == set x | x in a
    ensures |a| == |b|
  {
    if a != {} {
      var x :| x in a;
      SameSize(a - {x}, b - {x});
    }
  }

  function Distance(a: u64, b: u64): nat {
    if a <= b then b - a else b + TWO64 - a
  }

  /** `id` is the first id not in use, searching upwards from `from` with wrap-around. */
  ghost predicate FirstFree(inUse: set<u64>, from: u64, id: u64) {
    id !in inUse && forall x: u64 :: Distance(from, x) < Distance(from, id) ==> x in inUse
  }

  lemma FirstFreeUnique(inUse: set<u64>, from: u64, a: u64, b: u64)
    requires FirstFree(inUse, from, a) && FirstFree(inUse, from, b)
    ensures a == b
  {
    assert !(Distance(from, a) < Distance(from, b));
    assert !(Distance(from, b) < Distance(from, a));
  }

  class Gateway {
    var inUse: set<u64>
    var nextAutoId: u64
    var nextSeq: u64

    constructor ()
      ensures inUse == {} && nextAutoId == 1 && nextSeq == 0
    {
      inUse, nextAutoId, nextSeq := {}, 1, 0;
    }

    /** Take an id read from the journal; false, with nothing changed, when it is already in use. */
    method Reserve(id: u64) returns (fresh': bool)
      modifies this
      ensures fresh' == (id !in old(inUse)) && inUse == old(inUse) + {id} && nextSeq == old(nextSeq)
      ensures nextAutoId == if fresh' && id >= old(nextAutoId) then Next64(id) else old(nextAutoId)
    {
      if id in inUse {
        return false;
      }
      inUse := inUse + {id};
      if id >= nextAutoId {
        nextAutoId := Next64(id);
      }
      fresh' := true;
    }

    /** The wrapping search for a free id; it ends because some id is free. */
    method AssignUniqueId() returns (id: u64)
      requires |inUse| < TWO64
      modifies this`nextAutoId
      ensures FirstFree(inUse, old(nextAutoId), id) && nextAutoId == Next64(id)
    {
      ghost var from := nextAutoId;
      FreeIdExists(inUse);
      ghost var e: u64 :| e !in inUse;
      while nextAutoId in inUse
        invariant Distance(from, nextAutoId) <= Distance(from, e)
        invariant forall x: u64 :: Distance(from, x) < Distance(from, nextAutoId) ==> x in inUse
        decreases Distance(nextAutoId, e)
      {
        nextAutoId := Next64(nextAutoId);
      }
      id := nextAutoId;
      nextAutoId := Next64(nextAutoId);
    }

    /** Preserve a supplied id after a duplicate check, or assign a fresh one. */
    method ResolveOrderId(supplied: Option<u64>) returns (r: Outcome<u64>)
      requires |inUse| < TWO64
      modifies this`nextAutoId
      ensures r.Refused? ==> nextAutoId == old(nextAutoId) && supplied.Some? && supplied.value in inUse
      ensures r.Granted? ==> r.value !in inUse
      ensures r.Granted? && supplied.Some? ==> r.value == supplied.value && nextAutoId == old(nextAutoId)
      ensures supplied.None? ==> r.Granted? && FirstFree(inUse, old(nextAutoId), r.value)
    {
      if supplied.None? {
        var id := AssignUniqueId();
        return Granted(id);
      }
      if supplied.value in inUse {
        return Refused(DuplicateOrderId(supplied.value));
      }
      r := Granted(supplied.value);
    }

    /** The identifier step of accepting an order whose other fields have already been validated. */
    method HandleNewOrder(fieldsOk: bool, supplied: Option<u64>) returns (r: Outcome<u64>)
      requires |inUse| < TWO64
      modifies this
      ensures r.Refused? ==> inUse == old(inUse) && nextAutoId == old(nextAutoId) && nextSeq == old(nextSeq)
      ensures r.Refused? <==> !fieldsOk || (supplied.Some? && supplied.value in old(inUse))
      ensures r.Granted? ==> r.value !in old(inUse) && inUse == old(inUse) + {r.value} && nextSeq == old(nextSeq)
      ensures r.Granted? && supplied.Some? ==> r.value == supplied.value
    {
      if !fieldsOk {
        return Refused(InvalidField);
      }
      r := ResolveOrderId(supplied);
      if r.Granted? {
        inUse := inUse + {r.value};
      }
    }

    /** Stamp an accepted order with the next arrival number. */
    method NewOrderMessage(id: u64, side: Side, price: u64, quantity: u32) returns (m: Message)
      modifies this`nextSeq
      ensures m == NewOrder(id, side, price, quantity, old(nextSeq)) && nextSeq == Next64(old(nextSeq))
    {
      m := NewOrder(id, side, price, quantity, nextSeq);
      nextSeq := Next64(nextSeq);
    }
  }

  // ---- Any interleaving -------------------------------------------------------

  datatype Op = Order(fieldsOk: bool, supplied: Option<u64>) | Reserved(id: u64)

  /** `taken` are pairwise distinct ids, none in `before`, and adding them to `before` gives `after`. */
  ghost predicate Allocated(before: set<u64>, taken: seq<u64>, after: set<u64>) {
    NoRepeats(taken) && before !! Elements(taken) && after == before + Elements(taken)
  }

  lemma AllocatedOne(before: set<u64>, taken: seq<u64>, after: set<u64>, id: u64)
    requires Allocated(before, taken, after) && id !in after
    ensures Allocated(before, taken + [id], after + {id})
  {
    assert Elements(taken + [id]) == Elements(taken) + {id};
    assert id !in taken;
  }

  /** Drive a gateway through any interleaving of orders and reservations; `taken` are the ids that succeeded. */
  method Drive(g: Gateway, ops: seq<Op>) returns (taken: seq<u64>)
    requires |g.inUse| + |ops| <= TWO64
    modifies g
    ensures Allocated(old(g.inUse), taken, g.inUse)
    ensures forall k :: 0 <= k < |ops| && ops[k].Reserved? ==> ops[k].id in g.inUse
  {
    hide Allocated;
    taken := [];
    AllocatedNone(g.inUse);
    for k := 0 to |ops|
      invariant |g.inUse| + (|ops| - k) <= TWO64
      invariant Allocated(old(g.inUse), taken, g.inUse)
      invariant forall i :: 0 <= i < k && ops[i].Reserved? ==> ops[i].id in g.inUse
    {
      ghost var before := g.inUse;
      match ops[k]
      case Order(fieldsOk, supplied) =>
        var r := g.HandleNewOrder(fieldsOk, supplied);
        if r.Granted? {
          AllocatedOne(old(g.inUse), taken, before, r.value);
          taken := taken + [r.value];
        }
      case Reserved(id) =>
        var ok := g.Reserve(id);
        if ok {
          AllocatedOne(old(g.inUse), taken, before, id);
          taken := taken + [id];
        } else {
          assert g.inUse == before;
        }
    }
  }

  lemma AllocatedNone(inUse: set<u64>)
    ensures Allocated(inUse, [], inUse)
  {
  }
}
