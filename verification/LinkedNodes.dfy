/** Doubly linked lists threaded through an array of nodes, as values. */
module LinkedNodes {
  /** End-of-list and no-slot marker: the largest 32-bit index. */
  const NULL: nat := 0xFFFF_FFFF

  datatype Node<T> = Node(item: T, next: nat, prev: nat)

  /** The k-th index of a list, or NULL on either side of it. */
  function At(list: seq<nat>, k: int): nat {
    if 0 <= k < |list| then list[k] else NULL
  }

  ghost predicate Distinct(list: seq<nat>) {
    forall i, j :: 0 <= i < j < |list| ==> list[i] != list[j]
  }

  ghost predicate InRange(list: seq<nat>, size: nat) {
    forall k :: 0 <= k < |list| ==> list[k] < size
  }

  /** `list` is threaded through `nodes` in both directions. */
  ghost predicate Threaded<T>(nodes: seq<Node<T>>, list: seq<nat>) {
    && |nodes| <= NULL
    && InRange(list, |nodes|)
    && Distinct(list)
    && forall k {:trigger Link(nodes, list, k)} :: 0 <= k < |list| ==> Link(nodes, list, k)
  }

  ghost predicate Link<T>(nodes: seq<Node<T>>, list: seq<nat>, k: nat)
    requires k < |list| && InRange(list, |nodes|)
  {
    nodes[list[k]].next == At(list, k + 1) && nodes[list[k]].prev == At(list, k - 1)
  }

  function InsertAt<T>(s: seq<T>, p: nat, x: T): seq<T>
    requires p <= |s|
  {
    seq(|s| + 1, k requires 0 <= k <= |s| => if k < p then s[k] else if k == p then x else s[k - 1])
  }

  function RemoveAt<T>(s: seq<T>, p: nat): seq<T>
    requires p < |s|
  {
    seq(|s| - 1, k requires 0 <= k < |s| - 1 => if k < p then s[k] else s[k + 1])
  }

  /** The pointer writes that put slot `x` between positions p-1 and p. */
  ghost predicate LinkedIn<T>(nodes: seq<Node<T>>, nodes': seq<Node<T>>, list: seq<nat>, p: nat, x: nat)
    requires p <= |list| && x < |nodes| == |nodes'| && InRange(list, |nodes|)
  {
    && nodes'[x].next == At(list, p)
    && nodes'[x].prev == At(list, p - 1)
    && (p > 0 ==> nodes'[list[p - 1]] == nodes[list[p - 1]].(next := x))
    && (p < |list| ==> nodes'[list[p]] == nodes[list[p]].(prev := x))
    && forall i :: 0 <= i < |nodes| && i != x && i != At(list, p - 1) && i != At(list, p) ==> nodes'[i] == nodes[i]
  }

  lemma DistinctInsert(list: seq<nat>, p: nat, x: nat)
    requires Distinct(list) && p <= |list| && x !in list
    ensures Distinct(InsertAt(list, p, x))
  {
    var list' := InsertAt(list, p, x);
    forall i, j | 0 <= i < j < |list'| ensures list'[i] != list'[j] {
      assert i != p ==> list'[i] == list[if i < p then i else i - 1];
      assert j != p ==> list'[j] == list[if j < p then j else j - 1];
    }
  }

  lemma LinkedInAt<T>(nodes: seq<Node<T>>, nodes': seq<Node<T>>, list: seq<nat>, p: nat, x: nat, m: nat)
    requires Threaded(nodes, list) && p <= |list| && x < |nodes| == |nodes'| && x !in list && m < |list|
    requires LinkedIn(nodes, nodes', list, p, x)
    ensures nodes'[list[m]].next == if m == p - 1 then x else At(list, m + 1)
    ensures nodes'[list[m]].prev == if m == p then x else At(list, m - 1)
  {
    assert Link(nodes, list, m);
    assert m != p - 1 ==> list[m] != At(list, p - 1);
    assert m != p ==> list[m] != At(list, p);
  }

  lemma ThreadedInsert<T>(nodes: seq<Node<T>>, nodes': seq<Node<T>>, list: seq<nat>, p: nat, x: nat)
    requires Threaded(nodes, list) && p <= |list| && x < |nodes| == |nodes'| && x !in list
    requires LinkedIn(nodes, nodes', list, p, x)
    ensures Threaded(nodes', InsertAt(list, p, x))
  {
    var list' := InsertAt(list, p, x);
    DistinctInsert(list, p, x);
    assert InRange(list', |nodes|);
    forall k | 0 <= k < |list'| ensures Link(nodes', list', k) {
      if k != p {
        LinkedInAt(nodes, nodes', list, p, x, if k < p then k else k - 1);
      }
    }
  }

  /** The pointer writes that take position p out of the list. */
  ghost predicate LinkedOut<T>(nodes: seq<Node<T>>, nodes': seq<Node<T>>, list: seq<nat>, p: nat)
    requires p < |list| && |nodes| == |nodes'| && InRange(list, |nodes|)
  {
    && (p > 0 ==> nodes'[list[p - 1]] == nodes[list[p - 1]].(next := nodes[list[p]].next))
    && (p + 1 < |list| ==> nodes'[list[p + 1]] == nodes[list[p + 1]].(prev := nodes[list[p]].prev))
    && forall i :: 0 <= i < |nodes| && i != At(list, p - 1) && i != At(list, p + 1) ==> nodes'[i] == nodes[i]
  }

  lemma ThreadedRemove<T>(nodes: seq<Node<T>>, nodes': seq<Node<T>>, list: seq<nat>, p: nat)
    requires Threaded(nodes, list) && p < |list| && |nodes| == |nodes'|
    requires LinkedOut(nodes, nodes', list, p)
    ensures Threaded(nodes', RemoveAt(list, p))
  {
    var list' := RemoveAt(list, p);
    assert Link(nodes, list, p);
    forall k | 0 <= k < |list'| ensures Link(nodes', list', k) {
      var m := if k < p then k else k + 1;
      assert list'[k] == list[m] && Link(nodes, list, m);
    }
  }

  lemma ThreadedSame<T>(nodes: seq<Node<T>>, nodes': seq<Node<T>>, list: seq<nat>)
    requires Threaded(nodes, list) && |nodes'| == |nodes|
    requires forall k :: 0 <= k < |list| ==>
      nodes'[list[k]].next == nodes[list[k]].next && nodes'[list[k]].prev == nodes[list[k]].prev
    ensures Threaded(nodes', list)
  {
    forall k | 0 <= k < |list| ensures Link(nodes', list, k) {
      assert Link(nodes, list, k);
    }
  }

  /** `list` names exactly the slots whose use is `u`. */
  ghost predicate Covers<U>(use: seq<U>, u: U, list: seq<nat>) {
    && (forall k :: 0 <= k < |list| ==> list[k] < |use| && use[list[k]] == u)
    && (forall i :: 0 <= i < |use| && use[i] == u ==> i in list)
  }

  lemma CoversInsert<U>(use: seq<U>, u: U, list: seq<nat>, p: nat, x: nat)
    requires Covers(use, u, list) && p <= |list| && x < |use| && use[x] != u
    ensures Covers(use[x := u], u, InsertAt(list, p, x))
  {
    var list' := InsertAt(list, p, x);
    forall i | 0 <= i < |use| && use[x := u][i] == u ensures i in list' {
      if i == x { assert list'[p] == i; } else {
        var k :| 0 <= k < |list| && list[k] == i;
        assert list'[if k < p then k else k + 1] == i;
      }
    }
  }

  lemma CoversRemove<U>(use: seq<U>, u: U, list: seq<nat>, p: nat, v: U)
    requires Covers(use, u, list) && Distinct(list) && p < |list| && u != v
    ensures Covers(use[list[p] := v], u, RemoveAt(list, p))
  {
    var list' := RemoveAt(list, p);
    forall i | 0 <= i < |use| && use[list[p] := v][i] == u ensures i in list' {
      var k :| 0 <= k < |list| && list[k] == i;
      assert list'[if k < p then k else k - 1] == i;
    }
  }

  // ---- The pointer writes as functions ------------------------------------

  function SetNext<T>(nodes: seq<Node<T>>, i: nat, x: nat): seq<Node<T>> {
    if i < |nodes| then nodes[i := nodes[i].(next := x)] else nodes
  }

  function SetPrev<T>(nodes: seq<Node<T>>, i: nat, x: nat): seq<Node<T>> {
    if i < |nodes| then nodes[i := nodes[i].(prev := x)] else nodes
  }

  /** Link slot x in between `prev` and `next`, either of which may be NULL. */
  function LinkBetween<T>(nodes: seq<Node<T>>, x: nat, item: T, prev: nat, next: nat): seq<Node<T>>
    requires x < |nodes|
  {
    SetPrev(SetNext(nodes[x := Node(item, next, prev)], prev, x), next, x)
  }

  /** Link the neighbours of slot x with each other. */
  function Unlink<T>(nodes: seq<Node<T>>, x: nat): seq<Node<T>>
    requires x < |nodes|
  {
    SetPrev(SetNext(nodes, nodes[x].prev, nodes[x].next), nodes[x].next, nodes[x].prev)
  }

  lemma LinkBetweenLinksIn<T>(nodes: seq<Node<T>>, list: seq<nat>, p: nat, x: nat, item: T)
    requires Threaded(nodes, list) && p <= |list| && x < |nodes| && x !in list
    ensures var nodes' := LinkBetween(nodes, x, item, At(list, p - 1), At(list, p));
      |nodes'| == |nodes| && LinkedIn(nodes, nodes', list, p, x) && nodes'[x].item == item
  {
  }

  lemma UnlinkLinksOut<T>(nodes: seq<Node<T>>, list: seq<nat>, p: nat)
    requires Threaded(nodes, list) && p < |list|
    ensures |Unlink(nodes, list[p])| == |nodes| && LinkedOut(nodes, Unlink(nodes, list[p]), list, p)
  {
    assert Link(nodes, list, p);
  }
}
