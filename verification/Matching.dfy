/** Matching one incoming order against the opposite side, and what it must compute. */
module Matching {
  import opened Wire
  import opened BookModel

  /** A buy trades with asks at or below its limit, a sell with bids at or above. */
  predicate Crosses(side: Side, limit: u64, resting: u64) {
    if side.Buy? then resting <= limit else resting >= limit
  }

  /** Outcome of matching: trades, the opposite side afterwards, unfilled quantity, next exec_seq, filled ids. */
  datatype Matched = Matched(trades: seq<Message>, book: seq<Order>, left: u32, exec: u64, gone: seq<u64>)

  /** The matching loop: trade with the front order while it is eligible and quantity is left. */
  function Match(opp: seq<Order>, side: Side, limit: u64, id: u64, left: u32, exec: u64): Matched
    decreases |opp|
  {
    if left == 0 || opp == [] || !Crosses(side, limit, opp[0].price) then
      Matched([], opp, left, exec, [])
    else
      var q := Min(left, opp[0].qty);
      var trade := Trade(exec, opp[0].price, q, id, opp[0].id);
      if q == opp[0].qty then
        var m := Match(opp[1..], side, limit, id, left - q, Next64(exec));
        m.(trades := [trade] + m.trades, gone := [opp[0].id] + m.gone)
      else
        Matched([trade], [opp[0].(qty := opp[0].qty - q)] + opp[1..], 0, Next64(exec), [])
  }

  lemma MatchStops(opp: seq<Order>, side: Side, limit: u64, id: u64, left: u32, exec: u64)
    requires left == 0 || opp == [] || !Crosses(side, limit, opp[0].price)
    ensures Match(opp, side, limit, id, left, exec) == Matched([], opp, left, exec, [])
  {
  }

  lemma MatchFills(opp: seq<Order>, side: Side, limit: u64, id: u64, left: u32, exec: u64)
    requires left > 0 && opp != [] && Crosses(side, limit, opp[0].price) && left >= opp[0].qty
    ensures var m := Match(opp[1..], side, limit, id, left - opp[0].qty, Next64(exec));
      Match(opp, side, limit, id, left, exec)
      == m.(trades := [Trade(exec, opp[0].price, opp[0].qty, id, opp[0].id)] + m.trades, gone := [opp[0].id] + m.gone)
  {
  }

  lemma MatchReducesFront(opp: seq<Order>, side: Side, limit: u64, id: u64, left: u32, exec: u64)
    requires left > 0 && opp != [] && Crosses(side, limit, opp[0].price) && left < opp[0].qty
    ensures Match(opp, side, limit, id, left, exec)
         == Matched([Trade(exec, opp[0].price, left, id, opp[0].id)],
                    [opp[0].(qty := opp[0].qty - left)] + opp[1..], 0, Next64(exec), [])
  {
  }

  // ---- The declarative specification --------------------------------------

  /** The resting orders the incoming order may trade with, wherever they are in the list. */
  function Eligible(opp: seq<Order>, side: Side, limit: u64): seq<Order> {
    if opp == [] then []
    else (if Crosses(side, limit, opp[0].price) then [opp[0]] else []) + Eligible(opp[1..], side, limit)
  }

  /** What the k-th eligible order gets: its quantity, as far as those before it leave any. */
  function Share(e: seq<Order>, quantity: nat, k: nat): u32
    requires k < |e|
  {
    if quantity <= Total(e[..k]) then 0 else Min(e[k].qty, quantity - Total(e[..k]))
  }

  function ExecAt(exec: u64, k: nat): u64 {
    (exec + k) % TWO64
  }

  lemma ExecStep(exec: u64, k: nat)
    ensures ExecAt(exec, 0) == exec && ExecAt(Next64(exec), k) == ExecAt(exec, k + 1)
  {
  }

  /** The eligible orders of a sorted side are a prefix of it. */
  lemma {:induction false} EligibleIsPrefix(opp: seq<Order>, side: Side, limit: u64)
    requires Sorted(opp) && OnSide(opp, Opposite(side))
    ensures |Eligible(opp, side, limit)| <= |opp|
    ensures Eligible(opp, side, limit) == opp[..|Eligible(opp, side, limit)|]
    ensures forall i :: 0 <= i < |opp| ==> (Crosses(side, limit, opp[i].price) <==> i < |Eligible(opp, side, limit)|)
  {
    if opp != [] {
      var rest := opp[1..];
      EligibleIsPrefix(rest, side, limit);
      assert forall i :: 0 < i < |opp| ==> opp[i] == rest[i - 1] && !Ahead(opp[i], opp[0]);
      assert rest != [] ==> (Crosses(side, limit, rest[0].price) <==> 0 < |Eligible(rest, side, limit)|);
    }
  }

  lemma TotalTail(e: seq<Order>, k: nat)
    requires 0 < k <= |e|
    ensures Total(e[..k]) == e[0].qty + Total(e[1..][..k - 1])
  {
    assert e[..k][1..] == e[1..][..k - 1];
  }

  lemma ShareTail(e: seq<Order>, quantity: nat, k: nat)
    requires 0 < k < |e| && e[0].qty <= quantity
    ensures Share(e, quantity, k) == Share(e[1..], quantity - e[0].qty, k - 1)
  {
    TotalTail(e, k);
  }

  lemma {:induction false} TotalPrefix(e: seq<Order>, k: nat)
    requires k <= |e|
    ensures Total(e[..k]) <= Total(e)
  {
    if k > 0 {
      TotalTail(e, k);
      TotalPrefix(e[1..], k - 1);
    }
  }

  /** `trades` are exactly the positive shares, in order, at the resting prices. */
  ghost predicate Greedy(trades: seq<Message>, e: seq<Order>, id: u64, quantity: nat, exec: u64) {
    && |trades| <= |e|
    && (forall k :: 0 <= k < |trades| ==> 0 < Share(e, quantity, k))
    && (forall k :: 0 <= k < |trades| ==>
          trades[k] == Trade(ExecAt(exec, k), e[k].price, Share(e, quantity, k), id, e[k].id))
    && (forall k :: |trades| <= k < |e| ==> Share(e, quantity, k) == 0)
  }

  lemma GreedyCons(trades: seq<Message>, e: seq<Order>, id: u64, quantity: nat, exec: u64)
    requires e != [] && 0 < e[0].qty <= quantity && Greedy(trades, e[1..], id, quantity - e[0].qty, Next64(exec))
    ensures Greedy([Trade(exec, e[0].price, e[0].qty, id, e[0].id)] + trades, e, id, quantity, exec)
  {
    var trades' := [Trade(exec, e[0].price, e[0].qty, id, e[0].id)] + trades;
    forall k | 0 <= k < |e|
      ensures if k < |trades'| then 0 < Share(e, quantity, k)
          && trades'[k] == Trade(ExecAt(exec, k), e[k].price, Share(e, quantity, k), id, e[k].id)
        else Share(e, quantity, k) == 0
    {
      if k > 0 {
        ShareTail(e, quantity, k);
        assert ExecAt(Next64(exec), k - 1) == ExecAt(exec, k);
      }
    }
  }

  ghost predicate Positive(s: seq<Order>) {
    forall i :: 0 <= i < |s| ==> s[i].qty > 0
  }

  /** How many eligible orders are filled completely. */
  function Filled(e: seq<Order>, quantity: nat): (n: nat)
    ensures n <= |e|
  {
    if e == [] || quantity < e[0].qty then 0 else 1 + Filled(e[1..], quantity - e[0].qty)
  }

  /** The side after `quantity` has been taken from its front. */
  function Consumed(s: seq<Order>, quantity: nat): seq<Order> {
    if s == [] || quantity == 0 then s
    else if quantity < s[0].qty then [s[0].(qty := s[0].qty - quantity)] + s[1..]
    else Consumed(s[1..], quantity - s[0].qty)
  }

  function Ids(s: seq<Order>): seq<u64> {
    seq(|s|, i requires 0 <= i < |s| => s[i].id)
  }

  /** Matching stops at an ineligible front order only when nothing is eligible. */
  lemma FrontDecides(opp: seq<Order>, side: Side, limit: u64)
    requires Sorted(opp) && OnSide(opp, Opposite(side))
    ensures opp == [] || !Crosses(side, limit, opp[0].price) ==> Eligible(opp, side, limit) == []
    ensures opp != [] && Crosses(side, limit, opp[0].price) ==>
      Eligible(opp, side, limit) == [opp[0]] + Eligible(opp[1..], side, limit)
  {
    EligibleIsPrefix(opp, side, limit);
  }

  /** A front order larger than the incoming quantity is the only one to trade. */
  lemma GreedyPartial(e: seq<Order>, id: u64, left: u32, exec: u64)
    requires e != [] && 0 < left < e[0].qty
    ensures Greedy([Trade(exec, e[0].price, left, id, e[0].id)], e, id, left, exec)
  {
    forall k | 0 < k < |e| ensures Share(e, left, k) == 0 {
      TotalTail(e, k);
    }
  }

  lemma {:induction false} MatchTrades(opp: seq<Order>, side: Side, limit: u64, id: u64, left: u32, exec: u64)
    requires Sorted(opp) && OnSide(opp, Opposite(side)) && Positive(opp)
    ensures Greedy(Match(opp, side, limit, id, left, exec).trades, Eligible(opp, side, limit), id, left, exec)
    decreases |opp|
  {
    hide Match;
    hide Eligible;
    hide Sorted;
    hide OnSide;
    var e := Eligible(opp, side, limit);
    FrontDecides(opp, side, limit);
    if left == 0 || opp == [] || !Crosses(side, limit, opp[0].price) {
      MatchStops(opp, side, limit, id, left, exec);
    } else {
      assert e[1..] == Eligible(opp[1..], side, limit);
      if left >= opp[0].qty {
        RestSorted(opp, Opposite(side));
        MatchFills(opp, side, limit, id, left, exec);
        MatchTrades(opp[1..], side, limit, id, left - opp[0].qty, Next64(exec));
        GreedyCons(Match(opp[1..], side, limit, id, left - opp[0].qty, Next64(exec)).trades, e, id, left, exec);
      } else {
        MatchReducesFront(opp, side, limit, id, left, exec);
        GreedyPartial(e, id, left, exec);
      }
    }
  }

  lemma RestSorted(s: seq<Order>, side: Side)
    requires Sorted(s) && OnSide(s, side) && s != []
    ensures Sorted(s[1..]) && OnSide(s[1..], side)
  {
  }

  lemma {:induction false} MatchTotals(opp: seq<Order>, side: Side, limit: u64, id: u64, left: u32, exec: u64)
    requires Sorted(opp) && OnSide(opp, Opposite(side)) && Positive(opp)
    ensures var m, e := Match(opp, side, limit, id, left, exec), Eligible(opp, side, limit);
      m.left == left - Min(left, Total(e)) && m.book == Consumed(opp, Min(left, Total(e)))
    decreases |opp|
  {
    hide Eligible;
    hide Sorted;
    hide OnSide;
    FrontDecides(opp, side, limit);
    if left > 0 && opp != [] && Crosses(side, limit, opp[0].price) {
      RestSorted(opp, Opposite(side));
      assert Eligible(opp, side, limit)[1..] == Eligible(opp[1..], side, limit);
      if left >= opp[0].qty {
        MatchTotals(opp[1..], side, limit, id, left - opp[0].qty, Next64(exec));
      }
    }
  }

  lemma {:induction false} MatchExec(opp: seq<Order>, side: Side, limit: u64, id: u64, left: u32, exec: u64)
    ensures var m := Match(opp, side, limit, id, left, exec); m.exec == ExecAt(exec, |m.trades|)
    decreases |opp|
  {
    hide ExecAt;
    ExecStep(exec, 0);
    if left > 0 && opp != [] && Crosses(side, limit, opp[0].price) {
      ExecStep(Next64(exec), 0);
      if left >= opp[0].qty {
        MatchExec(opp[1..], side, limit, id, left - opp[0].qty, Next64(exec));
        ExecStep(exec, |Match(opp[1..], side, limit, id, left - opp[0].qty, Next64(exec)).trades|);
      }
    }
  }

  lemma IdsNone()
    ensures Ids([]) == []
  {
  }

  lemma IdsCons(o: Order, s: seq<Order>)
    ensures Ids([o] + s) == [o.id] + Ids(s)
  {
  }

  lemma SortedTail(s: seq<Order>)
    requires Sorted(s) && s != []
    ensures Sorted(s[1..])
  {
  }

  lemma {:induction false} MatchGone(opp: seq<Order>, side: Side, limit: u64, id: u64, left: u32, exec: u64)
    requires Sorted(opp) && OnSide(opp, Opposite(side)) && Positive(opp)
    ensures var e := Eligible(opp, side, limit);
      Match(opp, side, limit, id, left, exec).gone == Ids(e[..Filled(e, left)])
    decreases |opp|
  {
    hide Eligible;
    hide Sorted;
    hide Ids;
    hide Match;
    var e := Eligible(opp, side, limit);
    FrontDecides(opp, side, limit);
    IdsNone();
    if left == 0 || opp == [] || !Crosses(side, limit, opp[0].price) {
      MatchStops(opp, side, limit, id, left, exec);
    } else {
      assert e[1..] == Eligible(opp[1..], side, limit);
      SortedTail(opp);
      if left < opp[0].qty {
        MatchReducesFront(opp, side, limit, id, left, exec);
      } else {
        MatchFills(opp, side, limit, id, left, exec);
        MatchGone(opp[1..], side, limit, id, left - opp[0].qty, Next64(exec));
        var n := Filled(e[1..], left - opp[0].qty);
        assert e[..n + 1] == [opp[0]] + e[1..][..n];
        IdsCons(opp[0], e[1..][..n]);
      }
    }
  }

  /**
   * The loop computes price-time priority: the trades are the greedy shares of the eligible orders, the
   * traded total is as large as possible, the opposite side loses exactly that much from its front, and
   * the fully filled orders are the ones that leave.
   */
  lemma MatchIsGreedy(opp: seq<Order>, side: Side, limit: u64, id: u64, left: u32, exec: u64)
    requires Sorted(opp) && OnSide(opp, Opposite(side)) && Positive(opp)
    ensures var m, e := Match(opp, side, limit, id, left, exec), Eligible(opp, side, limit);
      && e <= opp && Greedy(m.trades, e, id, left, exec)
      && m.left == left - Min(left, Total(e))
      && m.exec == ExecAt(exec, |m.trades|)
      && m.book == Consumed(opp, Min(left, Total(e)))
      && m.gone == Ids(e[..Filled(e, left)])
  {
    EligibleIsPrefix(opp, side, limit);
    MatchTrades(opp, side, limit, id, left, exec);
    MatchTotals(opp, side, limit, id, left, exec);
    MatchExec(opp, side, limit, id, left, exec);
    MatchGone(opp, side, limit, id, left, exec);
  }
}
