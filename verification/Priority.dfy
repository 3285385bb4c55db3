/** Price-time priority and fill-or-kill, stated without saying how a sweep proceeds. */
module Priority {
  import opened Types
  import opened PriceTime

  // ---------------------------------------------------------------- allocations

  function Sum(f: seq<nat>): nat {
    if f == [] then 0 else f[0] + Sum(f[1..])
  }

  /** Order `j` of this side has priority over order `i`: better price, or same price and older. */
  ghost predicate Precedes(side: Side, s: seq<Entry>, j: int, i: int)
    requires 0 <= i < |s| && 0 <= j < |s|
  {
    Better(side, s[j].price, s[i].price) || (s[j].price == s[i].price && j < i)
  }

  /** `f[i]` is what maker `i` sells or buys. Nobody trades outside the taker's limit, a maker
      trades only once every order with priority over it is exhausted, and quantity is left
      over only if nothing admissible remains. */
  ghost predicate PriorityAllocation(r: Request, opp: seq<Entry>, q: nat, f: seq<nat>, left: nat) {
    && |f| == |opp|
    && (forall i :: 0 <= i < |f| ==> f[i] <= opp[i].qty)
    && (forall i :: 0 <= i < |f| && f[i] > 0 ==> Crosses(r, opp[i].price))
    && (forall i, j :: 0 <= i < |f| && 0 <= j < |f| && f[i] > 0 && Precedes(Opposite(r.side), opp, j, i)
          ==> f[j] == opp[j].qty)
    && Sum(f) + left == q
    && (left > 0 ==> forall i :: 0 <= i < |f| && Crosses(r, opp[i].price) ==> f[i] == opp[i].qty)
  }

  /** One trade per maker that takes part, at the maker's price. */
  function TradesOf(r: Request, opp: seq<Entry>, f: seq<nat>): seq<Trade>
    requires |f| == |opp| && forall i :: 0 <= i < |f| ==> f[i] <= opp[i].qty
  {
    if f == [] then []
    else
      assert f[0] <= opp[0].qty;
      (if f[0] > 0 then [Trade(opp[0].id, r.id, opp[0].price, f[0], r.ts)] else []) + TradesOf(r, opp[1..], f[1..])
  }

  /** The makers with what they have not traded; exhausted ones are gone. */
  function RestOf(opp: seq<Entry>, f: seq<nat>): seq<Entry>
    requires |f| == |opp| && forall i :: 0 <= i < |f| ==> f[i] <= opp[i].qty
  {
    if f == [] then []
    else (if f[0] == opp[0].qty then [] else [opp[0].(qty := opp[0].qty - f[0])]) + RestOf(opp[1..], f[1..])
  }

  lemma {:induction false} SumZero(f: seq<nat>)
    requires Sum(f) == 0
    ensures forall i :: 0 <= i < |f| ==> f[i] == 0
  {
    if f != [] {
      SumZero(f[1..]);
      assert forall i :: 1 <= i < |f| ==> f[i] == f[1..][i - 1];
    }
  }

  lemma {:induction false} ZeroSum(f: seq<nat>)
    requires forall i :: 0 <= i < |f| ==> f[i] == 0
    ensures Sum(f) == 0
  {
    if f != [] {
      ZeroSum(f[1..]);
    }
  }

  lemma {:induction false} IdleAllocation(r: Request, opp: seq<Entry>, f: seq<nat>)
    requires Positive(opp) && |f| == |opp| && forall i :: 0 <= i < |f| ==> f[i] == 0
    ensures TradesOf(r, opp, f) == [] && RestOf(opp, f) == opp
  {
    if f != [] {
      IdleAllocation(r, opp[1..], f[1..]);
    }
  }

  lemma TailAllocation(r: Request, opp: seq<Entry>, q: nat, f: seq<nat>, left: nat)
    requires PriorityAllocation(r, opp, q, f, left) && opp != []
    ensures PriorityAllocation(r, opp[1..], q - f[0], f[1..], left)
  {
  }

  lemma NobodyTrades(r: Request, opp: seq<Entry>, q: Quantity, f: seq<nat>, left: nat)
    requires Sorted(Opposite(r.side), opp) && Positive(opp)
    requires PriorityAllocation(r, opp, q, f, left)
    requires q == 0 || opp == [] || !Crosses(r, opp[0].price)
    ensures left == q && TradesOf(r, opp, f) == [] && RestOf(opp, f) == opp
  {
    if q == 0 {
      SumZero(f);
    }
    assert forall i :: 0 <= i < |f| ==> f[i] == 0;
    ZeroSum(f);
    IdleAllocation(r, opp, f);
  }

  /** Only one outcome respects price-time priority, and it is the greedy sweep. */
  lemma {:induction false} PriorityDeterminesMatch(r: Request, opp: seq<Entry>, q: Quantity, f: seq<nat>, left: nat)
    requires Sorted(Opposite(r.side), opp) && Positive(opp)
    requires PriorityAllocation(r, opp, q, f, left)
    ensures Match(r, opp, q) == Sweep(TradesOf(r, opp, f), RestOf(opp, f), left)
    decreases |opp|
  {
    if q == 0 || opp == [] || !Crosses(r, opp[0].price) {
      NobodyTrades(r, opp, q, f, left);
    } else {
      TailAllocation(r, opp, q, f, left);
      HeadFirst(r, opp, q, f, left);
      hide PriorityAllocation, Precedes, Sum, Crosses, Better;
      if f[0] == opp[0].qty {
        PriorityDeterminesMatch(r, opp[1..], q - f[0], f[1..], left);
      } else {
        IdleAllocation(r, opp[1..], f[1..]);
      }
    }
  }

  /** The order at the front takes as much as it can before anyone else. */
  lemma HeadFirst(r: Request, opp: seq<Entry>, q: Quantity, f: seq<nat>, left: nat)
    requires Sorted(Opposite(r.side), opp) && Positive(opp)
    requires PriorityAllocation(r, opp, q, f, left)
    requires opp != [] && q > 0 && Crosses(r, opp[0].price)
    ensures f[0] == Min(q, opp[0].qty)
    ensures f[0] < opp[0].qty ==> left == 0 && forall i :: 1 <= i < |f| ==> f[i] == 0
  {
    if f[0] < opp[0].qty {
      forall i | 1 <= i < |f|
        ensures f[i] == 0
      {
        assert Precedes(Opposite(r.side), opp, 0, i);
      }
      ZeroSum(f[1..]);
    }
  }

  /** The greedy sweep does respect it: these are the amounts. */
  function Amounts(r: Request, opp: seq<Entry>, q: Quantity): (f: seq<nat>)
    ensures |f| == |opp|
  {
    if opp == [] then []
    else if q == 0 || !Crosses(r, opp[0].price) then seq(|opp|, i => 0)
    else [Min(q, opp[0].qty)] + Amounts(r, opp[1..], q - Min(q, opp[0].qty))
  }

  /** Serving the head first extends a lawful allocation of the others. */
  lemma HeadExtendsAllocation(r: Request, opp: seq<Entry>, q: nat, f0: nat, g: seq<nat>, left: nat)
    requires opp != [] && Crosses(r, opp[0].price) && f0 == Min(q, opp[0].qty)
    requires Sorted(Opposite(r.side), opp)
    requires PriorityAllocation(r, opp[1..], q - f0, g, left)
    ensures PriorityAllocation(r, opp, q, [f0] + g, left)
  {
    var f, tail, side := [f0] + g, opp[1..], Opposite(r.side);
    assert f[1..] == g;
    assert forall i :: 1 <= i < |f| ==> f[i] == g[i - 1] && opp[i] == tail[i - 1];
    if f0 < opp[0].qty {
      SumZero(g);
    }
    forall i, j | 0 <= i < |f| && 0 <= j < |f| && f[i] > 0 && Precedes(side, opp, j, i)
      ensures f[j] == opp[j].qty
    {
      if j > 0 && i > 0 {
        assert Precedes(side, tail, j - 1, i - 1);
      }
    }
  }

  lemma IdleRespectsPriority(r: Request, opp: seq<Entry>, q: Quantity, f: seq<nat>)
    requires Sorted(Opposite(r.side), opp) && (q == 0 || opp == [] || !Crosses(r, opp[0].price))
    requires |f| == |opp| && forall i :: 0 <= i < |f| ==> f[i] == 0
    ensures PriorityAllocation(r, opp, q, f, q)
  {
    ZeroSum(f);
  }

  lemma {:induction false} MatchRespectsPriority(r: Request, opp: seq<Entry>, q: Quantity)
    requires Sorted(Opposite(r.side), opp) && Positive(opp)
    ensures PriorityAllocation(r, opp, q, Amounts(r, opp, q), Match(r, opp, q).left)
    decreases |opp|
  {
    hide PriorityAllocation;
    if q == 0 || opp == [] || !Crosses(r, opp[0].price) {
      IdleRespectsPriority(r, opp, q, Amounts(r, opp, q));
    } else {
      var f0, tail := Min(q, opp[0].qty), opp[1..];
      MatchRespectsPriority(r, tail, q - f0);
      HeadExtendsAllocation(r, opp, q, f0, Amounts(r, tail, q - f0), Match(r, tail, q - f0).left);
      MatchStep(r, opp, q);
      LeftAfterHead(r, opp, q);
    }
  }

  lemma LeftAfterHead(r: Request, opp: seq<Entry>, q: Quantity)
    requires q > 0 && opp != [] && Crosses(r, opp[0].price)
    ensures Match(r, opp, q).left == Match(r, opp[1..], q - Min(q, opp[0].qty)).left
  {
  }

  // ---------------------------------------------------------------- the trade list itself

  /** Trade `i` is with order `i` of the queue at that order's price, under both ids and the
      taker's timestamp; every order but the last one traded with is exhausted. */
  ghost predicate InQueueOrder(r: Request, opp: seq<Entry>, s: Sweep) {
    var k := |s.trades|;
    && k <= |opp|
    && (forall i :: 0 <= i < k ==>
          && s.trades[i].makerId == opp[i].id && s.trades[i].takerId == r.id
          && s.trades[i].price == opp[i].price && s.trades[i].ts == r.ts)
    && (forall i :: 0 <= i < k ==> 0 < s.trades[i].qty <= opp[i].qty)
    && (forall i :: 0 <= i < k - 1 ==> s.trades[i].qty == opp[i].qty)
    && s.rest == if k > 0 then AfterFill(opp[k - 1..], s.trades[k - 1].qty) else opp
  }

  lemma QueueOrderExtends(r: Request, opp: seq<Entry>, s: Sweep, s': Sweep)
    requires opp != [] && opp[0].qty > 0 && InQueueOrder(r, opp[1..], s)
    requires s' == s.Prepend([TradeWith(r, opp[0], opp[0].qty)])
    ensures InQueueOrder(r, opp, s')
  {
  }

  lemma QueueOrderPartial(r: Request, opp: seq<Entry>, fill: Quantity, s: Sweep)
    requires opp != [] && 0 < fill < opp[0].qty
    requires s == Sweep([TradeWith(r, opp[0], fill)], AfterFill(opp, fill), 0)
    ensures InQueueOrder(r, opp, s)
  {
  }

  lemma {:induction false} TradesFollowTheQueue(r: Request, opp: seq<Entry>, q: Quantity)
    requires Positive(opp)
    ensures InQueueOrder(r, opp, Match(r, opp, q))
    decreases |opp|
  {
    if q > 0 && opp != [] && Crosses(r, opp[0].price) {
      if q >= opp[0].qty {
        TradesFollowTheQueue(r, opp[1..], q - opp[0].qty);
        QueueOrderExtends(r, opp, Match(r, opp[1..], q - opp[0].qty), Match(r, opp, q));
      } else {
        QueueOrderPartial(r, opp, q, Match(r, opp, q));
      }
    }
  }

  /** Prices never improve for the taker, and all of them are within its limit. */
  lemma TradePricesWorsen(r: Request, opp: seq<Entry>, q: Quantity)
    requires Sorted(Opposite(r.side), opp) && Positive(opp)
    ensures var ts := Match(r, opp, q).trades;
            && (forall i, j :: 0 <= i < j < |ts| ==> !Better(Opposite(r.side), ts[j].price, ts[i].price))
            && (forall i :: 0 <= i < |ts| ==> Crosses(r, ts[i].price))
  {
    var ts := Match(r, opp, q).trades;
    TradesFollowTheQueue(r, opp, q);
    TradesAdmissible(r, opp, q);
    forall i, j | 0 <= i < j < |ts|
      ensures !Better(Opposite(r.side), ts[j].price, ts[i].price)
    {
      assert ts[i].price == opp[i].price && ts[j].price == opp[j].price;
    }
  }

  lemma {:induction false} TradesAdmissible(r: Request, opp: seq<Entry>, q: Quantity)
    ensures var ts := Match(r, opp, q).trades; forall i :: 0 <= i < |ts| ==> Crosses(r, ts[i].price)
    decreases |opp|
  {
    if q > 0 && opp != [] && Crosses(r, opp[0].price) {
      var fill := Min(q, opp[0].qty);
      MatchStep(r, opp, q);
      var ts' := Match(r, AfterFill(opp, fill), q - fill).trades;
      if fill == opp[0].qty {
        TradesAdmissible(r, opp[1..], q - fill);
      }
      assert forall i :: 0 <= i < |ts'| ==> Crosses(r, ts'[i].price);
      assert Match(r, opp, q).trades == [TradeWith(r, opp[0], fill)] + ts';
    }
  }

  // ---------------------------------------------------------------- fill or kill

  function Traded(ts: seq<Trade>): nat {
    if ts == [] then 0 else ts[0].qty + Traded(ts[1..])
  }

  lemma {:induction false} NothingCrosses(r: Request, opp: seq<Entry>)
    requires forall i :: 0 <= i < |opp| ==> !Crosses(r, opp[i].price)
    ensures CrossingQty(r, opp) == 0
  {
    if opp != [] {
      NothingCrosses(r, opp[1..]);
    }
  }

  /** A sweep trades the smaller of what is asked for and what the limit admits. */
  lemma {:induction false} SweepTotals(r: Request, opp: seq<Entry>, q: Quantity)
    requires Sorted(Opposite(r.side), opp)
    ensures Match(r, opp, q).left == Max(0, q - CrossingQty(r, opp))
    ensures Traded(Match(r, opp, q).trades) == Min(q, CrossingQty(r, opp))
    decreases |opp|
  {
    if opp == [] {
    } else if !Crosses(r, opp[0].price) {
      NothingCrosses(r, opp);
    } else if q >= opp[0].qty && q > 0 {
      SweepTotals(r, opp[1..], q - opp[0].qty);
    }
  }

  /** An accepted order trades its whole quantity, which its limit admits; a rejected one changes
      no order. No order that cannot be filled is accepted, and every one that can be is unless
      a cached total has wrapped. */
  lemma FokIsAllOrNothing(b: Book, r: Request, capacity: nat)
    requires Good(b) && r.kind == FOK && r.qty > 0 && b.Resting() < capacity
    ensures var opp := b.On(Opposite(r.side));
            var o := Submit(b, r, capacity);
            && (Fillable(r, opp) <==> Match(r, opp, r.qty).left == 0)
            && o.ok
            && (Passes(r, opp) ==> Fillable(r, opp) && Traded(o.trades) == r.qty)
            && (!Passes(r, opp) ==> o.trades == [] && o.book.bids == b.bids && o.book.asks == b.asks)
            && (TotalsFit(r, opp) ==> (Passes(r, opp) <==> Fillable(r, opp)))
            && o.book.On(r.side) == b.On(r.side)
  {
    hide CrossingQty, AdmittedTotals, TotalsFit;
    SweepTotals(r, b.On(Opposite(r.side)), r.qty);
    SweepTotals(r.(ts := Stamp(b, r)), b.On(Opposite(r.side)), r.qty);
    TimestampIsIrrelevant(r, Stamp(b, r), b.On(Opposite(r.side)));
    TotalsAgainstOrders(r, b.On(Opposite(r.side)));
  }

  /** No price within the limit carries 2^64 or more, so no cached total has wrapped. */
  ghost predicate TotalsFit(r: Request, opp: seq<Entry>) {
    forall p: Price :: Crosses(r, p) ==> QtyAt(opp, p) < TWO64
  }

  lemma {:induction false} AtAndNotAt(r: Request, s: seq<Entry>, p: Price)
    ensures CrossingQty(r, s) == (if Crosses(r, p) then QtyAt(s, p) else 0) + CrossingQty(r, NotAt(s, p))
    ensures forall p' :: QtyAt(NotAt(s, p), p') == if p' == p then 0 else QtyAt(s, p')
  {
    if s != [] {
      var others := NotAt(s[1..], p);
      AtAndNotAt(r, s[1..], p);
      assert ([s[0]] + others)[1..] == others;
    }
  }

  /** The check never counts more than the orders hold, and counts exactly that if and only if no
      cached total has wrapped. */
  lemma {:induction false} TotalsAgainstOrders(r: Request, opp: seq<Entry>)
    ensures AdmittedTotals(r, opp) <= CrossingQty(r, opp)
    ensures AdmittedTotals(r, opp) == CrossingQty(r, opp) <==> TotalsFit(r, opp)
    decreases |opp|
  {
    if opp != [] {
      var p := opp[0].price;
      var others := NotAt(opp, p);
      AtAndNotAt(r, opp, p);
      TotalsAgainstOrders(r, others);
      assert TotalsFit(r, opp) <==> (Crosses(r, p) ==> QtyAt(opp, p) < TWO64) && TotalsFit(r, others);
    }
  }

  /** For `q` units the check and the orders themselves give the same verdict. */
  ghost predicate CheckAgrees(r: Request, opp: seq<Entry>, q: Quantity) {
    AdmittedTotals(r, opp) >= q <==> CrossingQty(r, opp) >= q
  }

  /** For which books the check is right whatever quantity is asked: exactly those where no
      admitted price has wrapped, or where even the wrapped totals reach every 64-bit
      quantity. */
  lemma CheckIsExactIff(r: Request, opp: seq<Entry>)
    ensures (forall q: Quantity :: CheckAgrees(r, opp, q)) <==>
            (TotalsFit(r, opp) || AdmittedTotals(r, opp) >= TWO64 - 1)
  {
    hide TotalsFit;
    TotalsAgainstOrders(r, opp);
    if !TotalsFit(r, opp) && AdmittedTotals(r, opp) < TWO64 - 1 {
      var q: Quantity := AdmittedTotals(r, opp) + 1;
      assert !CheckAgrees(r, opp, q);
    }
  }

  lemma {:induction false} TimestampIsIrrelevant(r: Request, ts: Timestamp, opp: seq<Entry>)
    ensures CrossingQty(r.(ts := ts), opp) == CrossingQty(r, opp)
  {
    if opp != [] {
      TimestampIsIrrelevant(r, ts, opp[1..]);
    }
  }
}
