/** What submit and cancel do to the reference book, stated on the orders themselves: who trades
    with whom, at which price and under which timestamp, what is left of either side, and what
    comes to rest where. Nothing here says how a sweep proceeds. */
module SubmitRules {
  import opened Types
  import opened PriceTime
  import opened Priority
  import opened Conservation

  /** The taker's limit admits this price. */
  predicate Admits(r: Request, price: Price) {
    match r.side
    case Buy => r.kind == Market || price <= r.price
    case Sell => r.kind == Market || r.price <= price
  }

  /** Trade `i` is with resting order `i`, at that order's price and inside the taker's limit,
      and carries both ids and the taker's timestamp; all but the last order traded with are
      filled completely. */
  ghost predicate Reported(r: Request, stamp: Timestamp, opp: seq<Entry>, trades: seq<Trade>) {
    && |trades| <= |opp|
    && (forall i :: 0 <= i < |trades| ==>
          && trades[i].makerId == opp[i].id && trades[i].takerId == r.id
          && trades[i].price == opp[i].price && trades[i].ts == stamp
          && 0 < trades[i].qty <= opp[i].qty && Admits(r, trades[i].price))
    && (forall i :: 0 <= i < |trades| - 1 ==> trades[i].qty == opp[i].qty)
  }

  /** The orders not traded with are as before, in the same order; the last one traded with
      stays in front of them with what it did not trade, if anything. */
  ghost predicate Reduced(opp: seq<Entry>, trades: seq<Trade>, rest: seq<Entry>)
    requires |trades| <= |opp|
  {
    var k := |trades|;
    if k == 0 then rest == opp
    else if trades[k - 1].qty == opp[k - 1].qty then rest == opp[k..]
    else opp[k - 1].qty > trades[k - 1].qty
         && rest == [opp[k - 1].(qty := opp[k - 1].qty - trades[k - 1].qty)] + opp[k..]
  }

  /** Order `e` has come to rest behind every order at its price or a better one and ahead of
      every worse one. */
  ghost predicate CameToRest(side: Side, own: seq<Entry>, e: Entry, own': seq<Entry>) {
    exists k :: 0 <= k <= |own| && own' == own[..k] + [e] + own[k..]
      && (forall i :: 0 <= i < k ==> if side == Buy then own[i].price >= e.price else own[i].price <= e.price)
      && (forall i :: k <= i < |own| ==> if side == Buy then own[i].price < e.price else own[i].price > e.price)
  }

  /** An order that reaches the opposite side: the trades, both sides afterwards, and quantity
      left over only if no order it admits remains. */
  ghost predicate Processed(r: Request, stamp: Timestamp, own: seq<Entry>, opp: seq<Entry>,
                            own': seq<Entry>, opp': seq<Entry>, trades: seq<Trade>) {
    && Reported(r, stamp, opp, trades) && Reduced(opp, trades, opp') && Traded(trades) <= r.qty
    && (Traded(trades) < r.qty ==> forall i :: 0 <= i < |opp'| ==> !Admits(r, opp'[i].price))
    && if r.kind == Limit && Traded(trades) < r.qty
       then CameToRest(r.side, own, Entry(r.id, r.price, r.qty - Traded(trades), stamp), own')
       else own' == own
  }

  lemma Inserted(side: Side, own: seq<Entry>, e: Entry)
    requires Sorted(side, own)
    ensures CameToRest(side, own, e, Insert(side, own, e))
  {
    var k := InsertShape(side, own, e);
    assert Insert(side, own, e) == own[..k] + [e] + own[k..];
  }

  lemma {:induction false} InQueueOrderIsReported(r: Request, opp: seq<Entry>, s: Sweep)
    requires InQueueOrder(r, opp, s) && forall i :: 0 <= i < |s.trades| ==> Crosses(r, s.trades[i].price)
    ensures Reported(r, r.ts, opp, s.trades) && Reduced(opp, s.trades, s.rest)
  {
  }

  lemma {:induction false} Swept(r: Request, opp: seq<Entry>)
    requires Sorted(Opposite(r.side), opp) && Positive(opp)
    ensures var s := Match(r, opp, r.qty);
            && Reported(r, r.ts, opp, s.trades) && Reduced(opp, s.trades, s.rest)
            && Traded(s.trades) + s.left == r.qty
            && (s.left > 0 ==> forall i :: 0 <= i < |s.rest| ==> !Admits(r, s.rest[i].price))
  {
    hide Traded, InQueueOrder, Reported, Reduced;
    var s := Match(r, opp, r.qty);
    TradesFollowTheQueue(r, opp, r.qty);
    TradesAdmissible(r, opp, r.qty);
    assert forall i :: 0 <= i < |s.trades| ==> Crosses(r, Match(r, opp, r.qty).trades[i].price);
    InQueueOrderIsReported(r, opp, s);
    SweepConserves(r, opp, r.qty);
    if s.left > 0 {
      MatchExhausts(r, Opposite(r.side), opp, r.qty);
    }
  }

  lemma ProcessFollowsTheRules(r: Request, own: seq<Entry>, opp: seq<Entry>, pass: bool)
    requires GoodSides(r.side, own, opp) && (r.kind == FOK ==> pass)
    ensures var (own', opp', trades) := Process(r, own, opp, pass); Processed(r, r.ts, own, opp, own', opp', trades)
  {
    hide Reported, Reduced, CameToRest;
    var s := Match(r, opp, r.qty);
    Swept(r, opp);
    if s.left > 0 && r.kind == Limit {
      Inserted(r.side, own, Entry(r.id, r.price, s.left, r.ts));
    }
  }

  /** The timestamp does not matter to who trades. */
  lemma StampedAlike(r: Request, ts: Timestamp, own: seq<Entry>, opp: seq<Entry>,
                     own': seq<Entry>, opp': seq<Entry>, trades: seq<Trade>)
    requires Processed(r.(ts := ts), ts, own, opp, own', opp', trades)
    ensures Processed(r, ts, own, opp, own', opp', trades)
  {
    assert forall p: Price :: Admits(r.(ts := ts), p) <==> Admits(r, p);
  }

  /** One submit, every order type. */
  lemma SubmitFollowsTheRules(b: Book, r: Request, capacity: nat)
    requires Good(b)
    ensures var o := Submit(b, r, capacity);
            var own, opp := b.On(r.side), b.On(Opposite(r.side));
            var own', opp' := o.book.On(r.side), o.book.On(Opposite(r.side));
            if r.qty == 0 then o == Outcome(b, true, [])
            else if |b.bids| + |b.asks| >= capacity then o == Outcome(b, false, [])
            else
              && o.ok
              && o.book.clock == (if r.ts == 0 then (b.clock + 1) % TWO64 else b.clock)
              && var stamp := if r.ts == 0 then o.book.clock else r.ts;
                 if r.kind == FOK && !Passes(r, opp) then own' == own && opp' == opp && o.trades == []
                 else Processed(r, stamp, own, opp, own', opp', o.trades)
                      && (r.kind == FOK ==> Traded(o.trades) == r.qty)
  {
    hide Processed, Passes, Match;
    if r.qty > 0 && |b.bids| + |b.asks| < capacity && (r.kind == FOK ==> Passes(r, b.On(Opposite(r.side)))) {
      var own, opp := b.On(r.side), b.On(Opposite(r.side));
      var r1 := r.(ts := Stamp(b, r));
      var (own', opp', trades) := Process(r1, own, opp, Passes(r, opp));
      ProcessFollowsTheRules(r1, own, opp, Passes(r, opp));
      StampedAlike(r, r1.ts, own, opp, own', opp', trades);
      if r.kind == FOK {
        FokIsAllOrNothing(b, r, capacity);
      }
    }
  }

  /** One cancel: it succeeds exactly for a resting id, takes out exactly that order, and leaves
      everything else, the clock included, as it was. */
  lemma CancelFollowsTheRules(b: Book, id: OrderId) returns (side: Side, k: nat)
    requires Good(b)
    ensures var o := Cancel(b, id);
            && o.trades == [] && o.book.clock == b.clock
            && (o.ok <==> (exists i :: 0 <= i < |b.bids| && b.bids[i].id == id)
                          || (exists i :: 0 <= i < |b.asks| && b.asks[i].id == id))
            && (!o.ok ==> o.book == b)
            && (o.ok ==> && k < |b.On(side)| && b.On(side)[k].id == id
                         && o.book.On(side) == b.On(side)[..k] + b.On(side)[k + 1..]
                         && o.book.On(Opposite(side)) == b.On(Opposite(side)))
  {
    side, k := if HasId(b.bids, id) then Buy else Sell, 0;
    if HasId(b.On(side), id) {
      k := CancelTakesOneOut(b.On(side), id);
      NotOnBothSides(b, side, k);
      NoSuchId(b.On(Opposite(side)), id);
    }
  }

  lemma NotOnBothSides(b: Book, side: Side, k: nat)
    requires Good(b) && k < |b.On(side)|
    ensures !HasId(b.On(Opposite(side)), b.On(side)[k].id)
  {
  }
}
