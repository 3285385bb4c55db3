/** The paper-trading engine of src/trading_engine.cpp, trading through the real order book. */
module Engine {
  import opened Types
  import opened PriceTime
  import opened Risk
  import opened EngineSpec
  import opened OrderBooks
  import opened Chains
  import opened SideBooks
  import opened Priority

  const BID_ID: OrderId := 1
  const ASK_ID: OrderId := 2
  const CAPACITY: nat := 0x10_0000

  /** A side of the engine's book holds its quote, or nothing: live exactly if it rests. */
  ghost predicate SideIs(s: seq<Entry>, live: bool, id: OrderId, px: Price, shown: Quantity) {
    if live then |s| == 1 && s[0].id == id && s[0].price == px && px != 0 && 0 < s[0].qty <= shown
    else s == []
  }

  /** The book holds the live quotes at their cached prices and nothing else. */
  ghost predicate BookIs(b: Book, q: Quotes) {
    && SideIs(b.bids, q.bidLive, BID_ID, q.bid, q.bidQty)
    && SideIs(b.asks, q.askLive, ASK_ID, q.ask, q.askQty)
    && (q.bidLive && q.askLive ==> q.bid < q.ask)
  }

  /** As refresh_quotes leaves things: whole quotes, both or neither. */
  ghost predicate Displayed(b: Book, q: Quotes, s: MarketSnapshot) {
    && q == Refresh(s) && BookIs(b, q)
    && (q.bidLive ==> b.bids[0].qty == q.bidQty) && (q.askLive ==> b.asks[0].qty == q.askQty)
  }

  // ---------------------------------------------------------------- the book's answers

  lemma CancelQuote(b: Book, q: Quotes, side: Side)
    requires BookIs(b, q) && (if side == Buy then q.bidLive else q.askLive)
    ensures var o := Cancel(b, if side == Buy then BID_ID else ASK_ID);
            && o.ok
            && BookIs(o.book, if side == Buy then q.(bidLive := false) else q.(askLive := false))
  {
    var id := if side == Buy then BID_ID else ASK_ID;
    var s, other := b.On(side), b.On(Opposite(side));
    assert s[0].id == id && HasId(s, id);
    assert Without(s, id) == [];
    if other != [] {
      assert Without(other, id) == other by {
        assert other[1..] == [];
      }
    }
  }

  /** Resting a quote that meets nothing. */
  lemma RestQuote(b: Book, q: Quotes, side: Side)
    requires BookIs(b, q)
    requires side == Buy ==> !q.bidLive && q.bid != 0 && q.bidQty > 0 && (q.askLive ==> q.bid < q.ask)
    requires side == Sell ==> !q.askLive && q.ask != 0 && q.askQty > 0 && (q.bidLive ==> q.bid < q.ask)
    ensures var r := QuoteRequest(q, side);
            var o := Submit(b, r, CAPACITY);
            && Legal(b, SubmitOp(r))
            && o.ok && o.trades == []
            && BookIs(o.book, if side == Buy then q.(bidLive := true) else q.(askLive := true))
            && o.book.On(side) == [Entry(r.id, r.price, r.qty, Stamp(b, r))]
            && o.book.On(Opposite(side)) == b.On(Opposite(side))
  {
  }

  function QuoteRequest(q: Quotes, side: Side): Request {
    if side == Buy then Request(BID_ID, Buy, Limit, q.bid, q.bidQty, 0)
    else Request(ASK_ID, Sell, Limit, q.ask, q.askQty, 0)
  }

  /** A marketable IOC order against the one quote of the other side: exactly one trade. */
  lemma TakeQuote(b: Book, q: Quotes, side: Side, id: OrderId, qty: Quantity)
    requires BookIs(b, q) && qty > 0
    requires if side == Buy then q.askLive && b.asks[0].qty == q.askQty else q.bidLive && b.bids[0].qty == q.bidQty
    ensures var (px, shown) := Touch(q, side);
            var r := Request(id, side, IOC, px, qty, 0);
            var o := Submit(b, r, CAPACITY);
            && o.ok
            && o.trades == [Trade(if side == Buy then ASK_ID else BID_ID, id, px, Min(qty, shown), Stamp(b, r))]
            && BookIs(o.book, QuotesAfter(q, side, Min(qty, shown)))
  {
    var (px, shown) := Touch(q, side);
    var r := Request(id, side, IOC, px, qty, 0);
    var r1 := r.(ts := Stamp(b, r));
    var opp := b.On(Opposite(side));
    MatchStep(r1, opp, qty);
    assert AfterFill(opp, Min(qty, shown)) == if qty < shown then [opp[0].(qty := shown - qty)] else [];
    assert Match(r1, opp, qty).trades == [TradeWith(r1, opp[0], Min(qty, shown))];
  }

  lemma NothingRests(b: Book, q: Quotes)
    ensures !q.bidLive && !q.askLive ==> (BookIs(b, q) <==> b.bids == [] && b.asks == [])
  {
  }

  lemma IsDisplayed(b: Book, q: Quotes, s: MarketSnapshot)
    requires BookIs(b, q) && q == Refresh(s)
    requires q.bidLive ==> |b.bids| == 1 && b.bids[0].qty == q.bidQty
    requires q.askLive ==> |b.asks| == 1 && b.asks[0].qty == q.askQty
    ensures Displayed(b, q, s)
  {
  }

  lemma IocIsLegal(b: Book, r: Request)
    requires r.kind == IOC
    ensures Legal(b, SubmitOp(r))
  {
  }

  lemma LiveShown(b: Book, q: Quotes, side: Side)
    requires BookIs(b, q) && |b.On(Opposite(side))| == 1
    ensures if side == Buy then q.askLive else q.bidLive
    ensures b.On(Opposite(side))[0].qty == (if side == Buy then b.asks[0].qty else b.bids[0].qty) > 0
  {
  }

  /** A quote that is not resting although it could be was deferred on a locked market, where
      nothing rests. */
  lemma DisplayedDeferred(b: Book, q: Quotes, s: MarketSnapshot)
    requires Displayed(b, q, s)
    ensures q.ask != 0 && q.askQty > 0 && !q.askLive ==> !q.bidLive
    ensures q.bid != 0 && q.bidQty > 0 && !q.bidLive ==> !q.askLive
    ensures q.askLive ==> q.ask != 0 && q.askQty != 0 && |b.asks| == 1 && b.asks[0].qty == q.askQty
    ensures q.bidLive ==> q.bid != 0 && q.bidQty != 0 && |b.bids| == 1 && b.bids[0].qty == q.bidQty
  {
  }

  /** An empty side shows as price 0, and no quote does. */
  lemma QuoteGone(b: Book, q: Quotes)
    requires BookIs(b, q)
    ensures q.bidLive <==> b.bids != [] && b.bids[0].price != 0
    ensures q.askLive <==> b.asks != [] && b.asks[0].price != 0
    ensures !q.bidLive <==> b.bids == []
    ensures !q.askLive <==> b.asks == []
  {
  }

  lemma OnlyQuotes(b: Book, q: Quotes, id: OrderId)
    requires BookIs(b, q)
    ensures HasId(b.bids, id) <==> id == BID_ID && q.bidLive
    ensures HasId(b.asks, id) <==> id == ASK_ID && q.askLive
  {
    assert q.bidLive ==> HasId(b.bids, b.bids[0].id);
    assert q.askLive ==> HasId(b.asks, b.asks[0].id);
  }

  function CashFlow(side: Side, trades: seq<Trade>): int {
    if trades == [] then 0
    else
      var notional := TruncDiv(trades[0].qty * trades[0].price, SCALE);
      (if side == Buy then -notional else notional) + CashFlow(side, trades[1..])
  }

  lemma OneTrade(side: Side, trades: seq<Trade>)
    requires |trades| == 1
    ensures Traded(trades) == trades[0].qty
    ensures CashFlow(side, trades) ==
            var notional := TruncDiv(trades[0].qty * trades[0].price, SCALE);
            if side == Buy then -notional else notional
  {
  }

  class TradingEngine {
    const book: OrderBook
    const risk: RiskManager?
    var pos: Position
    var nextId: OrderId
    var lastMid: Price
    var bidQuoteLive: bool
    var askQuoteLive: bool
    var curBid: Price
    var curAsk: Price
    var curBidQty: Quantity
    var curAskQty: Quantity

    ghost function QuotesNow(): Quotes
      reads this
    {
      Quotes(curBid, curAsk, curBidQty, curAskQty, bidQuoteLive, askQuoteLive)
    }

    ghost function AsState(): State
      reads this, risk
    {
      State(pos, QuotesNow(),
            if risk == null then None else Some(RiskState(risk.cfg, risk.peakEquity, risk.halted)), nextId)
    }

    ghost predicate Valid()
      reads this, risk, book, book.pool, book.pool.storage, book.bids, book.asks
    {
      && book.Valid() && book.pool.Capacity() == CAPACITY
      && (risk != null ==> risk.Valid())
      && BookIs(book.Abs(), QuotesNow())
    }

    constructor (cfg: Option<RiskConfig>)
      ensures Valid() && AsState() == Initial(cfg)
      ensures fresh(book) && fresh(book.pool) && fresh(book.pool.storage) && fresh(book.bids) && fresh(book.asks)
      ensures risk != null ==> fresh(risk)
    {
      book := new OrderBook(CAPACITY);
      if cfg.Some? {
        risk := new RiskManager(cfg.value);
      } else {
        risk := null;
      }
      pos := FLAT;
      nextId := 3;
      lastMid := 0;
      bidQuoteLive, askQuoteLive := false, false;
      curBid, curAsk, curBidQty, curAskQty := 0, 0, 0, 0;
    }

    /** Each live flag tells whether its quote's id rests, and nothing else rests. */
    lemma LiveFlagsAgree()
      requires Valid()
      ensures BID_ID in book.idIndex <==> bidQuoteLive
      ensures ASK_ID in book.idIndex <==> askQuoteLive
      ensures forall id :: id in book.idIndex ==> id == BID_ID || id == ASK_ID
    {
      forall id: OrderId
        ensures id in book.idIndex <==> (id == BID_ID && bidQuoteLive) || (id == ASK_ID && askQuoteLive)
      {
        book.IndexKnows(id);
        OnlyQuotes(book.Abs(), QuotesNow(), id);
      }
    }

    /** In every state a fresh engine reaches within 2^64 - 2 fills, the next taker id does not
        rest. */
    lemma TakerIdIsFresh(cfg: Option<RiskConfig>, ticks: seq<Tick>)
      requires Valid() && AsState() == EngineSpec.Run(Initial(cfg), ticks).0
      requires |EngineSpec.Run(Initial(cfg), ticks).1| < TWO64 - 2
      ensures nextId !in book.idIndex
    {
      hide OrderBook.Valid, OrderBook.Abs, BookIs, EngineSpec.Run;
      LiveFlagsAgree();
      TakerIdIsQuoteIdIff(cfg, ticks);
    }

    function EquityAt(mid: Price): int
      reads this
    {
      pos.cash + TruncDiv(pos.btc * mid, SCALE)
    }

    /** Cancel a quote that rests. */
    method DropQuote(side: Side)
      requires Valid()
      modifies this`bidQuoteLive, this`askQuoteLive, book, book.pool, book.pool.storage, book.bids, book.asks
      ensures Valid()
      ensures QuotesNow() == if side == Buy then old(QuotesNow()).(bidLive := false)
                             else old(QuotesNow()).(askLive := false)
    {
      hide OrderBook.Valid, OrderBook.Abs, PriceTime.Cancel, BookIs, SamePayload;
      if side == Buy {
        if bidQuoteLive {
          CancelQuote(book.Abs(), QuotesNow(), Buy);
          var done := book.Cancel(BID_ID);
          bidQuoteLive := false;
        }
      } else {
        if askQuoteLive {
          CancelQuote(book.Abs(), QuotesNow(), Sell);
          var done := book.Cancel(ASK_ID);
          askQuoteLive := false;
        }
      }
    }

    /** Submit the cached quote of this side as a resting limit order. */
    method PlaceQuote(side: Side)
      requires Valid()
      requires side == Buy ==> !bidQuoteLive && curBid != 0 && curBidQty > 0 && (askQuoteLive ==> curBid < curAsk)
      requires side == Sell ==> !askQuoteLive && curAsk != 0 && curAskQty > 0 && (bidQuoteLive ==> curBid < curAsk)
      modifies this`bidQuoteLive, this`askQuoteLive, book, book.pool, book.pool.storage, book.bids, book.asks
      ensures Valid()
      ensures QuotesNow() == if side == Buy then old(QuotesNow()).(bidLive := true)
                             else old(QuotesNow()).(askLive := true)
      ensures |book.Abs().On(side)| == 1 && book.Abs().On(side)[0].qty == if side == Buy then curBidQty else curAskQty
      ensures book.Abs().On(Opposite(side)) == old(book.Abs()).On(Opposite(side))
    {
      hide OrderBook.Valid, OrderBook.Abs, PriceTime.Submit, Passes, BookIs, SamePayload, PutChain, Legal;
      RestQuote(book.Abs(), QuotesNow(), side);
      var quotes := Quotes(curBid, curAsk, curBidQty, curAskQty, bidQuoteLive, askQuoteLive);
      var ok, trades := book.Submit(QuoteRequest(quotes, side));
      if ok {
        if side == Buy {
          bidQuoteLive := true;
        } else {
          askQuoteLive := true;
        }
      }
    }

    /** Cancel what rests, cache the new top of book, and rest it if the market has two sides. */
    method RefreshQuotes(s: MarketSnapshot)
      requires Valid()
      modifies this`bidQuoteLive, this`askQuoteLive, this`curBid, this`curAsk, this`curBidQty, this`curAskQty
      modifies book, book.pool, book.pool.storage, book.bids, book.asks
      ensures Valid() && Displayed(book.Abs(), QuotesNow(), s)
    {
      hide OrderBook.Valid, OrderBook.Abs, BookIs, Displayed;
      DropQuote(Buy);
      DropQuote(Sell);
      NothingRests(book.Abs(), QuotesNow());
      if s.bestBid == 0 || s.bestAsk == 0 || s.bestBid > s.bestAsk {
        curBid, curAsk := 0, 0;
        curBidQty, curAskQty := 0, 0;
        NothingRests(book.Abs(), QuotesNow());
        IsDisplayed(book.Abs(), QuotesNow(), s);
        return;
      }
      curBid := s.bestBid;
      curAsk := s.bestAsk;
      curBidQty := s.bidQty;
      curAskQty := s.askQty;
      NothingRests(book.Abs(), QuotesNow());
      if s.bestBid < s.bestAsk {
        if curBidQty > 0 {
          PlaceQuote(Buy);
        }
        if curAskQty > 0 {
          PlaceQuote(Sell);
        }
      }
      IsDisplayed(book.Abs(), QuotesNow(), s);
    }

    /** Aggregate the reports of one taker order, as the collect callback does. */
    static method Collect(side: Side, trades: seq<Trade>) returns (filled: nat, cashDelta: int, lastPx: Price)
      ensures filled == Traded(trades) && cashDelta == CashFlow(side, trades)
      ensures trades != [] ==> lastPx == trades[|trades| - 1].price
    {
      filled, cashDelta, lastPx := 0, 0, 0;
      var i := 0;
      assert trades[0..] == trades;
      while i < |trades|
        invariant 0 <= i <= |trades|
        invariant filled + Traded(trades[i..]) == Traded(trades)
        invariant cashDelta + CashFlow(side, trades[i..]) == CashFlow(side, trades)
        invariant i > 0 ==> lastPx == trades[i - 1].price
      {
        assert trades[i..][1..] == trades[i + 1..];
        var t := trades[i];
        filled := filled + t.qty;
        lastPx := t.price;
        var notional := TruncDiv(t.qty * t.price, SCALE);
        cashDelta := cashDelta + if side == Buy then -notional else notional;
        i := i + 1;
      }
    }

    /** Make sure the quote this side crosses is resting; on a locked market it was deferred. */
    method EnsureQuote(takerSide: Side, ghost s: MarketSnapshot) returns (resting: bool)
      requires Valid() && Displayed(book.Abs(), QuotesNow(), s)
      modifies this`bidQuoteLive, this`askQuoteLive, book, book.pool, book.pool.storage, book.bids, book.asks
      ensures Valid()
      ensures var (px, shown) := Touch(old(QuotesNow()), takerSide);
              resting == (px != 0 && shown != 0)
      ensures !resting ==> QuotesNow() == old(QuotesNow())
      ensures resting ==> QuotesNow() == (if takerSide == Buy then old(QuotesNow()).(askLive := true)
                                          else old(QuotesNow()).(bidLive := true))
                          && |book.Abs().On(Opposite(takerSide))| == 1
                          && book.Abs().On(Opposite(takerSide))[0].qty == Touch(QuotesNow(), takerSide).1
    {
      hide OrderBook.Valid, OrderBook.Abs, BookIs, Displayed;
      DisplayedDeferred(book.Abs(), QuotesNow(), s);
      if takerSide == Buy {
        if curAsk == 0 || curAskQty == 0 {
          return false;
        }
        if !askQuoteLive {
          PlaceQuote(Sell);
        }
        return askQuoteLive;
      } else {
        if curBid == 0 || curBidQty == 0 {
          return false;
        }
        if !bidQuoteLive {
          PlaceQuote(Buy);
        }
        return bidQuoteLive;
      }
    }

    /** Submit the taker order and aggregate what it traded: one trade, at the crossed quote. */
    method CrossQuote(side: Side, qty: Quantity) returns (filled: nat, cashDelta: int, lastPx: Price)
      requires Valid() && qty > 0
      requires |book.Abs().On(Opposite(side))| == 1
      requires book.Abs().On(Opposite(side))[0].qty == Touch(QuotesNow(), side).1
      requires if side == Buy then askQuoteLive else bidQuoteLive
      modifies this`bidQuoteLive, this`askQuoteLive, this`nextId
      modifies book, book.pool, book.pool.storage, book.bids, book.asks
      ensures Valid() && nextId == (old(nextId) + 1) % TWO64
      ensures var (px, shown) := Touch(old(QuotesNow()), side);
              && filled == Min(qty, shown) > 0 && lastPx == px
              && cashDelta == (if side == Buy then -TruncDiv(filled * px, SCALE) else TruncDiv(filled * px, SCALE))
              && QuotesNow() == QuotesAfter(old(QuotesNow()), side, filled)
    {
      hide OrderBook.Valid, OrderBook.Abs, PriceTime.Submit, Passes, BookIs, SamePayload, PutChain, Legal;
      var takerId := nextId;
      nextId := (nextId + 1) % TWO64;
      var limitPx := if side == Buy then curAsk else curBid;
      ghost var q1 := QuotesNow();
      LiveShown(book.Abs(), q1, side);
      TakeQuote(book.Abs(), q1, side, takerId, qty);
      IocIsLegal(book.Abs(), Request(takerId, side, IOC, limitPx, qty, 0));
      var ok, trades := book.Submit(Request(takerId, side, IOC, limitPx, qty, 0));
      filled, cashDelta, lastPx := Collect(side, trades);
      OneTrade(side, trades);
      book.Accessors();
      QuoteGone(book.Abs(), QuotesAfter(q1, side, filled));
      if side == Buy {
        if book.BestAsk() == 0 {
          askQuoteLive := false;
        }
      } else {
        if book.BestBid() == 0 {
          bidQuoteLive := false;
        }
      }
    }

    /** The risk gate, if there is one, at the price of the quote the action would cross. */
    method GateAction(proposed: StrategyAction) returns (a: Option<StrategyAction>)
      ensures a == GatedAction(AsState(), proposed)
      ensures a.Some? ==> a.value.qty > 0 && a.value.side == proposed.side
    {
      hide Gate;
      if proposed.qty == 0 {
        return None;
      }
      if risk == null {
        return Some(proposed);
      }
      var gatePx := if proposed.side == Buy then curAsk else curBid;
      GateShrinks(risk.cfg, risk.halted, proposed, pos.btc, gatePx);
      a := Gate(risk.cfg, risk.halted, proposed, pos.btc, gatePx);
    }

    /** Gate the action, make sure the opposite quote rests, cross it, and book what was
        filled. */
    method ApplyAction(proposed: StrategyAction, s: MarketSnapshot) returns (fill: Option<Fill>)
      requires Valid() && Displayed(book.Abs(), QuotesNow(), s)
      modifies this`bidQuoteLive, this`askQuoteLive, this`nextId, this`pos
      modifies book, book.pool, book.pool.storage, book.bids, book.asks
      ensures Valid()
      ensures (AsState(), fill) == Act(old(AsState()), proposed, s)
    {
      hide OrderBook.Valid, OrderBook.Abs, RiskManager.Valid, BookIs, Displayed, GatedAction;
      var safe := GateAction(proposed);
      if safe.None? {
        return None;
      }
      var a := safe.value;
      if a.qty == 0 {
        return None;
      }
      var resting := EnsureQuote(a.side, s);
      if !resting {
        return None;
      }
      var filled, cashDelta, lastPx := CrossQuote(a.side, a.qty);
      if filled == 0 {
        return None;
      }
      pos := Position(Post(a.side, pos.btc, filled), pos.cash + cashDelta, pos.grossVolume + filled, pos.fills + 1);
      fill := Some(Fill(a.side, lastPx, filled, s.eventTs));
    }

    /** One popped event, with the strategy's answer to it. */
    method OnEvent(t: Tick) returns (fill: Option<Fill>)
      requires Valid()
      modifies this, risk, book, book.pool, book.pool.storage, book.bids, book.asks
      ensures Valid()
      ensures (AsState(), fill) == Step(old(AsState()), t)
      ensures lastMid == if t.ev.BookTicker? then Mid(t.ev.snap) else old(lastMid)
    {
      hide OrderBook.Valid, OrderBook.Abs, BookIs, Act;
      if t.ev.FeedError? {
        return None;
      }
      var snap := t.ev.snap;
      lastMid := Mid(snap);
      if risk != null {
        risk.ObserveEquity(EquityAt(Mid(snap)));
      }
      RefreshQuotes(snap);
      fill := None;
      if t.decision.Some? {
        fill := ApplyAction(t.decision.value, snap);
      }
    }

    /** The event loop, over the events popped from the queue in turn. */
    method RunLoop(ticks: seq<Tick>) returns (fills: seq<Fill>)
      requires Valid()
      modifies this, risk, book, book.pool, book.pool.storage, book.bids, book.asks
      ensures Valid()
      ensures (AsState(), fills) == EngineSpec.Run(old(AsState()), ticks)
    {
      hide OrderBook.Valid, OrderBook.Abs, BookIs, Step;
      fills := [];
      ghost var total := EngineSpec.Run(AsState(), ticks);
      var i := 0;
      assert ticks[0..] == ticks && [] + total.1 == total.1;
      while i < |ticks|
        invariant 0 <= i <= |ticks| && Valid()
        invariant EngineSpec.Run(AsState(), ticks[i..]).0 == total.0
        invariant total.1 == fills + EngineSpec.Run(AsState(), ticks[i..]).1
      {
        assert ticks[i..][0] == ticks[i] && ticks[i..][1..] == ticks[i + 1..];
        ghost var done, later := fills, EngineSpec.Run(AsState(), ticks[i..]).1;
        var fill := OnEvent(ticks[i]);
        if fill.Some? {
          fills := fills + [fill.value];
        }
        assert done + later == fills + EngineSpec.Run(AsState(), ticks[i + 1..]).1;
        i := i + 1;
      }
      assert ticks[i..] == [] && fills + [] == fills;
    }
  }
}
