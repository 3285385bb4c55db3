/** One tick and whole runs of the trading engine, stated on the market, the order asked for and
    the ledger, without the functions that compute them. */
module EngineRules {
  import opened Types
  import opened Risk
  import opened EngineSpec

  /** `t` is a / d rounded toward zero. */
  ghost predicate TowardZero(a: int, d: int, t: int) {
    d * Abs(t) <= Abs(a) < d * (Abs(t) + 1) && (t > 0 ==> a > 0) && (t < 0 ==> a < 0)
  }

  lemma TruncDivIsTowardZero(a: int, d: int)
    requires d > 0
    ensures TowardZero(a, d, TruncDiv(a, d))
  {
    var t := TruncDiv(a, d);
    var q := Abs(a) / d;
    DivAtMost(Abs(a), q, d);
    DivAtMost(Abs(a), 0, d);
    assert d * q == q * d && d * (q + 1) == (q + 1) * d;
    assert t == if a >= 0 then q else -q;
    hide TruncDiv;
  }

  /** The mid is the mean of the two prices and equity is cash plus the position's notional, both
      rounded toward zero. */
  lemma MidAndEquityRoundTowardZero(s: MarketSnapshot, p: Position, mid: Price)
    ensures TowardZero(s.bestBid + s.bestAsk, 2, Mid(s))
    ensures TowardZero(p.btc * mid, SCALE, EquityAt(p, mid) - p.cash)
  {
    TruncDivIsTowardZero(s.bestBid + s.bestAsk, 2);
    TruncDivIsTowardZero(p.btc * mid, SCALE);
  }

  /** A market the engine quotes: two prices, not crossed; a locked one counts. */
  predicate Quotable(s: MarketSnapshot) {
    s.bestBid != 0 && s.bestAsk != 0 && s.bestBid <= s.bestAsk
  }

  /** What the risk manager, if there is one, lets through of order `a` at price `px`. */
  function Allowed(risk: Option<RiskState>, a: StrategyAction, btc: int, px: Price): nat {
    match risk
    case None => a.qty
    case Some(r) => Granted(r.cfg, r.halted, a, btc, px)
  }

  lemma GatedIsAllowed(st: State, a: StrategyAction)
    ensures var g := GatedAction(st, a);
            var allowed := if a.qty == 0 then 0 else Allowed(st.risk, a, st.pos.btc, Touch(st.quotes, a.side).0);
            && (g.Some? <==> allowed > 0) && (g.Some? ==> g.value == StrategyAction(a.side, allowed))
  {
    if st.risk.Some? {
      GateShrinks(st.risk.value.cfg, st.risk.value.halted, a, st.pos.btc, Touch(st.quotes, a.side).0);
    }
  }

  /** A tick fills exactly if it shows a quotable market, the strategy asks for something, the
      crossed side shows some quantity, and the risk manager, having seen this tick's equity and
      asked at the crossed side's own price, lets some of it through. The fill is then for all
      that is let through and displayed, at that price. */
  lemma FillIff(st: State, t: Tick)
    ensures t.ev.FeedError? || t.decision.None? ==> Step(st, t).1 == None
    ensures t.ev.BookTicker? && t.decision.Some? ==>
              var s, a, f := t.ev.snap, t.decision.value, Step(st, t).1;
              var (px, shown) := if a.side == Buy then (s.bestAsk, s.askQty) else (s.bestBid, s.bidQty);
              var allowed := Allowed(Step(st, t).0.risk, a, st.pos.btc, px);
              && (f.Some? <==> Quotable(s) && a.qty > 0 && shown > 0 && allowed > 0)
              && (f.Some? ==> f.value == Fill(a.side, px, Min(allowed, shown), s.eventTs))
  {
    if t.ev.BookTicker? && t.decision.Some? {
      hide Gate, Granted, GatedAction, Observe;
      GatedIsAllowed(Prepare(st, t.ev.snap), t.decision.value);
    }
  }

  /** A fill moves the position by its quantity, up for a purchase and down for a sale, cash the
      other way by its notional rounded toward zero, and both totals; nothing else moves them. */
  lemma LedgerMovesByFills(st: State, t: Tick)
    ensures var (st', f) := Step(st, t);
            if f.None? then st'.pos == st.pos && st'.nextId == st.nextId
            else
              && st'.pos.btc == (if f.value.side == Buy then st.pos.btc + f.value.qty else st.pos.btc - f.value.qty)
              && TowardZero(f.value.qty * f.value.price, SCALE,
                            if f.value.side == Buy then st.pos.cash - st'.pos.cash else st'.pos.cash - st.pos.cash)
              && st'.pos.grossVolume == st.pos.grossVolume + f.value.qty && st'.pos.fills == st.pos.fills + 1
              && st'.nextId == (st.nextId + 1) % TWO64
  {
    hide GatedAction, Observe, TruncDiv;
    var f := Step(st, t).1;
    if f.Some? {
      TruncDivIsTowardZero(f.value.qty * f.value.price, SCALE);
    }
  }

  /** After a tick the cached quotes are the market's, or none on an unquotable one. A quote rests
      if its side shows a quantity and the market has two sides, and the side a fill took from
      rests exactly if the fill left some of it. */
  lemma QuotesFollowTheMarket(st: State, t: Tick)
    ensures var q, f := Step(st, t).0.quotes, Step(st, t).1;
            if t.ev.FeedError? then q == st.quotes
            else
              var s := t.ev.snap;
              if !Quotable(s) then q == Quotes(0, 0, 0, 0, false, false)
              else
                && q.bid == s.bestBid && q.ask == s.bestAsk && q.bidQty == s.bidQty && q.askQty == s.askQty
                && q.bidLive == (if f.Some? && f.value.side == Sell then f.value.qty < s.bidQty
                                 else s.bestBid < s.bestAsk && s.bidQty > 0)
                && q.askLive == (if f.Some? && f.value.side == Buy then f.value.qty < s.askQty
                                 else s.bestBid < s.bestAsk && s.askQty > 0)
  {
    hide Gate, Observe, TruncDiv;
  }

  // ---------------------------------------------------------------- the drawdown

  /** Observation `i` lies further than the limit below zero or below an earlier one. */
  ghost predicate Fell(d: int, h: seq<int>, i: int)
    requires 0 <= i < |h|
  {
    -h[i] > d || exists j :: 0 <= j < i && h[j] - h[i] > d
  }

  /** The peak is at least zero and every observation, and one of these. */
  lemma {:induction false} PeakIsHighest(h: seq<int>)
    ensures Peak(h) >= 0 && forall i :: 0 <= i < |h| ==> h[i] <= Peak(h)
    ensures Peak(h) == 0 || exists i :: 0 <= i < |h| && h[i] == Peak(h)
  {
    if h != [] {
      var n := |h| - 1;
      PeakIsHighest(h[..n]);
      if Peak(h) != 0 && Peak(h) != h[n] {
        var i :| 0 <= i < n && h[..n][i] == Peak(h[..n]);
        assert h[i] == Peak(h);
      }
    }
  }

  lemma BreachIsAFall(cfg: RiskConfig, h: seq<int>, i: int)
    requires 0 <= i < |h|
    ensures Breach(cfg, h, i) <==> cfg.maxDrawdown > 0 && Fell(cfg.maxDrawdown, h, i)
  {
    var d, p := cfg.maxDrawdown, h[..i + 1];
    PeakIsHighest(p);
    if d > 0 && Peak(p) - h[i] > d && Peak(p) != 0 {
      var j :| 0 <= j < |p| && p[j] == Peak(p);
      assert h[j] - h[i] > d && j < i;
    }
    if d > 0 && Fell(d, h, i) && -h[i] <= d {
      var j :| 0 <= j < i && h[j] - h[i] > d;
      assert p[j] == h[j];
    }
  }

  /** The equities a fresh engine observes: at each ticker event, before it trades, the ledger
      valued at that event's mid. */
  lemma {:induction false} EquitiesAreThose(st: State, ticks: seq<Tick>, i: nat)
    requires i < |ticks| && ticks[i].ev.BookTicker?
    ensures Equities(st, ticks[..i + 1])
            == Equities(st, ticks[..i]) + [EquityAt(Run(st, ticks[..i]).0.pos, Mid(ticks[i].ev.snap))]
    decreases i
  {
    hide Step, EquityAt, Mid;
    if i == 0 {
      assert ticks[..1][1..] == [] && ticks[..0] == [];
    } else {
      var st1, rest := Step(st, ticks[0]).0, ticks[1..];
      EquitiesAreThose(st1, rest, i - 1);
      assert ticks[..i + 1][1..] == rest[..i] && ticks[..i][1..] == rest[..i - 1];
    }
  }

  /** Over every run from the start the engine is halted exactly if there is a drawdown limit and
      some observed equity lies further than it below zero or below an earlier one. */
  lemma HaltedIff(cfg: RiskConfig, ticks: seq<Tick>)
    ensures var st, h := Run(Initial(Some(cfg)), ticks).0, Equities(Initial(Some(cfg)), ticks);
            && st.risk.Some?
            && (st.risk.value.halted <==>
                cfg.maxDrawdown > 0 && exists i :: 0 <= i < |h| && Fell(cfg.maxDrawdown, h, i))
  {
    hide Run, Equities, Fell, Breach;
    var st0 := Initial(Some(cfg));
    var h := Equities(st0, ticks);
    assert !Breached(cfg, []);
    HaltedExactlyOnBreach(st0, [], ticks);
    assert [] + h == h;
    forall i | 0 <= i < |h|
      ensures Breach(cfg, h, i) <==> cfg.maxDrawdown > 0 && Fell(cfg.maxDrawdown, h, i)
    {
      BreachIsAFall(cfg, h, i);
    }
  }
}
