/** The paper-trading engine of src/trading_engine.cpp as it looks from outside: a ledger, the
    displayed quotes and the risk state, with no order book. A fill takes the smaller of the
    gated and the displayed quantity at the displayed price. Engine.dfy proves that the engine,
    which trades through the real order book, computes exactly this. */
module EngineSpec {
  import opened Types
  import opened Risk

  datatype Position = Position(btc: int, cash: int, grossVolume: nat, fills: nat)

  const FLAT := Position(0, 0, 0, 0)

  datatype MarketSnapshot = MarketSnapshot(
    bestBid: Price, bestAsk: Price, bidQty: Quantity, askQty: Quantity, eventTs: Timestamp)

  datatype MarketEvent = BookTicker(snap: MarketSnapshot) | FeedError

  datatype Fill = Fill(side: Side, price: Price, qty: Quantity, eventTs: Timestamp)

  /** The displayed quotes of the last tick and which of them rest in the book. */
  datatype Quotes = Quotes(bid: Price, ask: Price, bidQty: Quantity, askQty: Quantity, bidLive: bool, askLive: bool)

  const NO_QUOTES := Quotes(0, 0, 0, 0, false, false)

  datatype RiskState = RiskState(cfg: RiskConfig, peak: int, halted: bool)

  datatype State = State(pos: Position, quotes: Quotes, risk: Option<RiskState>, nextId: OrderId)

  /** Division as C++ does it on signed words: toward zero. */
  function TruncDiv(a: int, d: int): int
    requires d > 0
  {
    if a >= 0 then a / d else -(-a / d)
  }

  function Mid(s: MarketSnapshot): Price {
    TruncDiv(s.bestBid + s.bestAsk, 2)
  }

  function EquityAt(p: Position, mid: Price): int {
    p.cash + TruncDiv(p.btc * mid, SCALE)
  }

  function Observe(r: RiskState, equity: int): RiskState {
    var peak := Max(r.peak, equity);
    r.(peak := peak, halted := r.halted || (r.cfg.maxDrawdown > 0 && peak - equity > r.cfg.maxDrawdown))
  }

  predicate Unusable(s: MarketSnapshot) {
    s.bestBid == 0 || s.bestAsk == 0 || s.bestBid > s.bestAsk
  }

  /** Both quotes rest on a two-sided market; on a locked one neither does yet. */
  function Refresh(s: MarketSnapshot): Quotes {
    if Unusable(s) then NO_QUOTES
    else Quotes(s.bestBid, s.bestAsk, s.bidQty, s.askQty,
                s.bestBid < s.bestAsk && s.bidQty > 0, s.bestBid < s.bestAsk && s.askQty > 0)
  }

  /** The quote a taker of this side crosses. */
  function Touch(q: Quotes, side: Side): (Price, Quantity) {
    if side == Buy then (q.ask, q.askQty) else (q.bid, q.bidQty)
  }

  function GatedAction(st: State, a: StrategyAction): Option<StrategyAction> {
    if a.qty == 0 then None
    else match st.risk
      case None => Some(a)
      case Some(r) => Gate(r.cfg, r.halted, a, st.pos.btc, Touch(st.quotes, a.side).0)
  }

  function Booked(p: Position, f: Fill): Position {
    var notional := TruncDiv(f.qty * f.price, SCALE);
    Position(Post(f.side, p.btc, f.qty),
             if f.side == Buy then p.cash - notional else p.cash + notional,
             p.grossVolume + f.qty, p.fills + 1)
  }

  /** The crossed quote rests afterwards exactly if the taker left some of it. */
  function QuotesAfter(q: Quotes, side: Side, taken: Quantity): Quotes {
    if side == Buy then q.(askLive := taken < q.askQty) else q.(bidLive := taken < q.bidQty)
  }

  /** One strategy action right after the quotes were refreshed. */
  function Act(st: State, a: StrategyAction, s: MarketSnapshot): (State, Option<Fill>) {
    match GatedAction(st, a)
    case None => (st, None)
    case Some(g) =>
      var (px, shown) := Touch(st.quotes, g.side);
      if px == 0 || shown == 0 then (st, None)
      else
        var f := Fill(g.side, px, Min(g.qty, shown), s.eventTs);
        (State(Booked(st.pos, f), QuotesAfter(st.quotes, g.side, f.qty), st.risk, (st.nextId + 1) % TWO64), Some(f))
  }

  /** One popped event and what the strategy answers to it. */
  datatype Tick = Tick(ev: MarketEvent, decision: Option<StrategyAction>)

  function Prepare(st: State, s: MarketSnapshot): State {
    st.(risk := if st.risk.Some? then Some(Observe(st.risk.value, EquityAt(st.pos, Mid(s)))) else None,
        quotes := Refresh(s))
  }

  function Step(st: State, t: Tick): (State, Option<Fill>) {
    if t.ev.FeedError? then (st, None)
    else
      var st1 := Prepare(st, t.ev.snap);
      if t.decision.None? then (st1, None) else Act(st1, t.decision.value, t.ev.snap)
  }

  function Run(st: State, ticks: seq<Tick>): (State, seq<Fill>)
    decreases |ticks|
  {
    if ticks == [] then (st, [])
    else
      var (st1, f) := Step(st, ticks[0]);
      var (st2, fs) := Run(st1, ticks[1..]);
      (st2, (if f.Some? then [f.value] else []) + fs)
  }

  function Initial(cfg: Option<RiskConfig>): State {
    State(FLAT, NO_QUOTES, if cfg.Some? then Some(RiskState(cfg.value, 0, false)) else None, 3)
  }

  // ---------------------------------------------------------------- the position limit

  ghost predicate WithinLimit(st: State) {
    st.risk.Some? && st.risk.value.cfg.maxPosition > 0 ==> Abs(st.pos.btc) <= st.risk.value.cfg.maxPosition
  }

  lemma StepKeepsLimit(st: State, t: Tick)
    requires WithinLimit(st)
    ensures WithinLimit(Step(st, t).0)
  {
  }

  /** Starting within it, the position never leaves the limit, whatever the market does and
      however fills are cut short. */
  lemma {:induction false} PositionNeverExceedsLimit(st: State, ticks: seq<Tick>)
    requires WithinLimit(st)
    ensures WithinLimit(Run(st, ticks).0)
    decreases |ticks|
  {
    if ticks != [] {
      StepKeepsLimit(st, ticks[0]);
      PositionNeverExceedsLimit(Step(st, ticks[0]).0, ticks[1..]);
    }
  }

  // ---------------------------------------------------------------- the drawdown halt

  function Equities(st: State, ticks: seq<Tick>): seq<int>
    decreases |ticks|
  {
    if ticks == [] then []
    else (if ticks[0].ev.BookTicker? then [EquityAt(st.pos, Mid(ticks[0].ev.snap))] else [])
         + Equities(Step(st, ticks[0]).0, ticks[1..])
  }

  /** A tick touches the risk state only by observing equity, an ignored event not at all. */
  lemma StepObserves(st: State, t: Tick)
    ensures Step(st, t).0.risk ==
            if t.ev.FeedError? || st.risk.None? then st.risk
            else Some(Observe(st.risk.value, EquityAt(st.pos, Mid(t.ev.snap))))
  {
  }

  /** The engine is halted exactly when its risk manager has seen a breach. */
  lemma {:induction false} HaltedExactlyOnBreach(st: State, h: seq<int>, ticks: seq<Tick>)
    requires st.risk.Some? && st.risk.value.peak == Peak(h)
    requires st.risk.value.halted <==> Breached(st.risk.value.cfg, h)
    ensures var st' := Run(st, ticks).0;
            && st'.risk.Some? && st'.risk.value.cfg == st.risk.value.cfg
            && (st'.risk.value.halted <==> Breached(st.risk.value.cfg, h + Equities(st, ticks)))
    decreases |ticks|
  {
    if ticks == [] {
      assert h + Equities(st, ticks) == h;
    } else {
      hide Step, EquityAt, Mid;
      var st1, rest := Step(st, ticks[0]).0, ticks[1..];
      StepObserves(st, ticks[0]);
      if ticks[0].ev.BookTicker? {
        var e := EquityAt(st.pos, Mid(ticks[0].ev.snap));
        BreachedByOneMore(st.risk.value.cfg, h, e);
        HaltedExactlyOnBreach(st1, h + [e], rest);
        assert h + Equities(st, ticks) == (h + [e]) + Equities(st1, rest);
      } else {
        HaltedExactlyOnBreach(st1, h, rest);
        assert h + Equities(st, ticks) == h + Equities(st1, rest);
      }
    }
  }

  lemma HaltedStep(st: State, t: Tick)
    requires st.risk.Some?
    requires st.risk.value.halted || (t.ev.BookTicker?
               && Observe(st.risk.value, EquityAt(st.pos, Mid(t.ev.snap))).halted)
    ensures var (st', f) := Step(st, t); f == None && st'.pos == st.pos && st'.risk.Some? && st'.risk.value.halted
  {
  }

  /** From the tick that halts the engine on, that tick included, nothing trades: the ledger
      never changes again. */
  lemma {:induction false} HaltedMeansFrozen(st: State, ticks: seq<Tick>)
    requires st.risk.Some? && ticks != []
    requires st.risk.value.halted || (ticks[0].ev.BookTicker?
               && Observe(st.risk.value, EquityAt(st.pos, Mid(ticks[0].ev.snap))).halted)
    ensures Run(st, ticks).0.pos == st.pos && Run(st, ticks).1 == []
    decreases |ticks|
  {
    HaltedStep(st, ticks[0]);
    if |ticks| > 1 {
      HaltedMeansFrozen(Step(st, ticks[0]).0, ticks[1..]);
    }
  }

  // ---------------------------------------------------------------- accounting

  function SignedSum(fs: seq<Fill>): int {
    if fs == [] then 0 else Along(fs[0].side, fs[0].qty) + SignedSum(fs[1..])
  }

  function Volume(fs: seq<Fill>): nat {
    if fs == [] then 0 else fs[0].qty + Volume(fs[1..])
  }

  /** The exact cash flow of the fills in units of 10^-6 price units. */
  function ExactFlow(fs: seq<Fill>): int {
    if fs == [] then 0 else -Along(fs[0].side, fs[0].qty * fs[0].price) + ExactFlow(fs[1..])
  }

  lemma TruncationError(a: int, d: int)
    requires d > 0
    ensures Abs(d * TruncDiv(a, d) - a) <= d - 1
  {
  }

  /** One booked fill rounds cash by less than one price unit. */
  lemma BookedError(p: Position, f: Fill)
    ensures Abs(SCALE * (Booked(p, f).cash - p.cash) + Along(f.side, f.qty * f.price)) <= SCALE - 1
  {
  }

  lemma BookedExactly(p: Position, f: Fill)
    ensures var p' := Booked(p, f);
            p'.btc == p.btc + Along(f.side, f.qty) && p'.grossVolume == p.grossVolume + f.qty && p'.fills == p.fills + 1
  {
  }

  /** A tick changes the ledger exactly by booking the fill it reports. */
  lemma StepBooks(st: State, t: Tick)
    ensures var (st', f) := Step(st, t); st'.pos == if f.Some? then Booked(st.pos, f.value) else st.pos
  {
  }

  /** Position, volume and count are the exact sums of the reported fills, and cash is off the
      exact cash flow by less than one price unit a fill. */
  lemma {:induction false} LedgerMatchesFills(st: State, ticks: seq<Tick>)
    ensures var (st', fs) := Run(st, ticks);
            && st'.pos.btc == st.pos.btc + SignedSum(fs)
            && st'.pos.grossVolume == st.pos.grossVolume + Volume(fs)
            && st'.pos.fills == st.pos.fills + |fs|
            && Abs(SCALE * (st'.pos.cash - st.pos.cash) - ExactFlow(fs)) <= |fs| * (SCALE - 1)
    decreases |ticks|
  {
    if ticks != [] {
      hide Step, Booked;
      var (st1, f) := Step(st, ticks[0]);
      StepBooks(st, ticks[0]);
      LedgerMatchesFills(st1, ticks[1..]);
      var fs := Run(st1, ticks[1..]).1;
      if f.Some? {
        BookedError(st.pos, f.value);
        BookedExactly(st.pos, f.value);
        assert ([f.value] + fs)[1..] == fs;
      } else {
        assert [] + fs == fs;
      }
    }
  }

  /** Equity is off its exact value by less than one price unit a fill, and one more for the
      position's own notional. */
  lemma EquityRounding(cfg: Option<RiskConfig>, ticks: seq<Tick>, mid: Price)
    ensures var (st, fs) := Run(Initial(cfg), ticks);
            Abs(SCALE * EquityAt(st.pos, mid) - (ExactFlow(fs) + SignedSum(fs) * mid)) <= (|fs| + 1) * (SCALE - 1)
  {
    LedgerMatchesFills(Initial(cfg), ticks);
    var (st, fs) := Run(Initial(cfg), ticks);
    TruncationError(st.pos.btc * mid, SCALE);
  }

  // ---------------------------------------------------------------- what a fill is

  /** Taker ids count the fills, so none meets a quote's id before the counter has wrapped. */
  lemma {:induction false} TakerIdsCountFills(st: State, ticks: seq<Tick>)
    ensures var (st', fs) := Run(st, ticks); st'.nextId == (st.nextId + |fs|) % TWO64
    decreases |ticks|
  {
    if ticks != [] {
      hide Step;
      var (st1, f) := Step(st, ticks[0]);
      StepNumbers(st, ticks[0]);
      TakerIdsCountFills(st1, ticks[1..]);
    }
  }

  /** From a fresh engine the next taker id is a quote's id exactly when the counter has come
      round: after 2^64 - 2 or 2^64 - 1 fills, modulo 2^64. */
  lemma TakerIdIsQuoteIdIff(cfg: Option<RiskConfig>, ticks: seq<Tick>)
    ensures var (st, fs) := Run(Initial(cfg), ticks);
            st.nextId == 1 || st.nextId == 2 <==> |fs| % TWO64 == TWO64 - 2 || |fs| % TWO64 == TWO64 - 1
  {
    TakerIdsCountFills(Initial(cfg), ticks);
  }

  lemma StepNumbers(st: State, t: Tick)
    ensures var (st', f) := Step(st, t); st'.nextId == if f.Some? then (st.nextId + 1) % TWO64 else st.nextId
  {
  }

  /** A fill happens at the price displayed by its own tick, for no more than was displayed or
      asked for, and only on a usable market. */
  lemma FillsAreDisplayed(st: State, t: Tick)
    ensures var f := Step(st, t).1;
            f.Some? ==>
              && t.ev.BookTicker? && t.decision.Some? && !Unusable(t.ev.snap)
              && f.value.side == t.decision.value.side && 0 < f.value.qty <= t.decision.value.qty
              && f.value.price == (if f.value.side == Buy then t.ev.snap.bestAsk else t.ev.snap.bestBid)
              && f.value.qty <= (if f.value.side == Buy then t.ev.snap.askQty else t.ev.snap.bidQty)
  {
  }
}
