/** The mean-reversion strategy of src/trading_engine.cpp. What it does at a tick is stated from
    the whole history of non-zero mids; the class keeps a deque, a rolling sum and a counter.
    Means and deviations are exact reals. */
module MeanReversion {
  import opened Types
  import opened Risk
  import opened EngineSpec

  datatype Config = Config(window: nat, entryBps: real, tradeQty: Quantity, coolDown: nat)

  function Sum(s: seq<Price>): int {
    if s == [] then 0 else Sum(s[..|s| - 1]) + s[|s| - 1]
  }

  /** Which side the latest mid calls for, against the mean of `n` mids with this sum. A zero
      mean makes the deviation infinite, with the sign of the mid. */
  function Signal(cfg: Config, mid: Price, sum: int, n: nat): Option<Side>
    requires n > 0
  {
    if sum == 0 then Some(if mid < 0 then Buy else Sell)
    else
      var mean := sum as real / n as real;
      var deviation := (mid as real - mean) * 10000.0 / mean;
      if deviation <= -cfg.entryBps then Some(Buy)
      else if deviation >= cfg.entryBps then Some(Sell)
      else None
  }

  // ---------------------------------------------------------------- decisions from history

  /** The earliest accepted tick at which an action is possible, given the position of the last
      one (0 for none). */
  function Ready(cfg: Config, last: nat): nat {
    if last == 0 then cfg.window + cfg.coolDown else last + cfg.coolDown + 1
  }

  /** The decision at the last of the accepted mids `h`. */
  function Decision(cfg: Config, h: seq<Price>, last: nat): Option<StrategyAction>
    requires cfg.window >= 1
  {
    if h == [] || |h| < cfg.window || |h| < Ready(cfg, last) then None
    else
      match Signal(cfg, h[|h| - 1], Sum(h[|h| - cfg.window..]), cfg.window)
      case None => None
      case Some(side) => Some(StrategyAction(side, cfg.tradeQty))
  }

  function LastOf(p: seq<nat>): nat {
    if p == [] then 0 else p[|p| - 1]
  }

  /** At which accepted ticks, counted from 1, the strategy has acted. */
  function Actions(cfg: Config, h: seq<Price>): seq<nat>
    requires cfg.window >= 1
  {
    if h == [] then []
    else
      var p := Actions(cfg, h[..|h| - 1]);
      if Decision(cfg, h, LastOf(p)).Some? then p + [|h|] else p
  }

  /** No action before the window and the cool-down have passed, at least a cool-down of other
      ticks between two actions, none after tick `n`. */
  ghost predicate Spaced(cfg: Config, p: seq<nat>, n: nat) {
    && (forall i :: 0 <= i < |p| ==> cfg.window + cfg.coolDown <= p[i] <= n)
    && (forall i, j :: 0 <= i < j < |p| ==> p[i] + cfg.coolDown + 1 <= p[j])
  }

  lemma SpacedAppend(cfg: Config, p: seq<nat>, n: nat)
    requires cfg.window >= 1 && n >= 1 && Spaced(cfg, p, n - 1) && n >= cfg.window && n >= Ready(cfg, LastOf(p))
    ensures Spaced(cfg, p + [n], n)
  {
  }

  lemma {:induction false} ActionsAreSpaced(cfg: Config, h: seq<Price>)
    requires cfg.window >= 1
    ensures Spaced(cfg, Actions(cfg, h), |h|)
  {
    if h != [] {
      var q := Actions(cfg, h[..|h| - 1]);
      ActionsAreSpaced(cfg, h[..|h| - 1]);
      if Decision(cfg, h, LastOf(q)).Some? {
        SpacedAppend(cfg, q, |h|);
      }
    }
  }

  // ---------------------------------------------------------------- the rule, stated outright

  /** The mean of the last `n` mids. */
  function Mean(h: seq<Price>, n: nat): real
    requires 0 < n <= |h|
  {
    Sum(h[|h| - n..]) as real / n as real
  }

  /** The latest mid is at least `bps` basis points of the mean's size below the mean. Without a
      mean to measure against, any mid below zero is infinitely far below. */
  predicate FarBelow(mid: Price, mean: real, bps: real) {
    if mean > 0.0 then (mid as real - mean) * 10000.0 <= -bps * mean
    else if mean < 0.0 then (mid as real - mean) * 10000.0 >= -bps * mean
    else mid < 0
  }

  predicate FarAbove(mid: Price, mean: real, bps: real) {
    if mean > 0.0 then (mid as real - mean) * 10000.0 >= bps * mean
    else if mean < 0.0 then (mid as real - mean) * 10000.0 <= bps * mean
    else mid > 0
  }

  /** Dividing by the mean turns an inequality exactly if the mean is negative. */
  lemma Quotients(x: real, y: real, m: real)
    requires m != 0.0
    ensures m > 0.0 ==> (x / m <= y <==> x <= y * m)
    ensures m > 0.0 ==> (x / m >= y <==> x >= y * m)
    ensures m < 0.0 ==> (x / m <= y <==> x >= y * m)
    ensures m < 0.0 ==> (x / m >= y <==> x <= y * m)
  {
    var q := x / m;
    assert q * m == x;
    if m > 0.0 {
      Scaled(q, y, m);
      Scaled(y, q, m);
    } else {
      assert q * -m == -x && y * -m == -(y * m);
      Scaled(q, y, -m);
      Scaled(y, q, -m);
    }
  }

  lemma Scaled(a: real, b: real, m: real)
    requires m > 0.0
    ensures a <= b <==> a * m <= b * m
  {
    assert (b - a) * m == b * m - a * m;
  }

  lemma MeanSign(sum: int, n: nat)
    requires n > 0
    ensures var m := sum as real / n as real; (m > 0.0 <==> sum > 0) && (m < 0.0 <==> sum < 0)
  {
    Quotients(sum as real, 0.0, n as real);
  }

  lemma SignalMeasuresDistance(cfg: Config, mid: Price, sum: int, n: nat)
    requires n > 0 && mid != 0
    ensures var m, signal := sum as real / n as real, Signal(cfg, mid, sum, n);
            && (signal == Some(Buy) <==> FarBelow(mid, m, cfg.entryBps))
            && (signal == Some(Sell) <==> !FarBelow(mid, m, cfg.entryBps) && FarAbove(mid, m, cfg.entryBps))
  {
    var m := sum as real / n as real;
    MeanSign(sum, n);
    if sum != 0 {
      Quotients((mid as real - m) * 10000.0, -cfg.entryBps, m);
      Quotients((mid as real - m) * 10000.0, cfg.entryBps, m);
    }
  }

  /** The answer to the latest of the accepted mids `h`, given at which earlier ones the strategy
      acted: it buys the configured quantity exactly if the window is full, more than a cool-down
      of ticks has passed since the last action (a cool-down since the first full window, if
      there was none) and the mid is far below the mean of the window; it sells exactly if the
      mid is far above it and not far below; and only these count as actions. */
  lemma DecisionRule(cfg: Config, h: seq<Price>)
    requires cfg.window >= 1 && h != [] && h[|h| - 1] != 0
    ensures var acted := Actions(cfg, h[..|h| - 1]);
            var may := if acted == [] then |h| >= cfg.window + cfg.coolDown
                       else |h| >= cfg.window && |h| > acted[|acted| - 1] + cfg.coolDown;
            var answer := Decision(cfg, h, LastOf(acted));
            var mid := h[|h| - 1];
            && (!may ==> answer == None)
            && (may ==>
                  var m := Mean(h, cfg.window);
                  if FarBelow(mid, m, cfg.entryBps) then answer == Some(StrategyAction(Buy, cfg.tradeQty))
                  else if FarAbove(mid, m, cfg.entryBps) then answer == Some(StrategyAction(Sell, cfg.tradeQty))
                  else answer == None)
            && Actions(cfg, h) == if answer.Some? then acted + [|h|] else acted
  {
    ActionsAreSpaced(cfg, h[..|h| - 1]);
    if |h| >= cfg.window {
      SignalMeasuresDistance(cfg, h[|h| - 1], Sum(h[|h| - cfg.window..]), cfg.window);
    }
    hide Signal, FarBelow, FarAbove, Sum;
  }

  // ---------------------------------------------------------------- the rolling window

  /** The last `n` of the mids, or all of them while there are fewer. */
  function Tail(h: seq<Price>, n: nat): seq<Price> {
    if |h| <= n then h else h[|h| - n..]
  }

  lemma {:induction false} SumDropsFirst(s: seq<Price>)
    requires s != []
    ensures Sum(s[1..]) == Sum(s) - s[0]
  {
    if |s| > 1 {
      SumDropsFirst(s[..|s| - 1]);
      assert s[1..][..|s| - 2] == s[..|s| - 1][1..];
    }
  }

  /** Appending and, when the window overflows, dropping the front is the tail of the longer
      history, and the rolling sum follows it. */
  lemma WindowSlides(h: seq<Price>, n: nat, mid: Price)
    requires n >= 1
    ensures var w := Tail(h, n) + [mid];
            && Sum(w) == Sum(Tail(h, n)) + mid
            && Tail(h + [mid], n) == (if |w| > n then w[1..] else w)
            && (|w| > n ==> Sum(w[1..]) == Sum(w) - w[0])
  {
    var w := Tail(h, n) + [mid];
    assert w[..|w| - 1] == Tail(h, n);
    SumDropsFirst(w);
  }

  /** What the counter must read after accepted tick `n`. */
  function Elapsed(cfg: Config, n: nat, last: nat): int {
    if n < cfg.window then 0 else if last == 0 then n - cfg.window + 1 else n - last
  }

  /** The counter and the rolling sum decide as the history does. */
  lemma DecisionFromCounter(cfg: Config, h: seq<Price>, last: nat, since: int)
    requires cfg.window >= 1 && h != [] && last < |h| && (last > 0 ==> last >= cfg.window)
    requires since == Elapsed(cfg, |h| - 1, last)
    ensures Decision(cfg, h, last) ==
            if |h| < cfg.window || since < cfg.coolDown then None
            else match Signal(cfg, h[|h| - 1], Sum(Tail(h, cfg.window)), cfg.window)
                 case None => None
                 case Some(side) => Some(StrategyAction(side, cfg.tradeQty))
  {
  }

  lemma ActionsStep(cfg: Config, h: seq<Price>, mid: Price)
    requires cfg.window >= 1
    ensures var p := Actions(cfg, h);
            && LastOf(p) <= |h| && (LastOf(p) > 0 ==> LastOf(p) >= cfg.window)
            && LastOf(Actions(cfg, h + [mid])) ==
               (if Decision(cfg, h + [mid], LastOf(p)).Some? then |h| + 1 else LastOf(p))
  {
    ActionsAreSpaced(cfg, h);
    assert (h + [mid])[..|h|] == h;
  }

  lemma TailLength(h: seq<Price>, n: nat)
    ensures |Tail(h, n)| == Min(|h|, n)
  {
  }

  class MeanReversionStrategy {
    const cfg: Config
    var window: seq<Price>
    var sum: int
    var sinceAction: nat
    ghost var accepted: seq<Price>

    /** The deque holds the last mids, the sum is theirs, and the counter says how many full
        windows have passed since the last action. */
    ghost predicate Valid()
      reads this
    {
      && cfg.window >= 1
      && window == Tail(accepted, cfg.window) && sum == Sum(window)
      && var last := LastOf(Actions(cfg, accepted));
         && last <= |accepted| && (last > 0 ==> last >= cfg.window)
         && sinceAction == Elapsed(cfg, |accepted|, last)
    }

    constructor (cfg: Config)
      requires cfg.window >= 1
      ensures Valid() && this.cfg == cfg && accepted == []
    {
      this.cfg := cfg;
      window, sum, sinceAction := [], 0, 0;
      accepted := [];
    }

    /** Push the mid, and drop the oldest one when the window overflows. */
    method Slide(mid: Price)
      requires cfg.window >= 1 && window == Tail(accepted, cfg.window) && sum == Sum(window)
      modifies this`window, this`sum, this`accepted
      ensures accepted == old(accepted) + [mid]
      ensures window == Tail(accepted, cfg.window) && sum == Sum(window)
    {
      hide Sum, Tail;
      WindowSlides(accepted, cfg.window, mid);
      accepted := accepted + [mid];
      window := window + [mid];
      sum := sum + mid;
      if |window| > cfg.window {
        sum := sum - window[0];
        window := window[1..];
      }
    }

    method OnTick(s: MarketSnapshot) returns (act: Option<StrategyAction>)
      requires Valid()
      modifies this
      ensures Valid()
      ensures accepted == if Mid(s) == 0 then old(accepted) else old(accepted) + [Mid(s)]
      ensures act == if Mid(s) == 0 then None else Decision(cfg, accepted, LastOf(Actions(cfg, old(accepted))))
    {
      hide Signal, Actions, Decision, Sum, Tail, Mid, LastOf;
      var mid := Mid(s);
      if mid == 0 {
        return None;
      }
      ghost var h := accepted;
      ActionsStep(cfg, h, mid);
      DecisionFromCounter(cfg, h + [mid], LastOf(Actions(cfg, h)), sinceAction);
      Slide(mid);
      TailLength(accepted, cfg.window);
      if |window| < cfg.window {
        return None;
      }
      var since := sinceAction;
      sinceAction := sinceAction + 1;
      if since < cfg.coolDown {
        return None;
      }
      var signal := Signal(cfg, mid, sum, |window|);
      match signal {
        case Some(Buy) =>
          sinceAction := 0;
          return Some(StrategyAction(Buy, cfg.tradeQty));
        case Some(Sell) =>
          sinceAction := 0;
          return Some(StrategyAction(Sell, cfg.tradeQty));
        case None =>
          return None;
      }
    }
  }
}
