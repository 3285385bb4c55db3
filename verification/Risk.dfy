/** The risk gate and the drawdown stop of include/order_book/risk.hpp. Products and sums are
    unbounded here; the cast of a quantity to a signed word is not. */
module Risk {
  import opened Types

  const SCALE: int := 1_000_000

  /** Zero means unlimited. */
  datatype RiskConfig = RiskConfig(maxPosition: int, maxNotional: int, maxDrawdown: int)

  datatype StrategyAction = StrategyAction(side: Side, qty: Quantity)

  /** cur * dir: the position measured along the direction of the trade */
  function Along(side: Side, cur: int): int {
    if side == Buy then cur else -cur
  }

  /** static_cast of an unsigned to a signed 64-bit word */
  function Signed(q: uint64): int {
    if q < 0x8000_0000_0000_0000 then q else q - TWO64
  }

  /** cur + dir * q: the position after trading `q` units */
  function Post(side: Side, cur: int, q: int): int {
    if side == Buy then cur + q else cur - q
  }

  /** A position's notional, floored to price units as the code floors it. */
  function Notional(pos: int, px: Price): int {
    Abs(pos) * px / SCALE
  }

  function Gate(cfg: RiskConfig, halted: bool, proposed: StrategyAction, cur: int, px: Price): Option<StrategyAction> {
    if halted then None
    else
      var wanted := Signed(proposed.qty);
      match ClampPosition(cfg, proposed.side, cur, wanted)
      case None => None
      case Some(a1) =>
        match ClampNotional(cfg, proposed.side, cur, px, a1)
        case None => None
        case Some(a2) =>
          if a2 <= 0 then None
          else
            assert a2 <= wanted < TWO64;
            Some(StrategyAction(proposed.side, a2))
  }

  function ClampPosition(cfg: RiskConfig, side: Side, cur: int, allowed: int): (r: Option<int>)
    ensures r.Some? ==> r.value <= allowed
  {
    if cfg.maxPosition > 0 && Abs(Post(side, cur, allowed)) > cfg.maxPosition then
      var room := cfg.maxPosition - Along(side, cur);
      if room <= 0 then None else Some(Min(room, allowed))
    else Some(allowed)
  }

  function ClampNotional(cfg: RiskConfig, side: Side, cur: int, px: Price, allowed: int): (r: Option<int>)
    ensures r.Some? ==> r.value <= allowed
  {
    if cfg.maxNotional > 0 && px > 0 && Notional(Post(side, cur, allowed), px) > cfg.maxNotional then
      var room := cfg.maxNotional * SCALE / px - Along(side, cur);
      if room <= 0 then None else Some(Min(room, allowed))
    else Some(allowed)
  }

  /** What the gate lets through, 0 when it rejects. */
  function Granted(cfg: RiskConfig, halted: bool, proposed: StrategyAction, cur: int, px: Price): nat {
    match Gate(cfg, halted, proposed, cur, px)
    case None => 0
    case Some(a) => a.qty
  }

  // ---------------------------------------------------------------- shape of the result

  /** The gate keeps the side, never enlarges an order, and never passes an empty one. */
  lemma GateShrinks(cfg: RiskConfig, halted: bool, proposed: StrategyAction, cur: int, px: Price)
    ensures var g := Gate(cfg, halted, proposed, cur, px);
            && (g.Some? ==> !halted && g.value.side == proposed.side && 0 < g.value.qty <= proposed.qty)
            && (halted ==> g == None)
            && (cfg.maxPosition <= 0 && cfg.maxNotional <= 0 && !halted && 0 < proposed.qty < 0x8000_0000_0000_0000
                ==> g == Some(proposed))
  {
  }

  // ---------------------------------------------------------------- the position limit

  /** Moving part of the way leaves the position no larger than at one of the two ends. */
  lemma PartOfTheWay(side: Side, cur: int, q: int, q': int)
    requires 0 <= q' <= q
    ensures Abs(Post(side, cur, q')) <= Max(Abs(cur), Abs(Post(side, cur, q)))
  {
  }

  /** Whatever both clamps do, the position does not leave the limit, or grow if it is already
      outside. */
  lemma GateKeepsPosition(cfg: RiskConfig, halted: bool, proposed: StrategyAction, cur: int, px: Price)
    requires cfg.maxPosition > 0
    ensures var g := Granted(cfg, halted, proposed, cur, px);
            forall q :: 0 <= q <= g ==> Abs(Post(proposed.side, cur, q)) <= Max(Abs(cur), cfg.maxPosition)
  {
  }

  /** `g` is the largest quantity up to `wanted` that keeps the position within `limit`. */
  ghost predicate LargestWithin(side: Side, cur: int, wanted: int, limit: int, g: int) {
    && 0 <= g <= wanted && Abs(Post(side, cur, g)) <= limit
    && forall q :: g < q <= wanted ==> Abs(Post(side, cur, q)) > limit
  }

  /** From a position within the limit the position clamp grants exactly the largest quantity
      that stays within it. */
  lemma PositionClampIsLargest(cfg: RiskConfig, proposed: StrategyAction, cur: int, px: Price)
    requires cfg.maxPosition > 0 && cfg.maxNotional <= 0 && Abs(cur) <= cfg.maxPosition
    requires proposed.qty < 0x8000_0000_0000_0000
    ensures LargestWithin(proposed.side, cur, proposed.qty, cfg.maxPosition, Granted(cfg, false, proposed, cur, px))
  {
  }

  // ---------------------------------------------------------------- the notional limit

  /** The largest position whose exact notional is within the limit: what the code computes. */
  function ExactCap(n: int, px: Price): int
    requires px > 0
  {
    n * SCALE / px
  }

  /** The largest position whose floored notional is within the limit. */
  function FlooredCap(n: int, px: Price): int
    requires px > 0
  {
    ((n + 1) * SCALE - 1) / px
  }

  lemma MulLe(a: int, b: int, d: int)
    requires a <= b && d >= 0
    ensures a * d <= b * d
  {
  }

  lemma DivAtMost(a: int, b: int, d: int)
    requires d > 0
    ensures a / d <= b <==> a < (b + 1) * d
    ensures a / d >= b <==> a >= b * d
  {
    var q, r := a / d, a % d;
    assert a == q * d + r && 0 <= r < d;
    assert (q + 1) * d == q * d + d;
    if q <= b {
      MulLe(q + 1, b + 1, d);
    } else {
      MulLe(b + 1, q, d);
    }
    if q >= b {
      MulLe(b, q, d);
    } else {
      MulLe(q + 1, b, d);
    }
  }

  /** The two caps in terms of what they cap; they are less than ceil(10^6 / px) + 1 apart. */
  lemma Caps(n: int, px: Price, x: nat)
    requires n >= 0 && px > 0
    ensures x * px / SCALE <= n <==> x <= FlooredCap(n, px)
    ensures x * px <= n * SCALE <==> x <= ExactCap(n, px)
    ensures 0 <= ExactCap(n, px) <= FlooredCap(n, px) <= ExactCap(n, px) + (SCALE + px - 1) / px
  {
    DivAtMost(x * px, n, SCALE);
    DivAtMost((n + 1) * SCALE - 1, x, px);
    DivAtMost(n * SCALE, x, px);
    DivAtMost(n * SCALE, 0, px);
    CapGap(n, px);
  }

  lemma CapGap(n: int, px: Price)
    requires n >= 0 && px > 0
    ensures ExactCap(n, px) <= FlooredCap(n, px) <= ExactCap(n, px) + (SCALE + px - 1) / px
  {
    var e, c := ExactCap(n, px), (SCALE + px - 1) / px;
    DivAtMost(n * SCALE, e, px);
    DivAtMost((n + 1) * SCALE - 1, e, px);
    DivAtMost(SCALE + px - 1, c, px);
    assert SCALE <= c * px by {
      assert (c + 1) * px == c * px + px;
    }
    assert (e + c + 1) * px == (e + 1) * px + c * px;
    DivAtMost((n + 1) * SCALE - 1, e + c, px);
  }

  lemma NotionalOfMax(a: int, b: int, c: int, px: Price)
    requires Abs(a) <= Max(Abs(b), Abs(c)) && px > 0
    ensures Notional(a, px) <= Max(Notional(b, px), Notional(c, px))
  {
  }

  lemma ClampedNotionalWithin(cfg: RiskConfig, side: Side, cur: int, px: Price, allowed: int)
    requires cfg.maxNotional > 0 && px > 0 && allowed > 0
    ensures var r := ClampNotional(cfg, side, cur, px, allowed);
            r.Some? ==> 0 < r.value && Notional(Post(side, cur, r.value), px) <= Max(Notional(cur, px), cfg.maxNotional)
  {
    var r := ClampNotional(cfg, side, cur, px, allowed);
    if r.Some? {
      var post, cap := Post(side, cur, r.value), ExactCap(cfg.maxNotional, px);
      if Notional(Post(side, cur, allowed), px) > cfg.maxNotional {
        Caps(cfg.maxNotional, px, cap);
        assert Abs(post) <= Max(Abs(cur), Abs(cap));
        NotionalOfMax(post, cur, cap, px);
      }
    }
  }

  /** The floored notional stays within the limit, or does not grow if it is already outside. */
  lemma GateKeepsNotional(cfg: RiskConfig, halted: bool, proposed: StrategyAction, cur: int, px: Price)
    requires cfg.maxNotional > 0 && px > 0
    ensures var g := Granted(cfg, halted, proposed, cur, px);
            forall q :: 0 <= q <= g ==>
              Notional(Post(proposed.side, cur, q), px) <= Max(Notional(cur, px), cfg.maxNotional)
  {
    var g := Granted(cfg, halted, proposed, cur, px);
    if g > 0 {
      var wanted := Signed(proposed.qty);
      var a1 := ClampPosition(cfg, proposed.side, cur, wanted).value;
      ClampedNotionalWithin(cfg, proposed.side, cur, px, a1);
      forall q | 0 <= q <= g
        ensures Notional(Post(proposed.side, cur, q), px) <= Max(Notional(cur, px), cfg.maxNotional)
      {
        PartOfTheWay(proposed.side, cur, g, q);
        NotionalOfMax(Post(proposed.side, cur, q), cur, Post(proposed.side, cur, g), px);
      }
    }
  }

  /** When the notional clamp is what limits the order, the position reached is worth no more
      than the limit even before rounding, and it falls short of the largest quantity whose
      floored notional is allowed by at most ceil(10^6 / px). */
  lemma NotionalClampIsTight(cfg: RiskConfig, proposed: StrategyAction, cur: int, px: Price)
    requires cfg.maxNotional > 0 && px > 0
    requires var g := Granted(cfg, false, proposed, cur, px);
             var a1 := ClampPosition(cfg, proposed.side, cur, Signed(proposed.qty));
             g > 0 && a1.Some? && g < a1.value
    ensures var g := Granted(cfg, false, proposed, cur, px);
            && Abs(Post(proposed.side, cur, g)) * px <= cfg.maxNotional * SCALE
            && forall q: nat :: q <= proposed.qty && Notional(Post(proposed.side, cur, q), px) <= cfg.maxNotional
                 ==> q <= g + (SCALE + px - 1) / px
  {
    var g := Granted(cfg, false, proposed, cur, px);
    var n, c := cfg.maxNotional, Along(proposed.side, cur);
    var cap := ExactCap(n, px);
    assert g == cap - c;
    Caps(n, px, cap);
    assert Abs(Post(proposed.side, cur, g)) == cap;
    forall q: nat | q <= proposed.qty && Notional(Post(proposed.side, cur, q), px) <= n
      ensures q <= g + (SCALE + px - 1) / px
    {
      Caps(n, px, Abs(Post(proposed.side, cur, q)));
    }
  }

  // ---------------------------------------------------------------- the promise of the gate

  /** A position that breaks no limit; a limit of zero is none. */
  ghost predicate Within(cfg: RiskConfig, px: Price, pos: int) {
    && (cfg.maxPosition > 0 ==> Abs(pos) <= cfg.maxPosition)
    && (cfg.maxNotional > 0 ==> Notional(pos, px) <= cfg.maxNotional)
  }

  /** What the gate is documented to grant: the largest quantity after which the position is
      within both limits, nothing if there is none. */
  ghost predicate LargestAllowed(cfg: RiskConfig, a: StrategyAction, cur: int, px: Price, g: nat) {
    && g <= a.qty && (g > 0 ==> Within(cfg, px, Post(a.side, cur, g)))
    && forall q :: g < q <= a.qty ==> !Within(cfg, px, Post(a.side, cur, q))
  }

  function PositionCap(cfg: RiskConfig): Option<int> {
    if cfg.maxPosition > 0 then Some(cfg.maxPosition) else None
  }

  /** The largest position within the notional limit. */
  function NotionalCap(cfg: RiskConfig, px: Price): Option<int> {
    if cfg.maxNotional > 0 && px > 0 then Some(FlooredCap(cfg.maxNotional, px)) else None
  }

  predicate AtMost(x: int, cap: Option<int>) {
    cap.Some? ==> x <= cap.value
  }

  /** What the position limit leaves of the order. */
  function Room(cfg: RiskConfig, c: int, qty: int): int {
    if cfg.maxPosition > 0 then Min(qty, cfg.maxPosition - c) else qty
  }

  /** `c` is the position along the direction of the trade. The whole order does not end beyond
      a limit on the other side, and rounding the notional cap down to an exact one costs
      nothing: what the position limit leaves fits under it, the position has reached it
      already, or it is exact. */
  predicate SignedGateIsRight(cfg: RiskConfig, c: int, qty: int, px: Price) {
    && AtMost(-(c + qty), PositionCap(cfg)) && AtMost(-(c + qty), NotionalCap(cfg, px))
    && match NotionalCap(cfg, px)
       case None => true
       case Some(cap) => c + Room(cfg, c, qty) <= cap || c >= cap || ExactCap(cfg.maxNotional, px) == cap
  }

  /** No part of the order ends within the limits: the position is at a limit in the direction
      of the trade, or the whole order does not bring it back. */
  predicate NothingFits(cfg: RiskConfig, c: int, qty: int, px: Price) {
    || !AtMost(c + 1, PositionCap(cfg)) || !AtMost(c + 1, NotionalCap(cfg, px))
    || !AtMost(-(c + qty), PositionCap(cfg)) || !AtMost(-(c + qty), NotionalCap(cfg, px))
  }

  lemma WithinIsCapped(cfg: RiskConfig, px: Price, pos: int)
    ensures Within(cfg, px, pos) <==> AtMost(Abs(pos), PositionCap(cfg)) && AtMost(Abs(pos), NotionalCap(cfg, px))
  {
    if cfg.maxNotional > 0 {
      if px > 0 {
        Caps(cfg.maxNotional, px, Abs(pos));
      } else {
        MulLe(px, 0, Abs(pos));
      }
    }
  }

  /** One clamp, along the direction of the trade: beyond `cap` the order is cut at `target`. */
  function Clamp(cap: Option<int>, target: int, c: int, allowed: int): int {
    if AtMost(Abs(c + allowed), cap) then allowed else if target <= c then 0 else Min(target - c, allowed)
  }

  /** The gate as two clamps. */
  lemma GrantedIsClamped(cfg: RiskConfig, a: StrategyAction, cur: int, px: Price)
    ensures var c := Along(a.side, cur);
            var exact := if px > 0 then ExactCap(cfg.maxNotional, px) else 0;
            var a1 := Clamp(PositionCap(cfg), cfg.maxPosition, c, Signed(a.qty));
            Granted(cfg, false, a, cur, px) == if a1 == 0 then 0 else Max(0, Clamp(NotionalCap(cfg, px), exact, c, a1))
  {
    var c := Along(a.side, cur);
    var a1 := Clamp(PositionCap(cfg), cfg.maxPosition, c, Signed(a.qty));
    if cfg.maxNotional > 0 && px > 0 {
      Caps(cfg.maxNotional, px, Abs(c + a1));
      assert Abs(Post(a.side, cur, a1)) == Abs(c + a1);
    }
  }

  /** Whether some quantity above `g` fits is decided by the smallest that is not too far on the
      other side. */
  lemma SomeFits(cfg: RiskConfig, px: Price, side: Side, cur: int, g: int, qty: int)
    requires 0 <= g
    ensures var c := Along(side, cur);
            (forall q :: g < q <= qty ==> !Within(cfg, px, Post(side, cur, q))) <==>
            g >= qty || !AtMost(c + g + 1, PositionCap(cfg)) || !AtMost(c + g + 1, NotionalCap(cfg, px))
            || !AtMost(-(c + qty), PositionCap(cfg)) || !AtMost(-(c + qty), NotionalCap(cfg, px))
  {
    var c := Along(side, cur);
    forall q
      ensures Within(cfg, px, Post(side, cur, q)) <==>
              AtMost(Abs(c + q), PositionCap(cfg)) && AtMost(Abs(c + q), NotionalCap(cfg, px))
    {
      WithinIsCapped(cfg, px, Post(side, cur, q));
      assert Abs(Post(side, cur, q)) == Abs(c + q);
    }
    CapsPositive(cfg, px);
    var p, n := PositionCap(cfg), NotionalCap(cfg, px);
    var low := if p.Some? && n.Some? then Min(p.value, n.value) else if p.Some? then p.value
               else if n.Some? then n.value else Abs(c) + g + 1;
    var first := Max(g + 1, -low - c);
    assert first <= qty ==>
             (Within(cfg, px, Post(side, cur, first)) <==>
              AtMost(Abs(c + first), PositionCap(cfg)) && AtMost(Abs(c + first), NotionalCap(cfg, px)));
  }

  lemma CapsPositive(cfg: RiskConfig, px: Price)
    ensures PositionCap(cfg).Some? ==> PositionCap(cfg).value > 0
    ensures NotionalCap(cfg, px).Some? ==> 0 <= ExactCap(cfg.maxNotional, px) <= NotionalCap(cfg, px).value
  {
    if NotionalCap(cfg, px).Some? {
      Caps(cfg.maxNotional, px, 0);
    }
  }

  /** For every configuration, position, price and order: the gate grants what it is documented
      to grant exactly if, for quantities that survive the cast to a signed word, the condition
      above holds, and for those that turn negative, nothing could have been granted. */
  lemma GateIsLargestIff(cfg: RiskConfig, a: StrategyAction, cur: int, px: Price)
    ensures var c := Along(a.side, cur);
            LargestAllowed(cfg, a, cur, px, Granted(cfg, false, a, cur, px)) <==>
            (a.qty == 0
             || if a.qty < 0x8000_0000_0000_0000 then SignedGateIsRight(cfg, c, a.qty, px)
                else NothingFits(cfg, c, a.qty, px))
  {
    hide Granted, FlooredCap, ExactCap, Within;
    var c, g := Along(a.side, cur), Granted(cfg, false, a, cur, px);
    GateShrinks(cfg, false, a, cur, px);
    GrantedIsClamped(cfg, a, cur, px);
    CapsPositive(cfg, px);
    WithinIsCapped(cfg, px, Post(a.side, cur, g));
    assert Abs(Post(a.side, cur, g)) == Abs(c + g);
    SomeFits(cfg, px, a.side, cur, g, a.qty);
  }

  /** Flat, notional limit 1, price 1: the gate grants 1000000 of 2500000 units although
      1999999 of them still have floored notional 1. */
  lemma NotionalClampIsNotAlwaysLargest()
    ensures var cfg, a := RiskConfig(0, 1, 0), StrategyAction(Buy, 2_500_000);
            && Granted(cfg, false, a, 0, 1) == 1_000_000
            && Notional(Post(Buy, 0, 1_999_999), 1) == 1
            && !LargestAllowed(cfg, a, 0, 1, Granted(cfg, false, a, 0, 1))
  {
    var cfg := RiskConfig(0, 1, 0);
    assert Within(cfg, 1, Post(Buy, 0, 1_999_999));
  }

  /** Far outside a limit the gate grants the whole of an order that does not bring the position
      back, and a quantity of 2^63 is rejected outright although part of it would fit. */
  lemma GateMayGrantOutsideOrNothing()
    ensures var byNotional, byPosition := RiskConfig(0, 1, 0), RiskConfig(5, 0, 0);
            var huge: StrategyAction := StrategyAction(Buy, 0x8000_0000_0000_0000);
            && Granted(byNotional, false, StrategyAction(Sell, 1), 5_000_000, 1) == 1
            && !Within(byNotional, 1, Post(Sell, 5_000_000, 1))
            && Granted(byPosition, false, StrategyAction(Sell, 3), 10, 1) == 3
            && !Within(byPosition, 1, Post(Sell, 10, 3))
            && Granted(byPosition, false, huge, 0, 1) == 0
            && Within(byPosition, 1, Post(Buy, 0, 5))
  {
  }

  // ---------------------------------------------------------------- the drawdown stop

  /** The highest equity seen, never below the 0 it starts from. */
  function Peak(h: seq<int>): int {
    if h == [] then 0 else Max(Peak(h[..|h| - 1]), h[|h| - 1])
  }

  /** Observation `i` is further below the peak up to then than the limit allows. */
  ghost predicate Breach(cfg: RiskConfig, h: seq<int>, i: int)
    requires 0 <= i < |h|
  {
    cfg.maxDrawdown > 0 && Peak(h[..i + 1]) - h[i] > cfg.maxDrawdown
  }

  ghost predicate Breached(cfg: RiskConfig, h: seq<int>) {
    exists i :: 0 <= i < |h| && Breach(cfg, h, i)
  }

  lemma BreachedByOneMore(cfg: RiskConfig, h: seq<int>, e: int)
    ensures Peak(h + [e]) == Max(Peak(h), e)
    ensures Breached(cfg, h + [e]) <==>
            Breached(cfg, h) || (cfg.maxDrawdown > 0 && Max(Peak(h), e) - e > cfg.maxDrawdown)
  {
    var h' := h + [e];
    assert h'[..|h|] == h && h'[..|h| + 1] == h';
    forall i | 0 <= i < |h|
      ensures Breach(cfg, h', i) <==> Breach(cfg, h, i)
    {
      assert h'[..i + 1] == h[..i + 1];
    }
    if Breached(cfg, h) {
      var i :| 0 <= i < |h| && Breach(cfg, h, i);
      assert Breach(cfg, h', i);
    }
    if cfg.maxDrawdown > 0 && Max(Peak(h), e) - e > cfg.maxDrawdown {
      assert Breach(cfg, h', |h|);
    }
  }

  class RiskManager {
    const cfg: RiskConfig
    var peakEquity: int
    var halted: bool
    ghost var observed: seq<int>

    /** The peak is that of everything observed, and trading has been stopped exactly if some
        observation breached the limit: one breach stops it for good. */
    ghost predicate Valid()
      reads this
    {
      peakEquity == Peak(observed) && (halted <==> Breached(cfg, observed))
    }

    constructor (cfg: RiskConfig)
      ensures Valid() && this.cfg == cfg && observed == [] && !halted
    {
      this.cfg := cfg;
      peakEquity := 0;
      halted := false;
      observed := [];
    }

    method ObserveEquity(equity: int)
      requires Valid()
      modifies this
      ensures Valid() && observed == old(observed) + [equity]
      ensures old(halted) ==> halted
      ensures halted == (old(halted) || (cfg.maxDrawdown > 0 && peakEquity - equity > cfg.maxDrawdown))
      ensures peakEquity == Max(old(peakEquity), equity)
    {
      BreachedByOneMore(cfg, observed, equity);
      if equity > peakEquity {
        peakEquity := equity;
      }
      if !halted && cfg.maxDrawdown > 0 {
        var drawdown := peakEquity - equity;
        if drawdown > cfg.maxDrawdown {
          halted := true;
        }
      }
      observed := observed + [equity];
    }
  }
}
