/** The latency histogram of include/order_book/latency_hist.hpp against the true order
    statistics of the samples recorded. */
module LatencyHist {
  import opened Types
  import opened Words

  const BUCKETS: nat := 64

  /** ns | 1 */
  function OrOne(ns: uint64): nat {
    if ns % 2 == 0 then ns + 1 else ns
  }

  /** 63 - clz(ns | 1) */
  function Bucket(ns: uint64): (b: nat)
    ensures b < BUCKETS
  {
    BelowWord(OrOne(ns));
    HighestBit(OrOne(ns))
  }

  lemma BelowWord(x: nat)
    requires 0 < x < TWO64
    ensures HighestBit(x) < 64
  {
    WordSize();
    if HighestBit(x) >= 64 {
      Pow2Grows(64, HighestBit(x));
    }
  }

  function LowerEdge(b: nat): nat {
    if b == 0 then 0 else Pow2(b)
  }

  /** A bucket holds 0 and 1, or a power of two and everything up to its double. */
  lemma BucketHolds(ns: uint64)
    ensures Bucket(ns) == 0 <==> ns <= 1
    ensures ns > 1 ==> LowerEdge(Bucket(ns)) <= ns < 2 * LowerEdge(Bucket(ns))
    ensures LowerEdge(Bucket(ns)) <= ns
  {
  }

  lemma BucketsGrow(x: uint64, y: uint64)
    requires x <= y
    ensures Bucket(x) <= Bucket(y)
  {
    assert OrOne(x) <= OrOne(y);
    if Bucket(x) > Bucket(y) {
      Pow2Grows(Bucket(y) + 1, Bucket(x));
    }
  }

  lemma EdgesGrow(a: nat, b: nat)
    requires a <= b
    ensures LowerEdge(a) <= LowerEdge(b)
  {
    Pow2Grows(a, b);
  }

  // ---------------------------------------------------------------- order statistics

  ghost predicate Ordered(s: seq<uint64>) {
    forall i, j :: 0 <= i < j < |s| ==> s[i] <= s[j]
  }

  function InsertSorted(x: uint64, s: seq<uint64>): (t: seq<uint64>)
    ensures |t| == |s| + 1 && multiset(t) == multiset(s) + multiset{x}
  {
    if s == [] || x <= s[0] then [x] + s
    else
      assert s == [s[0]] + s[1..];
      [s[0]] + InsertSorted(x, s[1..])
  }

  /** The samples in ascending order. */
  function SortedOf(s: seq<uint64>): (t: seq<uint64>)
    ensures |t| == |s| && multiset(t) == multiset(s)
  {
    if s == [] then []
    else
      assert s == s[..|s| - 1] + [s[|s| - 1]];
      InsertSorted(s[|s| - 1], SortedOf(s[..|s| - 1]))
  }

  lemma {:induction false} InsertEnds(x: uint64, t: seq<uint64>)
    requires Ordered(t)
    ensures InsertSorted(x, t)[0] == if t == [] then x else Min(x, t[0])
    ensures InsertSorted(x, t)[|t|] == if t == [] then x else Max(x, t[|t| - 1])
  {
    if t != [] && x > t[0] {
      var tail := t[1..];
      assert Ordered(tail);
      InsertEnds(x, tail);
      assert InsertSorted(x, t) == [t[0]] + InsertSorted(x, tail);
    }
  }

  lemma {:induction false} InsertOrdered(x: uint64, s: seq<uint64>)
    requires Ordered(s)
    ensures Ordered(InsertSorted(x, s))
  {
    if s != [] && x > s[0] {
      var tail := s[1..];
      assert Ordered(tail);
      InsertOrdered(x, tail);
      InsertEnds(x, tail);
      FrontOrdered(s[0], InsertSorted(x, tail));
    }
  }

  lemma FrontOrdered(y: uint64, t: seq<uint64>)
    requires Ordered(t) && (t != [] ==> y <= t[0])
    ensures Ordered([y] + t)
  {
  }

  lemma {:induction false} SortedIsOrdered(s: seq<uint64>)
    ensures Ordered(SortedOf(s))
  {
    if s != [] {
      SortedIsOrdered(s[..|s| - 1]);
      InsertOrdered(s[|s| - 1], SortedOf(s[..|s| - 1]));
    }
  }

  /** How many samples fall into buckets up to `b`. */
  function UpTo(s: seq<uint64>, b: int): nat {
    if s == [] then 0 else UpTo(s[..|s| - 1], b) + (if Bucket(s[|s| - 1]) <= b then 1 else 0)
  }

  function InBucket(s: seq<uint64>, b: int): nat {
    if s == [] then 0 else InBucket(s[..|s| - 1], b) + (if Bucket(s[|s| - 1]) == b then 1 else 0)
  }

  lemma {:induction false} UpToStep(s: seq<uint64>, b: int)
    ensures UpTo(s, b) == UpTo(s, b - 1) + InBucket(s, b)
    ensures b >= BUCKETS - 1 ==> UpTo(s, b) == |s|
    ensures b < 0 ==> UpTo(s, b) == 0
    ensures UpTo(s, b) <= |s|
  {
    if s != [] {
      UpToStep(s[..|s| - 1], b);
    }
  }

  lemma {:induction false} UpToFront(x: uint64, s: seq<uint64>, b: int)
    ensures UpTo([x] + s, b) == (if Bucket(x) <= b then 1 else 0) + UpTo(s, b)
  {
    var t := [x] + s;
    if s == [] {
      assert t[..0] == [];
    } else {
      UpToFront(x, s[..|s| - 1], b);
      assert t[..|t| - 1] == [x] + s[..|s| - 1] && t[|t| - 1] == s[|s| - 1];
    }
  }

  lemma {:induction false} InsertUpTo(x: uint64, s: seq<uint64>, b: int)
    ensures UpTo(InsertSorted(x, s), b) == UpTo(s, b) + (if Bucket(x) <= b then 1 else 0)
  {
    if s == [] || x <= s[0] {
      UpToFront(x, s, b);
    } else {
      InsertUpTo(x, s[1..], b);
      UpToFront(s[0], InsertSorted(x, s[1..]), b);
      UpToFront(s[0], s[1..], b);
      assert s == [s[0]] + s[1..];
    }
  }

  lemma {:induction false} SortedUpTo(s: seq<uint64>, b: int)
    ensures UpTo(SortedOf(s), b) == UpTo(s, b)
  {
    if s != [] {
      SortedUpTo(s[..|s| - 1], b);
      InsertUpTo(s[|s| - 1], SortedOf(s[..|s| - 1]), b);
    }
  }

  /** In ascending order, the samples in buckets up to `b` are exactly the first ones. */
  lemma {:induction false} OrderedCut(t: seq<uint64>, b: int, i: nat)
    requires Ordered(t) && i < |t|
    ensures Bucket(t[i]) <= b <==> i < UpTo(t, b)
    decreases |t|
  {
    var n := |t| - 1;
    if Bucket(t[n]) <= b {
      AllUpTo(t, b);
      BucketsGrow(t[i], t[n]);
    } else if i < n {
      OrderedCut(t[..n], b, i);
    } else {
      UpToStep(t[..n], b);
    }
  }

  lemma {:induction false} AllUpTo(t: seq<uint64>, b: int)
    requires Ordered(t) && t != [] && Bucket(t[|t| - 1]) <= b
    ensures UpTo(t, b) == |t|
    decreases |t|
  {
    var n := |t| - 1;
    if n > 0 {
      BucketsGrow(t[n - 1], t[n]);
      AllUpTo(t[..n], b);
    }
  }

  // ---------------------------------------------------------------- percentiles

  /** The rank the code aims at: rounded half up, then brought into 1..n. */
  function Rank(p: real, n: nat): (r: nat)
    requires 0.0 < p < 1.0 && n > 0
    ensures 1 <= r <= n
  {
    ProductsGrow(0.0, p, n as real);
    var target := (p * n as real + 0.5).Floor;
    if target == 0 then 1 else if target > n then n else target
  }

  /** `r` is the rank nearest to p * n, the upper one of two equally near, and never below 1. */
  ghost predicate IsRank(p: real, n: nat, r: int) {
    && 1 <= r <= n
    && if p * n as real < 0.5 then r == 1 else r as real - 0.5 <= p * n as real < r as real + 0.5
  }

  /** The code's rounding and clamping gives that rank, and there is no other. */
  lemma RankIsNearest(p: real, n: nat, r: int)
    requires 0.0 < p < 1.0 && n > 0
    ensures IsRank(p, n, r) <==> r == Rank(p, n)
  {
    var x := p * n as real;
    ProductsGrow(p, 1.0, n as real);
    assert x <= n as real;
  }

  /** The comment beside the rounding speaks of a ceiling: the rank is the ceiling of p * n
      exactly if p * n is at most 1, or has no fraction below a half. */
  lemma RankIsCeilingIff(p: real, n: nat)
    requires 0.0 < p < 1.0 && n > 0
    ensures var x := p * n as real;
            Rank(p, n) == -(-x).Floor <==> x <= 1.0 || x == x.Floor as real || x - x.Floor as real >= 0.5
  {
    StrictlyBelow(p, n);
    RoundingAgainstCeiling(p * n as real);
  }

  /** A quarter of five samples: 1.25 is rounded to rank 1, its ceiling is 2. */
  lemma RankMayMissCeiling()
    ensures Rank(0.25, 5) == 1 && -(-(0.25 * 5.0)).Floor == 2
  {
  }

  lemma RoundingAgainstCeiling(x: real)
    requires x > 0.0
    ensures Max(1, (x + 0.5).Floor) == -(-x).Floor <==>
            x <= 1.0 || x == x.Floor as real || x - x.Floor as real >= 0.5
  {
    var f := x.Floor;
    if x == f as real {
      assert (-x).Floor == -f && (x + 0.5).Floor == f;
    } else {
      assert (-x).Floor == -f - 1 by {
        assert (-f - 1) as real < -x < (-f) as real;
      }
      assert (x + 0.5).Floor == if x - f as real >= 0.5 then f + 1 else f;
    }
  }

  lemma StrictlyBelow(p: real, n: nat)
    requires 0.0 < p < 1.0 && n > 0
    ensures 0.0 < p * n as real < n as real
  {
    assert (1.0 - p) * n as real > 0.0;
  }

  /** What a percentile query reports of the true order statistic: the lower edge of its
      bucket, except at the two ends, which are exact. */
  function PercentileOf(s: seq<uint64>, p: real): nat {
    if s == [] then 0
    else if p <= 0.0 then SortedOf(s)[0]
    else if p >= 1.0 then SortedOf(s)[|s| - 1]
    else LowerEdge(Bucket(SortedOf(s)[Rank(p, |s|) - 1]))
  }

  lemma ProductsGrow(p: real, q: real, x: real)
    requires p <= q && x >= 0.0
    ensures p * x <= q * x
  {
  }

  lemma FloorsGrow(x: real, y: real)
    requires x <= y
    ensures (x + 0.5).Floor <= (y + 0.5).Floor
  {
  }

  lemma RanksGrow(p: real, q: real, n: nat)
    requires 0.0 < p <= q < 1.0 && n > 0
    ensures Rank(p, n) <= Rank(q, n)
  {
    ProductsGrow(p, q, n as real);
    FloorsGrow(p * n as real, q * n as real);
  }

  /** Between the ends, with `r` the rank nearest to p * n and `x` the r-th smallest sample, the
      report is 0 for an `x` of at most 1, and otherwise a power of two that is at most `x` and
      more than half of it. */
  lemma {:induction false} PercentileIsAccurate(s: seq<uint64>, p: real, r: int)
    requires s != [] && 0.0 < p < 1.0 && IsRank(p, |s|, r)
    ensures var x, v := SortedOf(s)[r - 1], PercentileOf(s, p);
            && (x <= 1 ==> v == 0)
            && (x > 1 ==> v <= x < 2 * v && exists b: nat :: b < BUCKETS && v == Pow2(b))
  {
    hide SortedOf, Bucket, IsRank, LowerEdge;
    RankIsNearest(p, |s|, r);
    EdgeBelow(SortedOf(s)[r - 1]);
  }

  lemma EdgeBelow(x: uint64)
    ensures var v := LowerEdge(Bucket(x));
            && (x <= 1 ==> v == 0)
            && (x > 1 ==> v <= x < 2 * v && exists b: nat :: b < BUCKETS && v == Pow2(b))
  {
    BucketHolds(x);
    assert x > 1 ==> LowerEdge(Bucket(x)) == Pow2(Bucket(x));
  }

  /** At the ends the report is exact, and without samples it is 0. */
  lemma {:induction false} PercentileEnds(s: seq<uint64>, p: real)
    ensures s == [] ==> PercentileOf(s, p) == 0
    ensures s != [] && p <= 0.0 ==> PercentileOf(s, p) in s && forall x :: x in s ==> PercentileOf(s, p) <= x
    ensures s != [] && p >= 1.0 ==> PercentileOf(s, p) in s && forall x :: x in s ==> x <= PercentileOf(s, p)
  {
    if s != [] {
      var t := SortedOf(s);
      SortedIsOrdered(s);
      assert t[0] in multiset(t) && t[|s| - 1] in multiset(t);
      forall x | x in s
        ensures t[0] <= x <= t[|s| - 1]
      {
        assert x in multiset(t);
        var i :| 0 <= i < |t| && t[i] == x;
      }
    }
  }

  /** Reports grow with p on (0, 1]. */
  lemma PercentilesGrow(s: seq<uint64>, p: real, q: real)
    requires 0.0 < p <= q
    ensures PercentileOf(s, p) <= PercentileOf(s, q)
  {
    if s != [] && p < 1.0 {
      var t := SortedOf(s);
      SortedIsOrdered(s);
      var x := t[Rank(p, |s|) - 1];
      BucketHolds(x);
      if q < 1.0 {
        RanksGrow(p, q, |s|);
        BucketsGrow(x, t[Rank(q, |s|) - 1]);
        EdgesGrow(Bucket(x), Bucket(t[Rank(q, |s|) - 1]));
      } else {
        assert x <= t[|s| - 1];
      }
    }
  }

  /** At 0 the report is the exact minimum, and it is no larger than a later one exactly if the
      later statistic is in a higher bucket or the minimum is itself the edge of its bucket. */
  lemma PercentileZeroGrowsIff(s: seq<uint64>, p: real)
    requires s != [] && 0.0 < p < 1.0
    ensures var t := SortedOf(s);
            PercentileOf(s, 0.0) <= PercentileOf(s, p) <==>
            (Bucket(t[0]) < Bucket(t[Rank(p, |s|) - 1]) || t[0] == LowerEdge(Bucket(t[0])))
  {
    hide SortedOf, Rank, Bucket, LowerEdge;
    SortedIsOrdered(s);
    var t := SortedOf(s);
    MinimumAgainstEdge(t[0], t[Rank(p, |s|) - 1]);
  }

  lemma MinimumAgainstEdge(m: uint64, x: uint64)
    requires m <= x
    ensures m <= LowerEdge(Bucket(x)) <==> (Bucket(m) < Bucket(x) || m == LowerEdge(Bucket(m)))
  {
    BucketsGrow(m, x);
    BucketHolds(m);
    BucketHolds(x);
    if Bucket(m) < Bucket(x) {
      Pow2Grows(Bucket(m) + 1, Bucket(x));
    }
  }

  /** A small enough p asks for the smallest sample. */
  lemma FirstRank(n: nat) returns (p: real)
    requires n > 0
    ensures 0.0 < p < 1.0 && Rank(p, n) == 1
  {
    p := 0.5 / n as real;
    assert p * n as real == 0.5;
  }

  /** Reports grow with p everywhere, 0 included, exactly if the minimum is the lower edge of a
      bucket: 0 or a power of two from 2 on. */
  lemma ReportsGrowIff(s: seq<uint64>)
    requires s != []
    ensures (forall p, q :: p <= q ==> PercentileOf(s, p) <= PercentileOf(s, q)) <==>
            (SortedOf(s)[0] == 0 || exists b :: 1 <= b < BUCKETS && SortedOf(s)[0] == Pow2(b))
  {
    hide SortedOf, Rank, Bucket;
    var t := SortedOf(s);
    SortedIsOrdered(s);
    BucketHolds(t[0]);
    EdgeIff(t[0]);
    var p1 := FirstRank(|s|);
    PercentileZeroGrowsIff(s, p1);
    if t[0] == LowerEdge(Bucket(t[0])) {
      forall p, q | p <= q
        ensures PercentileOf(s, p) <= PercentileOf(s, q)
      {
        if p > 0.0 {
          PercentilesGrow(s, p, q);
        } else if 0.0 < q < 1.0 {
          PercentileZeroGrowsIff(s, q);
        }
      }
    } else {
      assert PercentileOf(s, 0.0) > PercentileOf(s, p1);
    }
  }

  lemma EdgeIff(m: uint64)
    ensures m == LowerEdge(Bucket(m)) <==> m == 0 || exists b :: 1 <= b < BUCKETS && m == Pow2(b)
  {
    BucketHolds(m);
    assert m > 1 && m == LowerEdge(Bucket(m)) ==> m == Pow2(Bucket(m));
    if b :| 1 <= b < BUCKETS && m == Pow2(b) {
      Pow2Grows(1, b);
      if Bucket(m) < b {
        Pow2Grows(Bucket(m) + 1, b);
      } else if Bucket(m) > b {
        Pow2Grows(b + 1, Bucket(m));
      }
    }
  }

  /** A single sample of 3: the report at 0 is 3, at one half it is 2. */
  lemma PercentileZeroMayExceedMedian()
    ensures PercentileOf([3], 0.0) == 3 && PercentileOf([3], 0.5) == 2
  {
  }

  // ---------------------------------------------------------------- the histogram

  function Total(s: seq<uint64>): nat {
    if s == [] then 0 else Total(s[..|s| - 1]) + s[|s| - 1]
  }

  /** What one more sample does to everything the histogram keeps. */
  lemma OneMore(s: seq<uint64>, x: uint64)
    ensures SortedOf(s + [x]) == InsertSorted(x, SortedOf(s))
    ensures forall b :: InBucket(s + [x], b) == InBucket(s, b) + (if Bucket(x) == b then 1 else 0)
    ensures Total(s + [x]) == Total(s) + x
  {
  }

  lemma OneMoreEnds(s: seq<uint64>, x: uint64)
    ensures SortedOf(s + [x])[0] == if s == [] then x else Min(x, SortedOf(s)[0])
    ensures SortedOf(s + [x])[|s|] == if s == [] then x else Max(x, SortedOf(s)[|s| - 1])
  {
    OneMore(s, x);
    SortedIsOrdered(s);
    InsertEnds(x, SortedOf(s));
  }

  class LatencyHistogram {
    const buckets: array<nat>
    var count: nat
    var sum: uint64
    var min: uint64
    var max: uint64
    ghost var samples: seq<uint64>

    ghost predicate Valid()
      reads this, buckets
    {
      && buckets.Length == BUCKETS
      && (forall b :: 0 <= b < BUCKETS ==> buckets[b] == InBucket(samples, b))
      && count == |samples| && sum == Total(samples) % TWO64
      && min == (if samples == [] then TWO64 - 1 else SortedOf(samples)[0])
      && max == (if samples == [] then 0 else SortedOf(samples)[|samples| - 1])
    }

    constructor ()
      ensures Valid() && fresh(buckets) && samples == []
    {
      buckets := new nat[BUCKETS](_ => 0);
      count, sum, min, max := 0, 0, TWO64 - 1, 0;
      samples := [];
    }

    method Reset()
      requires buckets.Length == BUCKETS
      modifies this, buckets
      ensures Valid() && samples == []
    {
      var b := 0;
      while b < buckets.Length
        invariant 0 <= b <= buckets.Length
        invariant forall i :: 0 <= i < b ==> buckets[i] == 0
      {
        buckets[b] := 0;
        b := b + 1;
      }
      count, sum, min, max := 0, 0, TWO64 - 1, 0;
      samples := [];
    }

    method Add(ns: uint64)
      requires Valid()
      modifies this, buckets
      ensures Valid() && samples == old(samples) + [ns]
    {
      hide SortedOf, InBucket, Total, Bucket, InsertSorted;
      OneMore(samples, ns);
      OneMoreEnds(samples, ns);
      SumWraps(Total(samples), ns);
      var b := Bucket(ns);
      buckets[b] := buckets[b] + 1;
      count := count + 1;
      sum := (sum + ns) % TWO64;
      if ns < min {
        min := ns;
      }
      if ns > max {
        max := ns;
      }
      samples := samples + [ns];
    }

    function MinNs(): uint64
      reads this
    {
      if count == 0 then 0 else min
    }

    function MaxNs(): uint64
      reads this
    {
      if count == 0 then 0 else max
    }

    /** The buckets account for every sample, and the extremes are exact. */
    lemma CountsAddUp()
      requires Valid()
      ensures SumUpTo(buckets[..], BUCKETS) == count
      ensures MinNs() == PercentileOf(samples, 0.0) && MaxNs() == PercentileOf(samples, 1.0)
    {
      Accumulated(buckets[..], samples, BUCKETS);
      UpToStep(samples, BUCKETS - 1);
    }

    method PercentileNs(p: real) returns (v: nat)
      requires Valid()
      ensures v == PercentileOf(samples, p)
    {
      if count == 0 {
        return 0;
      }
      if p <= 0.0 {
        return min;
      }
      if p >= 1.0 {
        return max;
      }
      hide SortedOf, InBucket, Total, Rank, Bucket, LowerEdge;
      var clamped := Rank(p, count);
      var b := FindRank(clamped);
      v := LowerEdge(b);
    }

    /** Accumulate the buckets up to the one that reaches the rank. */
    method FindRank(clamped: nat) returns (b: nat)
      requires Valid() && 1 <= clamped <= count
      ensures b == Bucket(SortedOf(samples)[clamped - 1])
    {
      hide SortedOf, InBucket, UpTo, Bucket;
      var running := 0;
      b := 0;
      UpToStep(samples, -1);
      while b < BUCKETS
        invariant 0 <= b <= BUCKETS
        invariant running == UpTo(samples, b - 1) < clamped
      {
        UpToStep(samples, b);
        running := running + buckets[b];
        if running >= clamped {
          Landed(samples, b, clamped);
          return;
        }
        b := b + 1;
      }
      UpToStep(samples, BUCKETS - 1);
      assert false;
    }
  }

  /** The bucket that brings the running count to rank `r` is that of the r-th smallest. */
  lemma Landed(s: seq<uint64>, b: nat, r: nat)
    requires UpTo(s, b - 1) < r <= UpTo(s, b) && r <= |s|
    ensures Bucket(SortedOf(s)[r - 1]) == b
  {
    hide SortedOf, UpTo, Bucket;
    SortedIsOrdered(s);
    SortedUpTo(s, b);
    SortedUpTo(s, b - 1);
    OrderedCut(SortedOf(s), b, r - 1);
    OrderedCut(SortedOf(s), b - 1, r - 1);
  }

  function SumUpTo(bs: seq<nat>, b: nat): nat
    requires b <= |bs|
  {
    if b == 0 then 0 else SumUpTo(bs, b - 1) + bs[b - 1]
  }

  lemma {:induction false} Accumulated(bs: seq<nat>, s: seq<uint64>, b: nat)
    requires b <= |bs| && forall i :: 0 <= i < |bs| ==> bs[i] == InBucket(s, i)
    ensures SumUpTo(bs, b) == UpTo(s, b - 1)
  {
    UpToStep(s, b - 1);
    if b > 0 {
      Accumulated(bs, s, b - 1);
    }
  }

  lemma SumWraps(total: nat, x: uint64)
    ensures (total % TWO64 + x) % TWO64 == (total + x) % TWO64
  {
  }
}
