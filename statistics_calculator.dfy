/**
 * The sampling estimator of statistics-calculator.js: descriptive statistics
 * of a sample of per-article fact-tag counts and a t-based 95% confidence
 * interval for the population total.
 *
 * All arithmetic is exact (`real`); the two square roots the source takes
 * with `Math.sqrt` are supplied by the caller as witnesses (`IsSquareRoot`).
 */
module StatisticsCalculator {
  import opened Wrappers

  /** One sampled article: its title and the number of fact tags counted in it. */
  datatype Observation = Observation(title: string, tagCount: nat)

  /** The confidence interval for the population total. */
  datatype Interval = Interval(lower: real, upper: real)

  /** The fields that depend on the sample variance. */
  datatype Spread = Spread(
    standardDeviation: real,
    standardError: real,
    marginOfError: real,
    confidenceInterval: Interval)

  /** The descriptive-statistics block of an estimate. */
  datatype SampleData = SampleData(
    min: nat,
    max: nat,
    median: real,
    mode: Option<seq<nat>>,
    percentiles: map<nat, real>,
    counts: seq<nat>,
    articlesWithZeroTags: nat,
    articlesWithMultipleTags: nat)

  /**
   * The result of `calculateEstimate`. `spread` is `None` for a sample of one
   * article, where the source divides by `n - 1 == 0` and every
   * variance-dependent field is NaN.
   */
  datatype Estimate = Estimate(
    sampleSize: nat,
    totalTaggedArticles: nat,
    averageTagsPerArticle: real,
    estimatedTotal: real,
    spread: Option<Spread>,
    sampleData: SampleData)

  /** The error thrown for an empty sample. */
  datatype EstimateError = NoSampleData

  /** The 95% level the estimator asks `getTValue` for. */
  const Alpha: real := 0.05

  /** The percentile points reported, in the order the source fills them. */
  const PercentilePoints: seq<nat> := [25, 50, 75, 90, 95, 99]

  // ---------------------------------------------------------------------
  // Sequences of counts
  // ---------------------------------------------------------------------

  function CountsOf(obs: seq<Observation>): (counts: seq<nat>)
    ensures |counts| == |obs|
    ensures forall k :: 0 <= k < |obs| ==> counts[k] == obs[k].tagCount
  {
    seq(|obs|, k requires 0 <= k < |obs| => obs[k].tagCount)
  }

  predicate IsSorted(s: seq<nat>)
  {
    forall i, j :: 0 <= i < j < |s| ==> s[i] <= s[j]
  }

  predicate AllEqual(s: seq<nat>)
  {
    forall k :: 0 <= k < |s| ==> s[k] == s[0]
  }

  function Sum(s: seq<nat>): nat
  {
    if s == [] then 0 else s[0] + Sum(s[1..])
  }

  /** How often `v` occurs in `s` (the source's `frequency[v]`). */
  function Frequency(s: seq<nat>, v: nat): nat
  {
    multiset(s)[v]
  }

  /** `v` occurs in `s` and no value occurs more often. */
  predicate IsModal(s: seq<nat>, v: nat)
  {
    v in s && forall w :: w in s ==> Frequency(s, w) <= Frequency(s, v)
  }

  predicate StrictlyIncreasing(s: seq<nat>)
  {
    forall i, j :: 0 <= i < j < |s| ==> s[i] < s[j]
  }

  /** `root` is the value `Math.sqrt(x)` would return in exact arithmetic. */
  predicate IsSquareRoot(root: real, x: real)
  {
    root >= 0.0 && Pow(root, 2) == x
  }

  /**
   * What `calculateMode` promises: `None` (the source's `null`) exactly when
   * every distinct value is equally frequent; otherwise the values of maximal
   * frequency, each once, in ascending order.
   */
  ghost predicate IsModeOf(numbers: seq<nat>, mode: Option<seq<nat>>)
  {
    && (mode.None? <==>
          forall a, b :: a in numbers && b in numbers ==> Frequency(numbers, a) == Frequency(numbers, b))
    && (mode.Some? ==>
          && mode.value != []
          && StrictlyIncreasing(mode.value)
          && forall v :: v in mode.value <==> IsModal(numbers, v))
  }

  // ---------------------------------------------------------------------
  // Sorting (the source's `[...counts].sort((a, b) => a - b)`)
  // ---------------------------------------------------------------------

  function Insert(x: nat, s: seq<nat>): (r: seq<nat>)
    requires IsSorted(s)
    ensures IsSorted(r)
    ensures |r| == |s| + 1
    ensures multiset(r) == multiset(s) + multiset{x}
  {
    if s == [] then [x]
    else if x <= s[0] then [x] + s
    else
      var rest := Insert(x, s[1..]);
      HeadBelowInserted(x, s, rest);
      assert s == [s[0]] + s[1..];
      [s[0]] + rest
  }

  /** The head of a sorted `s` stays below everything once a larger `x` is inserted into its tail. */
  lemma HeadBelowInserted(x: nat, s: seq<nat>, rest: seq<nat>)
    requires IsSorted(s) && s != [] && s[0] < x
    requires multiset(rest) == multiset(s[1..]) + multiset{x}
    ensures forall k :: 0 <= k < |rest| ==> s[0] <= rest[k]
  {
    forall k | 0 <= k < |rest|
      ensures s[0] <= rest[k]
    {
      assert rest[k] in multiset(rest);
      if rest[k] != x {
        assert rest[k] in multiset(s[1..]);
        var j :| 0 <= j < |s[1..]| && s[1..][j] == rest[k];
        assert s[j + 1] == rest[k];
      }
    }
  }

  /** Ascending numeric sort of a copy of the counts. */
  function SortAscending(s: seq<nat>): (r: seq<nat>)
    ensures IsSorted(r)
    ensures |r| == |s|
    ensures multiset(r) == multiset(s)
  {
    if s == [] then []
    else
      assert s == [s[0]] + s[1..];
      Insert(s[0], SortAscending(s[1..]))
  }

  // ---------------------------------------------------------------------
  // Minimum and maximum (`Math.min(...counts)`, `Math.max(...counts)`)
  // ---------------------------------------------------------------------

  function MinOf(s: seq<nat>): (m: nat)
    requires |s| > 0
    ensures m in s
    ensures forall x :: x in s ==> m <= x
  {
    if |s| == 1 then s[0]
    else
      var rest := MinOf(s[1..]);
      assert s == [s[0]] + s[1..];
      if s[0] <= rest then s[0] else rest
  }

  function MaxOf(s: seq<nat>): (m: nat)
    requires |s| > 0
    ensures m in s
    ensures forall x :: x in s ==> x <= m
  {
    if |s| == 1 then s[0]
    else
      var rest := MaxOf(s[1..]);
      assert s == [s[0]] + s[1..];
      if s[0] >= rest then s[0] else rest
  }

  // ---------------------------------------------------------------------
  // Mean and variance
  // ---------------------------------------------------------------------

  /** `sum / sampleSize`: the value that, taken `n` times, gives the sum. */
  function Mean(s: seq<nat>): (m: real)
    requires |s| > 0
    ensures m * |s| as real == Sum(s) as real
  {
    Sum(s) as real / |s| as real
  }

  /** `Math.pow(x, k)` for a natural exponent. */
  function Pow(x: real, k: nat): real
  {
    if k == 0 then 1.0 else x * Pow(x, k - 1)
  }

  /** A square is never negative, and is positive unless its base is zero. */
  lemma SquarePositive(d: real)
    ensures Pow(d, 2) >= 0.0
    ensures d != 0.0 ==> Pow(d, 2) > 0.0
  {
    assert Pow(d, 0) == 1.0;
    var once := Pow(d, 1);
    assert once == d * 1.0;
    assert Pow(d, 2) == d * once;
  }

  /** The sum of `Math.pow(count - mean, 2)` over the sample. */
  function SumSquaredDiffs(s: seq<nat>, mean: real): (r: real)
    ensures r >= 0.0
  {
    if s == [] then 0.0
    else
      var d := s[0] as real - mean;
      SquarePositive(d);
      Pow(d, 2) + SumSquaredDiffs(s[1..], mean)
  }

  /** Sample variance with Bessel's correction (divisor `n - 1`). */
  function Variance(s: seq<nat>): (v: real)
    requires |s| >= 2
    ensures v >= 0.0
  {
    SumSquaredDiffs(s, Mean(s)) / (|s| - 1) as real
  }

  lemma {:induction false} SumOfConstant(s: seq<nat>, c: nat)
    requires forall k :: 0 <= k < |s| ==> s[k] == c
    ensures Sum(s) == |s| * c
  {
    if s != [] {
      SumOfConstant(s[1..], c);
    }
  }

  lemma {:induction false} SumBounds(s: seq<nat>, lo: nat, hi: nat)
    requires forall k :: 0 <= k < |s| ==> lo <= s[k] <= hi
    ensures |s| * lo <= Sum(s) <= |s| * hi
  {
    if s != [] {
      var n := |s| - 1;
      SumBounds(s[1..], lo, hi);
      MultiplySucc(n, lo);
      MultiplySucc(n, hi);
    }
  }

  lemma MultiplySucc(n: nat, x: nat)
    ensures (n + 1) * x == n * x + x
  {
  }

  /** The mean lies between the smallest and the largest count. */
  lemma MeanBetweenMinAndMax(s: seq<nat>)
    requires |s| > 0
    ensures MinOf(s) as real <= Mean(s) <= MaxOf(s) as real
  {
    var lo, hi := MinOf(s), MaxOf(s);
    forall k | 0 <= k < |s| ensures lo <= s[k] <= hi {
      assert s[k] in s;
    }
    SumBounds(s, lo, hi);
    QuotientBounds(Sum(s), |s|, lo, hi);
  }

  lemma QuotientBounds(total: nat, n: nat, lo: nat, hi: nat)
    requires n > 0 && n * lo <= total <= n * hi
    ensures lo as real <= total as real / n as real <= hi as real
  {
    var t, m, l, h := total as real, n as real, lo as real, hi as real;
    CastProduct(n, lo);
    CastProduct(n, hi);
    RealQuotientBounds(t, m, l, h);
  }

  lemma CastProduct(n: nat, x: nat)
    ensures (n * x) as real == n as real * x as real
  {
  }

  lemma RealQuotientBounds(t: real, m: real, l: real, h: real)
    requires m > 0.0 && m * l <= t <= m * h
    ensures l <= t / m <= h
  {
    var q := t / m;
    assert q * m == t;
    if q < l {
      MultiplyStrict(q, l, m);
      assert false;
    }
    if q > h {
      MultiplyStrict(h, q, m);
      assert false;
    }
  }

  lemma MultiplyStrict(a: real, b: real, c: real)
    requires a < b && c > 0.0
    ensures a * c < b * c
  {
    assert b * c - a * c == (b - a) * c;
  }

  lemma MultiplyMonotone(a: real, b: real, c: real)
    requires a <= b && c >= 0.0
    ensures a * c <= b * c
  {
    assert b * c - a * c == (b - a) * c;
  }

  /** One count away from the mean makes the sum of squared differences positive. */
  lemma {:induction false} SumSquaredDiffsPositive(s: seq<nat>, mean: real, k: nat)
    requires k < |s| && s[k] as real != mean
    ensures SumSquaredDiffs(s, mean) > 0.0
  {
    if k == 0 {
      SquarePositive(s[0] as real - mean);
    } else {
      assert s[1..][k - 1] == s[k];
      SquarePositive(s[0] as real - mean);
      SumSquaredDiffsPositive(s[1..], mean, k - 1);
    }
  }

  lemma {:induction false} SumSquaredDiffsOfMean(s: seq<nat>, mean: real)
    requires forall k :: 0 <= k < |s| ==> s[k] as real == mean
    ensures SumSquaredDiffs(s, mean) == 0.0
  {
    if s != [] {
      assert forall k :: 0 <= k < |s[1..]| ==> s[1..][k] == s[k + 1];
      SumSquaredDiffsOfMean(s[1..], mean);
      assert Pow(0.0, 2) == 0.0 by {
        assert Pow(0.0, 1) == 0.0 * Pow(0.0, 0);
      }
    }
  }

  /** The sample variance is zero exactly when every count is the same. */
  lemma VarianceZeroIffAllEqual(s: seq<nat>)
    requires |s| >= 2
    ensures Variance(s) == 0.0 <==> AllEqual(s)
  {
    var m := Mean(s);
    var n1 := (|s| - 1) as real;
    if AllEqual(s) {
      SumOfConstant(s, s[0]);
      assert Sum(s) as real == |s| as real * s[0] as real;
      assert m == s[0] as real;
      SumSquaredDiffsOfMean(s, m);
    } else {
      var k :| 0 <= k < |s| && s[k] != s[0];
      if s[0] as real == m {
        SumSquaredDiffsPositive(s, m, k);
      } else {
        SumSquaredDiffsPositive(s, m, 0);
      }
      assert Variance(s) == SumSquaredDiffs(s, m) / n1;
    }
  }

  // ---------------------------------------------------------------------
  // t-value lookup
  // ---------------------------------------------------------------------

  /**
   * The banded critical-value table of `getTValue`. Only the 95% level is
   * tabulated; any other `alpha` falls back to the normal value 1.96.
   */
  function GetTValue(degreesOfFreedom: int, alpha: real): (t: real)
    ensures 1.96 <= t <= 2.78
    ensures alpha != Alpha ==> t == 1.96
  {
    if alpha == Alpha then
      if degreesOfFreedom >= 1000 then 1.96
      else if degreesOfFreedom >= 500 then 1.96
      else if degreesOfFreedom >= 200 then 1.97
      else if degreesOfFreedom >= 100 then 1.98
      else if degreesOfFreedom >= 60 then 2.00
      else if degreesOfFreedom >= 40 then 2.02
      else if degreesOfFreedom >= 30 then 2.04
      else if degreesOfFreedom >= 25 then 2.06
      else if degreesOfFreedom >= 20 then 2.09
      else if degreesOfFreedom >= 15 then 2.13
      else if degreesOfFreedom >= 10 then 2.23
      else if degreesOfFreedom >= 5 then 2.57
      else 2.78
    else 1.96
  }

  /** More degrees of freedom never give a larger critical value. */
  lemma TValueNonIncreasing(df1: int, df2: int, alpha: real)
    requires df1 <= df2
    ensures GetTValue(df2, alpha) <= GetTValue(df1, alpha)
  {
  }

  /** The ends of the table: 2.78 below 5 degrees of freedom, 1.96 from 500 on. */
  lemma TValueTableEnds(df: int)
    ensures df < 5 ==> GetTValue(df, Alpha) == 2.78
    ensures df >= 500 ==> GetTValue(df, Alpha) == 1.96
  {
  }

  // ---------------------------------------------------------------------
  // Median and percentiles
  // ---------------------------------------------------------------------

  /**
   * `calculateMedian`: the middle element, or the mean of the two middle
   * elements; on an ascending sequence it lies between the first and the last.
   */
  function Median(sorted: seq<nat>): (m: real)
    requires |sorted| > 0
    ensures IsSorted(sorted) ==> sorted[0] as real <= m <= sorted[|sorted| - 1] as real
  {
    var middle := |sorted| / 2;
    if |sorted| % 2 == 0 then (sorted[middle - 1] + sorted[middle]) as real / 2.0
    else sorted[middle] as real
  }

  /** `Math.ceil` on a real. */
  function Ceil(x: real): (c: int)
    ensures x <= c as real < x + 1.0
    ensures c == x.Floor <==> x == x.Floor as real
  {
    if x == x.Floor as real then x.Floor else x.Floor + 1
  }

  /** The fractional rank `(p / 100) * (n - 1)`; it stays inside `[0, n - 1]`. */
  function PercentileIndex(n: nat, p: nat): (index: real)
    requires n > 0 && p <= 100
    ensures 0.0 <= index <= (n - 1) as real
  {
    var f := p as real / 100.0;
    assert 0.0 <= f <= 1.0;
    var m := (n - 1) as real;
    assert f * m <= 1.0 * m;
    f * m
  }

  /**
   * The `p`-th percentile by linear interpolation between the order
   * statistics at `floor(index)` and `ceil(index)`; whatever the order of
   * the sequence, it lies between the two elements read.
   */
  function Percentile(sorted: seq<nat>, p: nat): (r: real)
    requires |sorted| > 0 && p <= 100
    ensures var index := PercentileIndex(|sorted|, p);
      var a, b := sorted[index.Floor] as real, sorted[Ceil(index)] as real;
      if a <= b then a <= r <= b else b <= r <= a
  {
    var index := PercentileIndex(|sorted|, p);
    if index == index.Floor as real then
      sorted[index.Floor] as real
    else
      var lower := index.Floor;
      var upper := Ceil(index);
      var weight := index - lower as real;
      var a, b := sorted[lower] as real, sorted[upper] as real;
      InterpolationWithin(a, b, weight, if a <= b then a else b, if a <= b then b else a);
      a * (1.0 - weight) + b * weight
  }

  /** Interpolating between two values of `[lo, hi]` stays in `[lo, hi]`. */
  lemma InterpolationWithin(a: real, b: real, w: real, lo: real, hi: real)
    requires lo <= a <= hi && lo <= b <= hi && 0.0 <= w <= 1.0
    ensures lo <= a * (1.0 - w) + b * w <= hi
  {
    var v := 1.0 - w;
    MultiplyMonotone(lo, a, v);
    MultiplyMonotone(lo, b, w);
    SumBelow(lo * v, a * v, lo * w, b * w);
    assert lo * v + lo * w == lo * (v + w) == lo;
    MultiplyMonotone(a, hi, v);
    MultiplyMonotone(b, hi, w);
    SumBelow(a * v, hi * v, b * w, hi * w);
    assert hi * v + hi * w == hi * (v + w) == hi;
  }

  lemma SumBelow(x1: real, y1: real, x2: real, y2: real)
    requires x1 <= y1 && x2 <= y2
    ensures x1 + x2 <= y1 + y2
  {
  }

  lemma InterpolationBetween(a: real, b: real, w: real)
    requires a <= b && 0.0 <= w <= 1.0
    ensures a <= a * (1.0 - w) + b * w <= b
  {
    var d := b - a;
    assert a * (1.0 - w) == a - a * w;
    assert b * w == (a + d) * w == a * w + d * w;
    assert a * (1.0 - w) + b * w == a + w * d;
    MultiplyMonotone(0.0, w, d);
    MultiplyMonotone(w, 1.0, d);
  }

  lemma InterpolationMonotone(a: real, b: real, w1: real, w2: real)
    requires a <= b && w1 <= w2
    ensures a * (1.0 - w1) + b * w1 <= a * (1.0 - w2) + b * w2
  {
    assert a * (1.0 - w1) + b * w1 == a + w1 * (b - a);
    assert a * (1.0 - w2) + b * w2 == a + w2 * (b - a);
    MultiplyMonotone(w1, w2, b - a);
  }

  /** A percentile lies between the order statistics at the floor and the ceiling of its rank. */
  lemma PercentileBetweenNeighbours(sorted: seq<nat>, p: nat)
    requires |sorted| > 0 && p <= 100 && IsSorted(sorted)
    ensures var index := PercentileIndex(|sorted|, p);
      0 <= index.Floor <= Ceil(index) < |sorted| &&
      sorted[index.Floor] as real <= Percentile(sorted, p) <= sorted[Ceil(index)] as real
  {
    var index := PercentileIndex(|sorted|, p);
    assert index.Floor <= Ceil(index) < |sorted|;
    if index != index.Floor as real {
      var lower, upper := index.Floor, Ceil(index);
      var w := index - lower as real;
      assert upper == lower + 1 && 0.0 <= w <= 1.0;
      assert sorted[lower] <= sorted[upper];
      var a, b := sorted[lower] as real, sorted[upper] as real;
      assert Percentile(sorted, p) == a * (1.0 - w) + b * w;
      InterpolationBetween(a, b, w);
    }
  }

  /** A larger percentage gives a larger fractional rank. */
  lemma PercentileIndexMonotone(n: nat, p: nat, q: nat)
    requires n > 0 && p <= q <= 100
    ensures PercentileIndex(n, p) <= PercentileIndex(n, q)
  {
    var m := (n - 1) as real;
    assert PercentileIndex(n, p) == p as real / 100.0 * m;
    assert PercentileIndex(n, q) == q as real / 100.0 * m;
    ScaledMonotone(p as real, q as real, m);
  }

  lemma ScaledMonotone(a: real, b: real, m: real)
    requires a <= b && m >= 0.0
    ensures a / 100.0 * m <= b / 100.0 * m
  {
    MultiplyMonotone(a / 100.0, b / 100.0, m);
  }

  /** Percentiles are non-decreasing in `p`. */
  lemma PercentileMonotone(sorted: seq<nat>, p: nat, q: nat)
    requires |sorted| > 0 && IsSorted(sorted)
    requires p <= q <= 100
    ensures Percentile(sorted, p) <= Percentile(sorted, q)
  {
    var n := |sorted|;
    var ip, iq := PercentileIndex(n, p), PercentileIndex(n, q);
    PercentileIndexMonotone(n, p, q);
    PercentileBetweenNeighbours(sorted, p);
    PercentileBetweenNeighbours(sorted, q);
    var lp, lq := ip.Floor, iq.Floor;
    if lp < lq {
      assert Ceil(ip) <= lq;
      assert sorted[Ceil(ip)] <= sorted[lq];
    } else {
      assert lp == lq;
      if ip == lp as real {
      } else if iq == lq as real {
        assert false;
      } else {
        assert Ceil(ip) == Ceil(iq) == lp + 1;
        InterpolationMonotone(sorted[lp] as real, sorted[lp + 1] as real, ip - lp as real, iq - lq as real);
      }
    }
  }

  /** In exact arithmetic the 50th percentile is the median. */
  lemma MedianIsFiftiethPercentile(sorted: seq<nat>)
    requires |sorted| > 0 && IsSorted(sorted)
    ensures Percentile(sorted, 50) == Median(sorted)
  {
    var n := |sorted|;
    var index := PercentileIndex(n, 50);
    assert index == (n - 1) as real / 2.0;
    if n % 2 == 1 {
      assert index == ((n - 1) / 2) as real;
      assert index.Floor == n / 2;
    } else {
      assert index == (n / 2 - 1) as real + 0.5;
      assert index.Floor == n / 2 - 1;
      assert Ceil(index) == n / 2;
    }
  }

  /** The 0th and the 100th percentile are the smallest and the largest count. */
  lemma PercentileExtremes(sorted: seq<nat>)
    requires |sorted| > 0
    ensures Percentile(sorted, 0) == sorted[0] as real
    ensures Percentile(sorted, 100) == sorted[|sorted| - 1] as real
  {
    assert PercentileIndex(|sorted|, 100) == (|sorted| - 1) as real;
  }

  // ---------------------------------------------------------------------
  // Tallies of zero-tag and multi-tag articles
  // ---------------------------------------------------------------------

  /** `counts.filter(c => c === 0).length` */
  function ZeroTagCount(s: seq<nat>): (r: nat)
    ensures r <= |s|
  {
    if s == [] then 0 else (if s[0] == 0 then 1 else 0) + ZeroTagCount(s[1..])
  }

  /** `counts.filter(c => c > 1).length` */
  function MultiTagCount(s: seq<nat>): (r: nat)
    ensures r <= |s|
  {
    if s == [] then 0 else (if s[0] > 1 then 1 else 0) + MultiTagCount(s[1..])
  }

  /** The two filters are disjoint, so together they never exceed the sample. */
  lemma {:induction false} TalliesWithinSample(s: seq<nat>)
    ensures ZeroTagCount(s) + MultiTagCount(s) <= |s|
  {
    if s != [] {
      TalliesWithinSample(s[1..]);
    }
  }

  /** The zero-tag tally is the multiplicity of 0 in the sample. */
  lemma {:induction false} ZeroTagCountIsFrequency(s: seq<nat>)
    ensures ZeroTagCount(s) == Frequency(s, 0)
  {
    if s != [] {
      ZeroTagCountIsFrequency(s[1..]);
      assert s == [s[0]] + s[1..];
    }
  }

  /** The multi-tag tally counts every article that has neither zero tags nor exactly one. */
  lemma {:induction false} MultiTagCountIsRest(s: seq<nat>)
    ensures MultiTagCount(s) == |s| - Frequency(s, 0) - Frequency(s, 1)
  {
    if s != [] {
      MultiTagCountIsRest(s[1..]);
      assert s == [s[0]] + s[1..];
      assert multiset(s) == multiset{s[0]} + multiset(s[1..]);
    }
  }

  // ---------------------------------------------------------------------
  // Mode
  // ---------------------------------------------------------------------

  lemma {:induction false} LeastElement(s: set<nat>) returns (least: nat)
    requires s != {}
    ensures least in s && forall x :: x in s ==> least <= x
    decreases |s|
  {
    var y :| y in s;
    var rest := s - {y};
    if rest == {} {
      least := y;
      forall x | x in s
        ensures y <= x
      {
        assert x !in rest;
      }
    } else {
      var m := LeastElement(rest);
      least := if y < m then y else m;
      forall x | x in s
        ensures least <= x
      {
        if x != y {
          assert x in rest;
        }
      }
    }
  }

  lemma ModeFromTally(numbers: seq<nat>, frequency: map<nat, nat>, maxFreq: nat, top: nat, modes: seq<nat>)
    requires forall v :: v in frequency <==> v in numbers
    requires forall v :: v in frequency ==> frequency[v] == Frequency(numbers, v) <= maxFreq
    requires numbers != [] ==> top in frequency && frequency[top] == maxFreq
    requires forall v :: v in modes <==> v in frequency && frequency[v] == maxFreq
    requires StrictlyIncreasing(modes)
    ensures IsModeOf(numbers,
      if forall v :: v in frequency ==> frequency[v] == maxFreq then None else Some(modes))
  {
    if !forall v :: v in frequency ==> frequency[v] == maxFreq {
      var w :| w in frequency && frequency[w] != maxFreq;
      assert Frequency(numbers, w) != Frequency(numbers, top);
      assert top in modes;
      forall v ensures v in modes <==> IsModal(numbers, v) {
        if IsModal(numbers, v) {
          assert Frequency(numbers, top) <= Frequency(numbers, v);
        }
      }
    }
  }

  /** The first pass of `calculateMode`: each value's frequency and the largest frequency. */
  method TallyFrequencies(numbers: seq<nat>) returns (frequency: map<nat, nat>, maxFreq: nat, ghost top: nat)
    ensures forall v :: v in frequency <==> v in numbers
    ensures forall v :: v in frequency ==> frequency[v] == Frequency(numbers, v) <= maxFreq
    ensures numbers != [] ==> top in frequency && frequency[top] == maxFreq
  {
    frequency := map[];
    maxFreq := 0;
    var i := 0;
    top := 0;
    while i < |numbers|
      invariant 0 <= i <= |numbers|
      invariant forall v :: v in frequency <==> v in numbers[..i]
      invariant forall v :: v in frequency ==> frequency[v] == Frequency(numbers[..i], v)
      invariant forall v :: v in frequency ==> frequency[v] <= maxFreq
      invariant i == 0 ==> maxFreq == 0
      invariant i > 0 ==> top in frequency && frequency[top] == maxFreq
    {
      var num := numbers[i];
      assert numbers[..i + 1] == numbers[..i] + [num];
      assert multiset(numbers[..i + 1]) == multiset(numbers[..i]) + multiset{num};
      var f := (if num in frequency then frequency[num] else 0) + 1;
      ghost var before := frequency;
      frequency := frequency[num := f];
      forall v | v in frequency
        ensures frequency[v] == Frequency(numbers[..i + 1], v)
      {
        if v != num {
          assert v in before;
        }
      }
      if f > maxFreq {
        maxFreq := f;
        top := num;
      }
      i := i + 1;
    }
    assert numbers[..i] == numbers;

  }

  /**
   * The second pass of `calculateMode`: the values of maximal frequency in
   * ascending key order, and whether every value has that frequency.
   */
  method CollectModes(frequency: map<nat, nat>, maxFreq: nat) returns (modes: seq<nat>)
    ensures forall v :: v in modes <==> v in frequency && frequency[v] == maxFreq
    ensures StrictlyIncreasing(modes)
    ensures |modes| == |frequency.Keys| <==> forall v :: v in frequency ==> frequency[v] == maxFreq
  {
    var remaining := frequency.Keys;
    modes := [];
    while remaining != {}
      invariant remaining <= frequency.Keys
      invariant forall v :: v in modes <==> v in frequency && v !in remaining && frequency[v] == maxFreq
      invariant StrictlyIncreasing(modes)
      invariant forall m, r :: m in modes && r in remaining ==> m < r
      invariant |modes| + |remaining| <= |frequency.Keys|
      invariant |modes| + |remaining| == |frequency.Keys| <==>
        forall v :: v in frequency && v !in remaining ==> frequency[v] == maxFreq
      decreases remaining
    {
      ghost var least := LeastElement(remaining);
      var k :| k in remaining && forall x :: x in remaining ==> k <= x;
      if frequency[k] == maxFreq {
        forall j | 0 <= j < |modes|
          ensures modes[j] < k
        {
          assert modes[j] in modes;
        }
        modes := modes + [k];
      }
      assert |remaining - {k}| == |remaining| - 1;
      remaining := remaining - {k};
    }

  }

  /**
   * `calculateMode`: count the frequency of every value, keep the largest
   * frequency, then collect the values of that frequency in the order
   * JavaScript enumerates integer keys (ascending); report `None` when that
   * collection holds every distinct value.
   */
  method CalculateMode(numbers: seq<nat>) returns (mode: Option<seq<nat>>)
    ensures IsModeOf(numbers, mode)
  {
    var frequency, maxFreq, top := TallyFrequencies(numbers);
    var modes := CollectModes(frequency, maxFreq);
    mode := if |modes| == |frequency.Keys| then None else Some(modes);
    ModeFromTally(numbers, frequency, maxFreq, top, modes);
  }

  // ---------------------------------------------------------------------
  // Percentile table
  // ---------------------------------------------------------------------

  /**
   * `calculatePercentiles`: the interpolated percentile of an ascending
   * sample at each of the points 25, 50, 75, 90, 95 and 99. On a sorted
   * sample the entries are non-decreasing in the point.
   */
  method CalculatePercentiles(sorted: seq<nat>) returns (percentiles: map<nat, real>)
    requires |sorted| > 0
    ensures percentiles.Keys == set p | p in PercentilePoints
    ensures forall p :: p in percentiles ==> percentiles[p] == Percentile(sorted, p)
    ensures IsSorted(sorted) ==>
      forall p, q :: p in percentiles && q in percentiles && p <= q ==> percentiles[p] <= percentiles[q]
  {
    percentiles := map[];
    var k := 0;
    while k < |PercentilePoints|
      invariant 0 <= k <= |PercentilePoints|
      invariant percentiles.Keys == set j | 0 <= j < k :: PercentilePoints[j]
      invariant forall p :: p in percentiles ==> p <= 100 && percentiles[p] == Percentile(sorted, p)
    {
      var p := PercentilePoints[k];
      percentiles := percentiles[p := Percentile(sorted, p)];
      k := k + 1;
    }
    assert (set j | 0 <= j < |PercentilePoints| :: PercentilePoints[j]) == set p | p in PercentilePoints;
    if IsSorted(sorted) {
      forall p, q | p in percentiles && q in percentiles && p <= q
        ensures percentiles[p] <= percentiles[q]
      {
        PercentileMonotone(sorted, p, q);
      }
    }
  }

  // ---------------------------------------------------------------------
  // The estimate
  // ---------------------------------------------------------------------

  function MaxReal(a: real, b: real): real
  {
    if a >= b then a else b
  }

  lemma RootOfPositive(root: real, x: real)
    requires IsSquareRoot(root, x) && x > 0.0
    ensures root > 0.0
  {
    if root == 0.0 {
      assert false;
    }
  }

  lemma RootOfZero(root: real)
    requires IsSquareRoot(root, 0.0)
    ensures root == 0.0
  {
    SquarePositive(root);
  }

  lemma DivideNonNegative(a: real, b: real)
    requires a >= 0.0 && b > 0.0
    ensures a / b >= 0.0
  {
    if a / b < 0.0 {
      assert false;
    }
  }

  lemma MultiplyNonNegative(a: real, b: real)
    requires a >= 0.0 && b >= 0.0
    ensures a * b >= 0.0
  {
    MultiplyMonotone(0.0, a, b);
  }

  /** The point estimate: the sample mean scaled to the tagged population. */
  function EstimatedTotal(counts: seq<nat>, population: nat): (total: real)
    requires |counts| > 0
    ensures total >= 0.0
  {
    DivideNonNegative(Sum(counts) as real, |counts| as real);
    MultiplyNonNegative(Mean(counts), population as real);
    Mean(counts) * population as real
  }

  /**
   * The variance-dependent part of `calculateEstimate`: standard deviation,
   * standard error, the margin of error scaled to the population, and the
   * 95% interval around the estimated total with its lower end clamped at 0.
   */
  function SpreadOf(counts: seq<nat>, population: nat, rootVariance: real, rootSampleSize: real): (r: Spread)
    requires |counts| >= 2
    requires IsSquareRoot(rootVariance, Variance(counts))
    requires IsSquareRoot(rootSampleSize, |counts| as real)
    ensures r.standardDeviation >= 0.0 && r.standardError >= 0.0 && r.marginOfError >= 0.0
    ensures var estimatedTotal := EstimatedTotal(counts, population);
      && r.confidenceInterval.lower == MaxReal(0.0, estimatedTotal - r.marginOfError)
      && r.confidenceInterval.upper == estimatedTotal + r.marginOfError
      && 0.0 <= r.confidenceInterval.lower <= estimatedTotal <= r.confidenceInterval.upper
  {
    var standardDeviation := rootVariance;
    RootOfPositive(rootSampleSize, |counts| as real);
    var standardError := standardDeviation / rootSampleSize;
    DivideNonNegative(standardDeviation, rootSampleSize);
    var tValue := GetTValue(|counts| - 1, Alpha);
    var marginOfErrorMean := tValue * standardError;
    MultiplyNonNegative(tValue, standardError);
    var estimatedTotal := EstimatedTotal(counts, population);
    var marginOfError := marginOfErrorMean * population as real;
    MultiplyNonNegative(marginOfErrorMean, population as real);
    Spread(standardDeviation, standardError, marginOfError,
      Interval(MaxReal(0.0, estimatedTotal - marginOfError), estimatedTotal + marginOfError))
  }

  lemma SortedEnds(s: seq<nat>, sorted: seq<nat>)
    requires |s| > 0 && IsSorted(sorted) && multiset(sorted) == multiset(s)
    ensures |sorted| == |s|
    ensures sorted[0] == MinOf(s) && sorted[|sorted| - 1] == MaxOf(s)
  {
    assert |sorted| == |multiset(sorted)| == |multiset(s)| == |s|;
    var first, last := sorted[0], sorted[|sorted| - 1];
    assert first in multiset(s) && last in multiset(s);
    assert first in s && last in s;
    var lo, hi := MinOf(s), MaxOf(s);
    assert lo in multiset(sorted) && hi in multiset(sorted);
    var i :| 0 <= i < |sorted| && sorted[i] == lo;
    var j :| 0 <= j < |sorted| && sorted[j] == hi;
    assert first <= sorted[i] && sorted[j] <= last;
  }

  /**
   * `calculateEstimate`: fails on an empty sample; otherwise reports the
   * sample mean, the estimated total `mean * totalTaggedArticles`, the
   * interval (absent for a single observation, where the source computes
   * NaN) and the descriptive statistics of the counts.
   */
  method CalculateEstimate(
    tagCounts: seq<Observation>, totalTaggedArticles: nat, rootVariance: real, rootSampleSize: real)
    returns (result: Result<Estimate, EstimateError>)
    requires |tagCounts| >= 2 ==> IsSquareRoot(rootVariance, Variance(CountsOf(tagCounts)))
    requires |tagCounts| >= 2 ==> IsSquareRoot(rootSampleSize, |tagCounts| as real)
    ensures tagCounts == [] <==> result == Failure(NoSampleData)
    ensures result.Success? ==>
      var e := result.value;
      var counts := CountsOf(tagCounts);
      && e.sampleSize == |tagCounts|
      && e.totalTaggedArticles == totalTaggedArticles
      && e.averageTagsPerArticle == Mean(counts)
      && e.estimatedTotal == EstimatedTotal(counts, totalTaggedArticles)
      && e.estimatedTotal >= 0.0
      && (e.spread.Some? <==> |counts| >= 2)
      && (e.spread.Some? ==>
            e.spread.value == SpreadOf(counts, totalTaggedArticles, rootVariance, rootSampleSize))
      && e.sampleData.counts == counts
      && e.sampleData.min in counts && (forall c :: c in counts ==> e.sampleData.min <= c)
      && e.sampleData.max in counts && (forall c :: c in counts ==> c <= e.sampleData.max)
      && e.sampleData.median == Median(SortAscending(counts))
      && e.sampleData.min as real <= e.sampleData.median <= e.sampleData.max as real
      && e.sampleData.percentiles.Keys == (set p | p in PercentilePoints)
      && (forall p :: p in e.sampleData.percentiles ==>
            e.sampleData.percentiles[p] == Percentile(SortAscending(counts), p))
      && IsModeOf(counts, e.sampleData.mode)
      && e.sampleData.articlesWithZeroTags == Frequency(counts, 0)
      && e.sampleData.articlesWithMultipleTags == MultiTagCount(counts)
      && e.sampleData.articlesWithMultipleTags == |counts| - Frequency(counts, 0) - Frequency(counts, 1)
      && e.sampleData.articlesWithZeroTags + e.sampleData.articlesWithMultipleTags <= |counts|
  {
    var counts := CountsOf(tagCounts);
    var sampleSize := |counts|;
    if sampleSize == 0 {
      return Failure(NoSampleData);
    }
    var mean := Mean(counts);
    var estimatedTotal := EstimatedTotal(counts, totalTaggedArticles);
    var spread := if sampleSize >= 2
      then Some(SpreadOf(counts, totalTaggedArticles, rootVariance, rootSampleSize))
      else None;

    var sortedCounts := SortAscending(counts);
    var median := Median(sortedCounts);
    var mode := CalculateMode(counts);
    var percentiles := CalculatePercentiles(sortedCounts);

    SortedEnds(counts, sortedCounts);
    ZeroTagCountIsFrequency(counts);
    MultiTagCountIsRest(counts);
    TalliesWithinSample(counts);
    var sampleData := SampleData(
      MinOf(counts), MaxOf(counts), median, mode, percentiles, counts,
      ZeroTagCount(counts), MultiTagCount(counts));
    result := Success(Estimate(sampleSize, totalTaggedArticles, mean, estimatedTotal, spread, sampleData));
  }

  // ---------------------------------------------------------------------
  // Properties of the interval
  // ---------------------------------------------------------------------

  /**
   * When every count is the same, the standard deviation and the margin are
   * zero and the interval collapses to the point estimate.
   */
  lemma EqualCountsCollapseInterval(counts: seq<nat>, population: nat, rootVariance: real, rootSampleSize: real)
    requires |counts| >= 2 && AllEqual(counts)
    requires IsSquareRoot(rootVariance, Variance(counts))
    requires IsSquareRoot(rootSampleSize, |counts| as real)
    ensures var r := SpreadOf(counts, population, rootVariance, rootSampleSize);
      var estimatedTotal := EstimatedTotal(counts, population);
      && r.standardDeviation == 0.0
      && r.standardError == 0.0
      && r.marginOfError == 0.0
      && r.confidenceInterval == Interval(estimatedTotal, estimatedTotal)
  {
    VarianceZeroIffAllEqual(counts);
    RootOfZero(rootVariance);
  }

  /** An all-zero sample estimates a total of 0 with the interval [0, 0]. */
  lemma AllZeroSampleEstimatesZero(counts: seq<nat>, population: nat, rootVariance: real, rootSampleSize: real)
    requires |counts| >= 2 && forall k :: 0 <= k < |counts| ==> counts[k] == 0
    requires IsSquareRoot(rootVariance, Variance(counts))
    requires IsSquareRoot(rootSampleSize, |counts| as real)
    ensures EstimatedTotal(counts, population) == 0.0
    ensures SpreadOf(counts, population, rootVariance, rootSampleSize).confidenceInterval == Interval(0.0, 0.0)
  {
    SumOfConstant(counts, 0);
    EqualCountsCollapseInterval(counts, population, rootVariance, rootSampleSize);
  }

  /**
   * A worked sample of four articles with 4, 4, 4 and 0 tags out of 100
   * tagged articles: mean 3, sample variance 4 (standard deviation 2,
   * standard error 2 / 2 = 1), t = 2.78 for 3 degrees of freedom, so the
   * estimate is 300 with the interval [22, 578].
   */
  lemma WorkedSample()
    ensures Mean([4, 4, 4, 0]) == 3.0
    ensures Variance([4, 4, 4, 0]) == 4.0
    ensures IsSquareRoot(2.0, Variance([4, 4, 4, 0])) && IsSquareRoot(2.0, 4.0)
    ensures EstimatedTotal([4, 4, 4, 0], 100) == 300.0
    ensures SpreadOf([4, 4, 4, 0], 100, 2.0, 2.0) == Spread(2.0, 1.0, 278.0, Interval(22.0, 578.0))
  {
    var counts: seq<nat> := [4, 4, 4, 0];
    assert Sum(counts) == 12;
    assert Mean(counts) == 3.0;
    assert Pow(1.0, 2) == 1.0 && Pow(-3.0, 2) == 9.0;
    assert SumSquaredDiffs([0], 3.0) == 9.0;
    assert SumSquaredDiffs([4, 0], 3.0) == 10.0;
    assert SumSquaredDiffs([4, 4, 0], 3.0) == 11.0;
    assert SumSquaredDiffs(counts, 3.0) == 12.0;
    assert Pow(2.0, 2) == 4.0;
  }

  /** On [1, 1, 2] the single most frequent value 1 is the mode. */
  lemma ModeOfSingleMostFrequent()
    ensures IsModeOf([1, 1, 2], Some([1]))
    ensures !IsModeOf([1, 1, 2], None)
  {
    var a: seq<nat> := [1, 1, 2];
    assert multiset(a) == multiset{1, 1, 2};
    assert Frequency(a, 1) == 2 && Frequency(a, 2) == 1;
    forall v ensures v in [1] <==> IsModal(a, v) {
      if IsModal(a, v) {
        assert Frequency(a, 1) <= Frequency(a, v);
      }
    }
  }

  /** All-distinct and all-equal samples tie every value, so they have no mode. */
  lemma NoModeWhenAllTied()
    ensures IsModeOf([1, 2, 3], None)
    ensures IsModeOf([2, 2, 2], None)
  {
    var b: seq<nat> := [1, 2, 3];
    assert multiset(b) == multiset{1, 2, 3};
    forall x | x in b
      ensures Frequency(b, x) == 1
    {
    }
    var c: seq<nat> := [2, 2, 2];
    assert multiset(c) == multiset{2, 2, 2};
    forall x | x in c
      ensures x == 2
    {
    }
  }
}
