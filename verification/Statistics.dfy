/**
  Integer statistics of the speed test: the population deviation used for ping results
  and the sample deviation behind the three-sigma outlier filter. All arithmetic is
  64-bit with wrap-around, division truncates toward zero.
 */
module Statistics {

  import opened Options

  const TWO_63: int := 0x8000_0000_0000_0000
  const TWO_64: int := 0x1_0000_0000_0000_0000

  type int64 = x: int | -TWO_63 <= x < TWO_63

  predicate Fits(x: int) { -TWO_63 <= x < TWO_63 }

  /** Two's complement wrap-around. */
  function Wrap(x: int): (r: int64)
    ensures Fits(x) ==> r == x
  {
    (x + TWO_63) % TWO_64 - TWO_63
  }

  /** What wraps around differs by a multiple of 2^64. */
  lemma WrapIs(x: int)
    ensures (Wrap(x) - x) % TWO_64 == 0
  {
    var q, r := (x + TWO_63) / TWO_64, (x + TWO_63) % TWO_64;
    assert x + TWO_63 == q * TWO_64 + r;
    assert Wrap(x) - x == -q * TWO_64;
  }

  /** Division that truncates toward zero. */
  function TruncDiv(a: int, n: int): int
    requires n > 0
  {
    if a >= 0 then a / n else -((-a) / n)
  }

  function ISqrt(x: nat): (r: nat)
    ensures r * r <= x < (r + 1) * (r + 1)
  {
    if x == 0 then 0
    else
      var r := ISqrt(x - 1);
      if (r + 1) * (r + 1) <= x then r + 1 else r
  }

  // ---------------------------------------------------------------- exact sums

  function Sum(v: seq<int>): int
  {
    if |v| == 0 then 0 else Sum(v[..|v| - 1]) + v[|v| - 1]
  }

  function SumSquares(v: seq<int>): int
  {
    if |v| == 0 then 0 else SumSquares(v[..|v| - 1]) + v[|v| - 1] * v[|v| - 1]
  }

  /** The squared deviations from `m`, added up. */
  function Scatter(v: seq<int>, m: int): (r: nat)
  {
    if |v| == 0 then 0 else Scatter(v[..|v| - 1], m) + Square(v[|v| - 1] - m)
  }

  function Square(x: int): nat { x * x }

  function Mean(v: seq<int>): int
    requires |v| > 0
  {
    TruncDiv(Sum(v), |v|)
  }

  function PopulationVariance(v: seq<int>): nat
    requires |v| > 0
  {
    Scatter(v, Mean(v)) / |v|
  }

  function SampleVarianceOf(v: seq<int>): nat
    requires |v| > 1
  {
    Scatter(v, Mean(v)) / (|v| - 1)
  }

  /** No 64-bit step of the two loops leaves the representable range. */
  ghost predicate NoOverflow(v: seq<int64>)
  {
    |v| > 0 ==>
      && Fits(|v|)
      && SumsFit(v)
      && (forall i :: 0 <= i < |v| ==> Fits(v[i] - Mean(v)) && Fits(Square(v[i] - Mean(v))))
      && (forall k :: 0 <= k <= |v| ==> Fits(Scatter(v[..k], Mean(v))))
  }

  /** The extreme values of a nonempty vector. */
  ghost predicate Extremes(v: seq<int>, min: int, max: int)
  {
    min in v && max in v && forall i :: 0 <= i < |v| ==> min <= v[i] <= max
  }

  // ---------------------------------------------------------------- the loops

  /** All partial sums are representable. */
  ghost predicate SumsFit(v: seq<int64>)
  {
    forall k :: 0 <= k <= |v| ==> Fits(Sum(v[..k]))
  }

  lemma SumStep(v: seq<int64>, i: nat)
    requires i < |v|
    ensures Sum(v[..i + 1]) == Sum(v[..i]) + v[i]
  {
    assert v[..i + 1][..i] == v[..i];
  }

  lemma ExtremesStep(v: seq<int>, i: nat, min: int, max: int)
    requires i < |v| && (i > 0 ==> Extremes(v[..i], min, max)) && (i == 0 ==> min >= v[0] && max <= v[0])
    ensures Extremes(v[..i + 1], if min > v[i] then v[i] else min, if max < v[i] then v[i] else max)
  {
    assert v[..i + 1] == v[..i] + [v[i]];
    assert v[i] in v[..i + 1];
  }

  /** First loop of both functions: sum, minimum and maximum. */
  method SumAndExtremes(v: seq<int64>) returns (sumNum: int64, min: int64, max: int64)
    ensures SumsFit(v) ==> sumNum == Sum(v)
    ensures |v| > 0 ==> Extremes(v, min, max)
  {
    sumNum, min, max := 0, TWO_63 - 1, -TWO_63;
    var i := 0;
    while i < |v|
      invariant 0 <= i <= |v|
      invariant SumsFit(v) ==> sumNum == Sum(v[..i])
      invariant i > 0 ==> Extremes(v[..i], min, max)
      invariant i == 0 ==> min == TWO_63 - 1 && max == -TWO_63
    {
      SumStep(v, i);
      ExtremesStep(v, i, min, max);
      sumNum := Wrap(sumNum + v[i]);
      if min > v[i] {
        min := v[i];
      }
      if max < v[i] {
        max := v[i];
      }
      i := i + 1;
    }
    assert v[..i] == v;
  }

  /** Second loop of both functions: the accumulated squares around the mean. */
  method AccumulateSquares(v: seq<int64>, mean: int64) returns (accumulate: int64)
    ensures NoOverflow(v) && |v| > 0 && mean == Mean(v) ==> accumulate == Scatter(v, mean)
  {
    accumulate := 0;
    var i := 0;
    ghost var ok := NoOverflow(v) && |v| > 0 && mean == Mean(v);
    while i < |v|
      invariant 0 <= i <= |v|
      invariant ok ==> accumulate == Scatter(v[..i], mean)
    {
      var d := Wrap(v[i] - mean);
      var square := Wrap(Square(d));
      if ok { ScatterStep(v, i); }
      accumulate := Wrap(accumulate + square);
      i := i + 1;
    }
    assert v[..i] == v;
  }

  lemma ScatterStep(v: seq<int64>, i: nat)
    requires NoOverflow(v) && i < |v|
    ensures Fits(v[i] - Mean(v)) && Fits(Square(v[i] - Mean(v)))
    ensures Scatter(v[..i + 1], Mean(v)) == Scatter(v[..i], Mean(v)) + Square(v[i] - Mean(v))
    ensures Fits(Scatter(v[..i + 1], Mean(v)))
  {
    assert v[..i + 1][..i] == v[..i];
  }

  datatype Stats = Stats(mean: int64, variance: int64, stdDev: int64, min: int64, max: int64)

  method StandardDeviation(v: seq<int64>) returns (r: Stats)
    ensures |v| == 0 ==> r == Stats(0, 0, 0, 0, 0)
    ensures |v| > 0 ==> Extremes(v, r.min, r.max)
    ensures |v| > 0 && NoOverflow(v) ==>
      r.mean == Mean(v) && r.variance == PopulationVariance(v) && r.stdDev == ISqrt(r.variance)
  {
    if |v| == 0 {
      return Stats(0, 0, 0, 0, 0);
    }
    var sumNum, min, max := SumAndExtremes(v);
    assert v[..|v|] == v;
    var mean := Wrap(TruncDiv(sumNum, |v|));
    if NoOverflow(v) { MeanBetween(v, min, max); }
    var accumulate := AccumulateSquares(v, mean);
    var variance := Wrap(TruncDiv(accumulate, |v|));
    if NoOverflow(v) { QuotientFits(Scatter(v, Mean(v)), |v|); }
    var stdDev: int64 := *;             // the root of a negative number converts to anything
    if variance >= 0 {
      RootFits(variance);
      stdDev := ISqrt(variance);
    }
    return Stats(mean, variance, stdDev, min, max);
  }

  /** A single sample divides by zero, which is None. */
  method SampleVariance(v: seq<int64>) returns (r: Option<Stats>)
    ensures r.None? <==> |v| == 1
    ensures |v| == 0 ==> r == Some(Stats(0, 0, 0, 0, 0))
    ensures |v| > 1 ==> Extremes(v, r.value.min, r.value.max)
    ensures |v| > 1 && NoOverflow(v) ==>
      && r.value.mean == Mean(v) && r.value.variance == SampleVarianceOf(v)
      && r.value.stdDev == ISqrt(r.value.variance)
  {
    if |v| == 0 {
      return Some(Stats(0, 0, 0, 0, 0));
    }
    var sumNum, min, max := SumAndExtremes(v);
    assert v[..|v|] == v;
    var mean := Wrap(TruncDiv(sumNum, |v|));
    if NoOverflow(v) { MeanBetween(v, min, max); }
    var accumulate := AccumulateSquares(v, mean);
    if |v| == 1 {
      return None;
    }
    var variance := Wrap(TruncDiv(accumulate, |v| - 1));
    if NoOverflow(v) { QuotientFits(Scatter(v, Mean(v)), |v| - 1); }
    var stdDev: int64 := *;
    if variance >= 0 {
      RootFits(variance);
      stdDev := ISqrt(variance);
    }
    return Some(Stats(mean, variance, stdDev, min, max));
  }

  function Abs(x: int): nat { if x < 0 then -x else x }

  /** Whether the three-sigma rule keeps a sample. */
  predicate Keeps(x: int, mean: int, std: int) { Abs(x - mean) < 3 * std }

  function Filter(v: seq<int64>, mean: int, std: int): seq<int64>
  {
    if |v| == 0 then []
    else
      var front := Filter(v[..|v| - 1], mean, std);
      if Keeps(v[|v| - 1], mean, std) then front + [v[|v| - 1]] else front
  }

  /** No sample is lost, reordered or invented except by the rule; None is the division by zero. */
  method PautaFilter(v: seq<int64>) returns (r: Option<seq<int64>>)
    ensures r.None? <==> |v| == 1
    ensures |v| == 0 ==> r == Some([])
    ensures |v| > 1 && NoOverflow(v) ==> r.value == Filter(v, Mean(v), ISqrt(SampleVarianceOf(v)))
  {
    if |v| == 0 {
      return Some(v);
    }
    var s := SampleVariance(v);
    if s.None? {
      return None;
    }
    var mean: int, std: int := s.value.mean, s.value.stdDev;
    var kept := [];
    var i := 0;
    ghost var ok := NoOverflow(v);
    if ok { ThreeRootsFit(v); }
    while i < |v|
      invariant 0 <= i <= |v|
      invariant ok ==> kept == Filter(v[..i], mean, std)
    {
      assert v[..i + 1][..i] == v[..i];
      var x: int := v[i];
      if Abs(Wrap(x - mean)) < Wrap(3 * std) {
        kept := kept + [v[i]];
      }
      i := i + 1;
    }
    assert v[..i] == v;
    return Some(kept);
  }

  // ---------------------------------------------------------------- mean and variance

  lemma {:induction false} SumBetween(v: seq<int>, lo: int, hi: int)
    requires forall i :: 0 <= i < |v| ==> lo <= v[i] <= hi
    ensures lo * |v| <= Sum(v) <= hi * |v|
  {
    if |v| > 0 {
      SumBetween(v[..|v| - 1], lo, hi);
      assert lo * |v| == lo * (|v| - 1) + lo && hi * |v| == hi * (|v| - 1) + hi;
    }
  }

  lemma CancelLess(a: int, b: int, n: int)
    requires n > 0 && a * n < b * n
    ensures a < b
  {
    assert (b - a) * n == b * n - a * n;
  }

  lemma OneMoreTimes(x: int, n: int)
    ensures (x + 1) * n == x * n + n && (-x) * n == -(x * n)
  {
  }

  lemma QuotientAtMost(a: nat, n: int, hi: int)
    requires n > 0 && a <= hi * n
    ensures a / n <= hi
  {
    QuotientBounds(a, n);
    OneMoreTimes(hi, n);
    CancelLess(a / n, hi + 1, n);
  }

  lemma QuotientAtLeast(a: nat, n: int, lo: int)
    requires n > 0 && lo * n <= a
    ensures lo <= a / n
  {
    QuotientBounds(a, n);
    OneMoreTimes(a / n, n);
    CancelLess(lo, a / n + 1, n);
  }

  lemma TruncDivBetween(a: int, n: int, lo: int, hi: int)
    requires n > 0 && lo * n <= a <= hi * n
    ensures lo <= TruncDiv(a, n) <= hi
  {
    if a >= 0 {
      QuotientAtLeast(a, n, lo);
      QuotientAtMost(a, n, hi);
    } else {
      OneMoreTimes(lo, n);
      OneMoreTimes(hi, n);
      QuotientAtLeast(-a, n, -hi);
      QuotientAtMost(-a, n, -lo);
    }
  }

  /** The truncated mean still lies between the extremes. */
  lemma MeanBetween(v: seq<int>, min: int, max: int)
    requires |v| > 0 && Extremes(v, min, max)
    ensures min <= Mean(v) <= max
  {
    SumBetween(v, min, max);
    TruncDivBetween(Sum(v), |v|, min, max);
  }

  lemma QuotientFits(a: nat, n: int)
    requires n > 0 && Fits(a)
    ensures Fits(a / n) && TruncDiv(a, n) == a / n
  {
    var q := a / n;
    QuotientBounds(a, n);
    MulMonotone(q, 1, n);
  }

  lemma QuotientBounds(a: nat, n: int)
    requires n > 0
    ensures 0 <= a / n && (a / n) * n <= a < (a / n) * n + n
  {
  }

  lemma RootFits(x: nat)
    requires Fits(x)
    ensures ISqrt(x) < 0x1_0000_0000 && Fits(3 * ISqrt(x))
  {
    if ISqrt(x) >= 0x1_0000_0000 { BigSquare(ISqrt(x)); }
  }

  lemma BigSquare(r: nat)
    requires r >= 0x1_0000_0000
    ensures r * r >= TWO_64
  {
    MulMonotone(r, 0x1_0000_0000, r);
  }

  /** The limit of the filter stays representable. */
  lemma ThreeRootsFit(v: seq<int64>)
    requires |v| > 1 && NoOverflow(v)
    ensures Fits(3 * ISqrt(SampleVarianceOf(v)))
  {
    assert v[..|v|] == v;
    QuotientFits(Scatter(v, Mean(v)), |v| - 1);
    RootFits(SampleVarianceOf(v));
  }

  lemma {:induction false} ScatterExpands(v: seq<int>, m: int)
    ensures Scatter(v, m) == SumSquares(v) - 2 * m * Sum(v) + |v| * (m * m)
  {
    if |v| > 0 {
      var front, x := v[..|v| - 1], v[|v| - 1];
      ScatterExpands(front, m);
      ExpandStep(SumSquares(front), Sum(front), |front|, x, m);
    }
  }

  lemma ExpandStep(q: int, s: int, n: int, x: int, m: int)
    ensures q - 2 * m * s + n * (m * m) + Square(x - m) == (q + x * x) - 2 * m * (s + x) + (n + 1) * (m * m)
  {
    assert (x - m) * (x - m) == x * x - 2 * m * x + m * m;
    assert 2 * m * (s + x) == 2 * m * s + 2 * m * x;
    assert (n + 1) * (m * m) == n * (m * m) + m * m;
  }

  /** What truncation of the mean adds to the scatter: a square below n*n. */
  lemma ScatterAroundTruncatedMean(v: seq<int>)
    requires |v| > 0
    ensures var n, r := |v|, Sum(v) - |v| * Mean(v);
            n * Scatter(v, Mean(v)) == n * SumSquares(v) - Sum(v) * Sum(v) + r * r && r * r < n * n
  {
    var n, m, s := |v|, Mean(v), Sum(v);
    var r := s - n * m;
    ScatterExpands(v, m);
    CompleteTheSquare(n, m, s, SumSquares(v));
    TruncRemainder(s, n);
    SquareLess(r, n);
  }

  lemma SquareLess(r: int, n: int)
    requires -n < r < n
    ensures r * r < n * n
  {
    Product(n - r, n + r);
    assert (n - r) * (n + r) == n * n - r * r;
  }

  lemma Product(a: int, b: int)
    requires a > 0 && b > 0
    ensures a * b > 0
  {
  }

  lemma CompleteTheSquare(n: int, m: int, s: int, q: int)
    ensures n * (q - 2 * m * s + n * (m * m)) == n * q - s * s + (s - n * m) * (s - n * m)
  {
    var p := n * m;
    assert (s - p) * (s - p) == s * s - 2 * (s * p) + p * p;
    assert n * (2 * m * s) == 2 * (s * p);
    assert n * (n * (m * m)) == p * p;
    assert n * (q - 2 * m * s + n * (m * m)) == n * q - n * (2 * m * s) + n * (n * (m * m));
  }

  lemma Commutes(a: int, b: int)
    ensures a * b == b * a
  {
  }

  lemma TruncRemainder(a: int, n: int)
    requires n > 0
    ensures -n < a - n * TruncDiv(a, n) < n
    ensures (a >= 0 ==> a - n * TruncDiv(a, n) >= 0) && (a <= 0 ==> a - n * TruncDiv(a, n) <= 0)
  {
    if a < 0 {
      QuotientBounds(-a, n);
      OneMoreTimes((-a) / n, n);
      Commutes(n, -((-a) / n));
    } else {
      QuotientBounds(a, n);
      Commutes(n, a / n);
    }
  }

  /** The reported variance and the exact population variance differ by less than one. */
  lemma VarianceWithinOne(v: seq<int>)
    requires |v| > 0
    ensures var n := |v| as real;
            var exact := (SumSquares(v) as real) / n - ((Sum(v) as real) / n) * ((Sum(v) as real) / n);
            -1.0 < PopulationVariance(v) as real - exact < 1.0
  {
    var n, a, r := |v|, Scatter(v, Mean(v)), Sum(v) - |v| * Mean(v);
    ScatterAroundTruncatedMean(v);
    WithinSquare(n, a, n * SumSquares(v) - Sum(v) * Sum(v), r);
    WithinOneReal(n, a / n, SumSquares(v), Sum(v));
  }

  /** The sample variance lies above the exact one by less than n / (n - 1), or below it by less than one. */
  lemma SampleVarianceWithin(v: seq<int>)
    requires |v| > 1
    ensures var n := |v|;
            var exact := n * SumSquares(v) - Sum(v) * Sum(v);    // n * (n - 1) times the exact sample variance
            -(n * (n - 1)) < n * (n - 1) * SampleVarianceOf(v) - exact < n * n
  {
    var n, a, r := |v|, Scatter(v, Mean(v)), Sum(v) - |v| * Mean(v);
    var exact, w := n * SumSquares(v) - Sum(v) * Sum(v), SampleVarianceOf(v);
    ScatterAroundTruncatedMean(v);
    QuotientBounds(a, n - 1);
    assert n * (n - 1) * w == n * (w * (n - 1)) by { Rearrange(n, n - 1, w); }
    MulMonotone(n, w * (n - 1), a);
    MulMonotone(n, a, w * (n - 1) + (n - 2));
    assert n * (w * (n - 1) + (n - 2)) == n * (w * (n - 1)) + n * (n - 1) - n by { Distribute(n, w * (n - 1)); }
    SquareNotNegative(r);
  }

  lemma Rearrange(a: int, b: int, c: int)
    ensures a * b * c == a * (c * b)
  {
  }

  lemma Distribute(n: int, x: int)
    ensures n * (x + (n - 2)) == n * x + n * (n - 1) - n
  {
  }

  lemma SquareNotNegative(r: int)
    ensures r * r >= 0
  {
  }

  lemma WithinSquare(n: int, a: int, d: int, r: int)
    requires n > 0 && a >= 0 && n * a == d + r * r && r * r < n * n
    ensures -(n * n) < n * ((a / n) * n) - d < n * n
  {
    var b := (a / n) * n;
    QuotientBounds(a, n);
    MulMonotone(n, b, a);
    MulMonotone(n, a, b + (n - 1));
    Spread(n, b);
    SquareNotNegative(r);
  }

  lemma Spread(n: int, b: int)
    ensures n * (b + (n - 1)) == n * b + n * n - n
  {
  }

  lemma WithinOneReal(n: int, w: int, q: int, s: int)
    requires n > 0 && -(n * n) < n * (w * n) - (n * q - s * s) < n * n
    ensures var m := n as real;
            var exact := (q as real) / m - ((s as real) / m) * ((s as real) / m);
            -1.0 < w as real - exact < 1.0
  {
    var m, x, y := n as real, q as real, s as real;
    var a, b := x / m, y / m;
    Converted(n, w, q, s);
    GapScaled(m, w as real, x, y, a, b);
    BelowOne(w as real - (a - b * b), (n * n) as real, (n * (w * n) - (n * q - s * s)) as real);
  }

  /** The integer inequality, read over the reals. */
  lemma Converted(n: int, w: int, q: int, s: int)
    requires n > 0
    ensures var m, x, y := n as real, q as real, s as real;
            && (n * (w * n) - (n * q - s * s)) as real == m * (w as real * m) - (m * x - y * y)
            && (n * n) as real == m * m && (n * n) as real > 0.0
  {
    assert n * n > 0;
  }

  lemma BelowOne(gap: real, d: real, i: real)
    requires d > 0.0 && gap * d == i && -d < i < d
    ensures -1.0 < gap < 1.0
  {
    RealCancel(gap, 1.0, d);
    RealCancel(-1.0, gap, d);
  }

  /** The distance from the exact variance, times the square of the count. */
  lemma GapScaled(m: real, w: real, x: real, y: real, a: real, b: real)
    requires a * m == x && b * m == y
    ensures (w - (a - b * b)) * (m * m) == m * (w * m) - (m * x - y * y)
  {
    var d := m * m;
    assert (w - (a - b * b)) * d == w * d - a * d + (b * b) * d;
    assert (b * b) * d == (b * m) * (b * m);
    assert a * d == (a * m) * m;
    assert w * d == m * (w * m);
  }

  lemma RealCancel(a: real, b: real, n: real)
    requires n > 0.0 && a * n < b * n
    ensures a < b
  {
    assert (b - a) * n == b * n - a * n;
  }

  // ---------------------------------------------------------------- overflow

  /** Values in [0, limit] with n * limit^2 below 2^63. */
  ghost predicate SafeRange(v: seq<int64>, limit: nat)
  {
    (forall i :: 0 <= i < |v| ==> 0 <= v[i] <= limit) && |v| * (limit * limit) < TWO_63 && |v| < TWO_63
  }

  lemma {:induction false} ScatterBelow(v: seq<int>, m: int, limit: nat)
    requires forall i :: 0 <= i < |v| ==> 0 <= v[i] <= limit
    requires 0 <= m <= limit
    ensures Scatter(v, m) <= |v| * (limit * limit)
    ensures forall i :: 0 <= i < |v| ==> Square(v[i] - m) <= limit * limit
  {
    forall i | 0 <= i < |v| ensures Square(v[i] - m) <= limit * limit {
      SquareBelow(v[i] - m, limit);
    }
    if |v| > 0 {
      ScatterBelow(v[..|v| - 1], m, limit);
      assert |v| * (limit * limit) == (|v| - 1) * (limit * limit) + limit * limit;
    }
  }

  lemma SquareBelow(d: int, limit: nat)
    requires -(limit as int) <= d <= limit
    ensures Square(d) <= limit * limit
  {
    var a := Abs(d);
    MulMonotone(a, a, limit);
    MulMonotone(limit, a, limit);
    assert d * d == a * a;
  }

  lemma SafeLimits(n: nat, limit: nat)
    requires n > 0 && n * (limit * limit) < TWO_63
    ensures n * limit < TWO_63 && limit * limit < TWO_63 && limit < TWO_63
  {
    if limit > 0 {
      MulMonotone(limit, 1, limit);
      MulMonotone(n, limit, limit * limit);
    }
    MulMonotone(limit * limit, 1, n);
  }

  lemma SafeSums(v: seq<int64>, limit: nat)
    requires SafeRange(v, limit) && |v| > 0
    ensures SumsFit(v) && 0 <= Mean(v) <= limit
  {
    SafeLimits(|v|, limit);
    SumBetween(v, 0, limit);
    TruncDivBetween(Sum(v), |v|, 0, limit);
    forall k | 0 <= k <= |v| ensures Fits(Sum(v[..k])) {
      SumBetween(v[..k], 0, limit);
      MulMonotone(limit, k, |v|);
    }
  }

  lemma SafeScatters(v: seq<int64>, limit: nat, m: int)
    requires SafeRange(v, limit) && |v| > 0 && 0 <= m <= limit
    ensures forall k :: 0 <= k <= |v| ==> Fits(Scatter(v[..k], m))
  {
    forall k | 0 <= k <= |v| ensures Fits(Scatter(v[..k], m)) {
      ScatterBelow(v[..k], m, limit);
      MulMonotone(limit * limit, k, |v|);
    }
  }

  /** On such vectors no 64-bit step of either statistic overflows. */
  lemma SafeRangeNeverOverflows(v: seq<int64>, limit: nat)
    requires SafeRange(v, limit)
    ensures NoOverflow(v)
  {
    if |v| > 0 {
      SafeLimits(|v|, limit);
      SafeSums(v, limit);
      ScatterBelow(v, Mean(v), limit);
      SafeScatters(v, limit, Mean(v));
      forall i | 0 <= i < |v| ensures Fits(v[i] - Mean(v)) && Fits(Square(v[i] - Mean(v))) {
        assert -(limit as int) <= v[i] - Mean(v) <= limit;
      }
    }
  }

  lemma MulMonotone(a: nat, b: int, c: int)
    requires b <= c
    ensures a * b <= a * c && b * a <= c * a
  {
  }

  // ---------------------------------------------------------------- the outlier filter

  /** `r` is what remains of `v` after striking out the positions outside `keep`, in order. */
  ghost predicate StrikesOut(v: seq<int64>, r: seq<int64>, at: seq<nat>)
  {
    && |at| == |r| <= |v|
    && (forall k :: 0 <= k < |at| ==> at[k] < |v| && v[at[k]] == r[k])
    && (forall k, l :: 0 <= k < l < |at| ==> at[k] < at[l])
  }

  /** The filter returns an order-preserving subsequence: the kept positions are exactly the near ones. */
  lemma {:induction false} FilterStrikesOut(v: seq<int64>, mean: int, std: int) returns (at: seq<nat>)
    ensures StrikesOut(v, Filter(v, mean, std), at)
    ensures forall i :: 0 <= i < |v| ==> (i in at <==> Abs(v[i] - mean) < 3 * std)
  {
    if |v| == 0 {
      at := [];
    } else {
      var last := |v| - 1;
      var front := FilterStrikesOut(v[..last], mean, std);
      at := if Keeps(v[last], mean, std) then front + [last] else front;
      StrikeLast(v, Filter(v[..last], mean, std), front);
      forall i | 0 <= i < |v| ensures i in at <==> Abs(v[i] - mean) < 3 * std {
        if i < last { assert v[..last][i] == v[i]; } else { assert last !in front; }
      }
    }
  }

  lemma StrikeLast(v: seq<int64>, r: seq<int64>, at: seq<nat>)
    requires |v| > 0 && StrikesOut(v[..|v| - 1], r, at)
    ensures StrikesOut(v, r, at) && StrikesOut(v, r + [v[|v| - 1]], at + [|v| - 1])
    ensures |v| - 1 !in at
  {
    forall k | 0 <= k < |at| ensures at[k] < |v| - 1 && v[at[k]] == r[k] {
      assert v[..|v| - 1][at[k]] == v[at[k]];
    }
  }

  /** Every dropped sample contributes at least nine variances to the scatter. */
  lemma {:induction false} DroppedScatter(v: seq<int64>, mean: int, std: nat)
    ensures var d := |v| - |Filter(v, mean, std)|; d >= 0 && Scatter(v, mean) >= d * Nine(std)
  {
    if |v| > 0 {
      var front, x := v[..|v| - 1], v[|v| - 1];
      DroppedScatter(front, mean, std);
      if !Keeps(x, mean, std) {
        FarSample(x, mean, std);
        OneMore(|front| - |Filter(front, mean, std)|, Nine(std));
      }
    }
  }

  function Nine(std: nat): nat { 9 * (std * std) }

  lemma FarSample(x: int, mean: int, std: nat)
    requires !Keeps(x, mean, std)
    ensures Square(x - mean) >= Nine(std)
  {
    SquareAbove(x - mean, 3 * std);
    assert (3 * std) * (3 * std) == 9 * (std * std);
  }

  lemma OneMore(d: int, q: int)
    ensures (d + 1) * q == d * q + q
  {
  }

  lemma SquareAbove(d: int, b: nat)
    requires Abs(d) >= b
    ensures Square(d) >= b * b
  {
    var a := Abs(d);
    MulMonotone(a, b, a);
    MulMonotone(b, b, a);
    assert d * d == a * a;
  }

  /** The filter drops fewer than four ninths of n - 1 samples whenever the deviation is positive. */
  lemma FilterKeepsMajority(v: seq<int64>)
    requires |v| >= 2 && ISqrt(SampleVarianceOf(v)) >= 1
    ensures var d := |v| - |Filter(v, Mean(v), ISqrt(SampleVarianceOf(v)))|; 0 <= d && 9 * d < 4 * (|v| - 1)
  {
    var n, a, w := |v| - 1, Scatter(v, Mean(v)), SampleVarianceOf(v);
    var s := ISqrt(w);
    var d := |v| - |Filter(v, Mean(v), s)|;
    DroppedScatter(v, Mean(v), s);
    FewDropped(n, a, w, s, d);
  }

  lemma FewDropped(n: int, a: int, w: nat, s: nat, d: int)
    requires n > 0 && a >= 0 && w == a / n && s >= 1 && w < (s + 1) * (s + 1) && a >= d * (9 * (s * s))
    ensures 9 * d < 4 * n
  {
    var q := s * s;
    RootDoubles(s, w);
    QuotientBelow(a, n, 4 * q);
    assert d * (9 * q) == (9 * d) * q && (4 * q) * n == (4 * n) * q;
    CancelLess(9 * d, 4 * n, q);
  }

  lemma RootDoubles(s: nat, w: nat)
    requires s >= 1 && w < (s + 1) * (s + 1)
    ensures s * s >= 1 && w + 1 <= 4 * (s * s)
  {
    assert (s + 1) * (s + 1) == s * s + 2 * s + 1;
    MulMonotone(s, 1, s);
  }

  lemma QuotientBelow(a: int, n: int, b: int)
    requires n > 0 && a >= 0 && a / n + 1 <= b
    ensures a < b * n
  {
    QuotientBounds(a, n);
    OneMoreTimes(a / n, n);
    MulMonotone(n, a / n + 1, b);
  }

  /** With a zero deviation the strict comparison drops every sample. */
  lemma {:induction false} ZeroDeviationDropsAll(v: seq<int64>, mean: int)
    ensures Filter(v, mean, 0) == []
  {
    if |v| > 0 { ZeroDeviationDropsAll(v[..|v| - 1], mean); }
  }

  /** Exactly when a majority survives: the scatter around the mean reaches n - 1. */
  lemma MajorityIff(v: seq<int64>)
    requires |v| >= 2
    ensures 2 * |Filter(v, Mean(v), ISqrt(SampleVarianceOf(v)))| > |v| <==> Scatter(v, Mean(v)) >= |v| - 1
  {
    var n, a, w := |v| - 1, Scatter(v, Mean(v)), SampleVarianceOf(v);
    var s := ISqrt(w);
    QuotientPositive(a, n);
    if a >= n {
      assert s >= 1;
      FilterKeepsMajority(v);
    } else {
      assert s == 0;
      ZeroDeviationDropsAll(v, Mean(v));
    }
  }

  lemma QuotientPositive(a: nat, n: int)
    requires n > 0
    ensures a / n >= 1 <==> a >= n
  {
    QuotientBounds(a, n);
    if a < n { CancelLess(a / n, 1, n); } else { QuotientAtLeast(a, n, 1); }
  }

  /** Two equal samples: nothing survives. */
  lemma ConstantSamplesVanish(x: int64)
    ensures Filter([x, x], Mean([x, x]), ISqrt(SampleVarianceOf([x, x]))) == []
  {
    var v: seq<int64> := [x, x];
    assert v[..1] == [x] && v[..1][..0] == [];
    assert Sum(v[..1]) == x;
    assert Sum(v) == 2 * x;
    assert Mean(v) == x;
    assert Scatter(v[..1], x) == 0;
    assert Scatter(v, x) == 0;
    ZeroDeviationDropsAll(v, x);
  }
}
