/** Exact integer statistics (src/benchmark/statistics.ts). */
module Statistics {
  import opened Arithmetic
  import opened Wrappers

  // ---- sorting and counting ------------------------------------------------------------

  function Insert(x: int, xs: seq<int>): (r: seq<int>)
    ensures |r| == |xs| + 1
  {
    if xs == [] then [x] else if x <= xs[0] then [x] + xs else [xs[0]] + Insert(x, xs[1..])
  }

  function Sorted(xs: seq<int>): (r: seq<int>)
    ensures |r| == |xs|
  {
    if xs == [] then [] else Insert(xs[0], Sorted(xs[1..]))
  }

  predicate Ascending(xs: seq<int>) {
    forall i, j | 0 <= i < j < |xs| :: xs[i] <= xs[j]
  }

  /** How many observations are below a value, and how many are not above it. */
  function Below(xs: seq<int>, v: int): (n: nat)
    ensures n <= |xs|
  {
    if xs == [] then 0 else (if xs[0] < v then 1 else 0) + Below(xs[1..], v)
  }

  function NotAbove(xs: seq<int>, v: int): (n: nat)
    ensures n <= |xs|
  {
    Below(xs, v + 1)
  }

  lemma {:induction false} InsertKeeps(x: int, xs: seq<int>, v: int)
    ensures multiset(Insert(x, xs)) == multiset{x} + multiset(xs)
    ensures Below(Insert(x, xs), v) == (if x < v then 1 else 0) + Below(xs, v)
  {
    if xs != [] && x > xs[0] {
      InsertKeeps(x, xs[1..], v);
      assert xs == [xs[0]] + xs[1..];
    } else if xs != [] {
      assert ([x] + xs)[1..] == xs;
    }
  }

  lemma {:induction false} InsertElements(x: int, xs: seq<int>, j: nat)
    requires j <= |xs|
    ensures Insert(x, xs)[j] == x || Insert(x, xs)[j] in xs
  {
    if xs != [] && x > xs[0] && j > 0 {
      InsertElements(x, xs[1..], j - 1);
    }
  }

  lemma {:induction false} InsertAscends(x: int, xs: seq<int>)
    requires Ascending(xs)
    ensures Ascending(Insert(x, xs))
  {
    if xs != [] && x > xs[0] {
      InsertAscends(x, xs[1..]);
      var r := Insert(x, xs[1..]);
      forall j | 0 <= j < |r| ensures xs[0] <= r[j] {
        InsertElements(x, xs[1..], j);
      }
      AscendCons(xs[0], r);
    }
  }

  lemma AscendCons(x: int, xs: seq<int>)
    requires Ascending(xs) && forall j | 0 <= j < |xs| :: x <= xs[j]
    ensures Ascending([x] + xs)
  {
  }

  lemma {:induction false} SortedSorts(xs: seq<int>, v: int)
    ensures Ascending(Sorted(xs)) && multiset(Sorted(xs)) == multiset(xs) && Below(Sorted(xs), v) == Below(xs, v)
  {
    if xs != [] {
      SortedSorts(xs[1..], v);
      InsertKeeps(xs[0], Sorted(xs[1..]), v);
      InsertAscends(xs[0], Sorted(xs[1..]));
      assert xs == [xs[0]] + xs[1..];
    }
  }

  /** In a sorted sequence the element at `k` has at most `k` below it and more than `k` not above it. */
  lemma {:induction false} SortedCounts(xs: seq<int>, v: int, k: nat)
    requires Ascending(xs)
    ensures k < |xs| && xs[k] >= v ==> Below(xs, v) <= k
    ensures k < |xs| && xs[k] < v ==> Below(xs, v) > k
  {
    if xs != [] {
      SortedCounts(xs[1..], v, if k > 0 then k - 1 else 0);
      if k == 0 && xs[0] >= v {
        NoneBelow(xs[1..], v);
      }
    }
  }

  lemma {:induction false} NoneBelow(xs: seq<int>, v: int)
    requires forall i | 0 <= i < |xs| :: xs[i] >= v
    ensures Below(xs, v) == 0
  {
    if xs != [] {
      NoneBelow(xs[1..], v);
    }
  }

  lemma {:induction false} BelowGrows(xs: seq<int>, v: int, w: int)
    requires v <= w
    ensures Below(xs, v) <= Below(xs, w)
  {
    if xs != [] {
      BelowGrows(xs[1..], v, w);
    }
  }

  // ---- nearest rank ------------------------------------------------------------------------

  type Percent = p: nat | p <= 100

  /** `ceil(count * percentile / 100) - 1`, with rank zero the first observation. */
  function RankIndex(count: nat, percentile: Percent): (i: nat)
    requires count > 0
    ensures i < count
  {
    if percentile == 0 then 0 else (count * percentile + 99) / 100 - 1
  }

  function InclusiveRank(values: seq<int>, percentile: Percent): (r: Option<int>)
    ensures r.None? <==> values == []
  {
    if values == [] then None else Some(Sorted(values)[RankIndex(|values|, percentile)])
  }

  /** `v` is an observation with strictly less than `percentile` percent below it and at least that many not above it. */
  predicate IsPercentile(values: seq<int>, percentile: Percent, v: int) {
    v in values
    && 100 * Below(values, v) < (if percentile == 0 then 1 else percentile * |values|)
    && percentile * |values| <= 100 * NotAbove(values, v)
  }

  lemma RankCounts(count: nat, percentile: Percent)
    requires count > 0
    ensures var k := RankIndex(count, percentile);
      100 * k < (if percentile == 0 then 1 else percentile * count) && percentile * count <= 100 * (k + 1)
  {
    var scaled := count * percentile;
    assert percentile * count == scaled;
    if percentile > 0 {
      assert scaled >= 1;
    }
  }

  lemma ChosenIsPercentile(values: seq<int>, percentile: Percent)
    requires values != []
    ensures IsPercentile(values, percentile, InclusiveRank(values, percentile).value)
  {
    hide Below, Sorted, RankIndex;
    var sorted, k := Sorted(values), RankIndex(|values|, percentile);
    var chosen := sorted[k];
    SortedSorts(values, chosen);
    SortedSorts(values, chosen + 1);
    SortedCounts(sorted, chosen, k);
    SortedCounts(sorted, chosen + 1, k);
    assert chosen in multiset(sorted);
    RankCounts(|values|, percentile);
  }

  /** Nearest rank, without sorting: the selected value is the only observation with the right counts. */
  lemma RankIsPercentile(values: seq<int>, percentile: Percent, v: int)
    requires values != []
    ensures InclusiveRank(values, percentile) == Some(v) <==> IsPercentile(values, percentile, v)
  {
    hide InclusiveRank, IsPercentile;
    ChosenIsPercentile(values, percentile);
    if IsPercentile(values, percentile, v) {
      var chosen := InclusiveRank(values, percentile).value;
      OnePercentile(values, percentile, v, chosen);
      OnePercentile(values, percentile, chosen, v);
    }
  }

  lemma OnePercentile(values: seq<int>, percentile: Percent, v: int, w: int)
    requires IsPercentile(values, percentile, v) && IsPercentile(values, percentile, w)
    ensures v >= w
  {
    if v < w {
      BelowGrows(values, v + 1, w);
      InBelow(values, v, w);
    }
  }

  lemma {:induction false} InBelow(values: seq<int>, v: int, w: int)
    requires v in values && v < w
    ensures Below(values, w) > 0
  {
    if values[0] != v {
      InBelow(values[1..], v, w);
    }
  }

  lemma BelowWithout(ys: seq<int>, k: nat, v: int)
    requires k < |ys|
    ensures Below(ys, v) == (if ys[k] < v then 1 else 0) + Below(ys[..k] + ys[k + 1..], v)
    ensures multiset(ys[..k] + ys[k + 1..]) == multiset(ys) - multiset{ys[k]}
  {
    assert ys == ys[..k] + ([ys[k]] + ys[k + 1..]);
    BelowSplit(ys[..k], [ys[k]] + ys[k + 1..], v);
    BelowSplit(ys[..k], ys[k + 1..], v);
    assert ([ys[k]] + ys[k + 1..])[1..] == ys[k + 1..];
  }

  lemma {:induction false} BelowPermutes(xs: seq<int>, ys: seq<int>, v: int)
    requires multiset(xs) == multiset(ys)
    ensures Below(xs, v) == Below(ys, v) && |xs| == |ys|
  {
    assert |xs| == |multiset(xs)| == |multiset(ys)| == |ys|;
    if xs != [] {
      hide Below;
      assert xs[0] in multiset(ys);
      var k :| 0 <= k < |ys| && ys[k] == xs[0];
      BelowWithout(ys, k, v);
      BelowWithout(xs, 0, v);
      assert xs[..0] + xs[1..] == xs[1..];
      BelowPermutes(xs[1..], ys[..k] + ys[k + 1..], v);
    }
  }

  lemma {:induction false} BelowSplit(a: seq<int>, b: seq<int>, v: int)
    ensures Below(a + b, v) == Below(a, v) + Below(b, v)
  {
    if a == [] {
      assert a + b == b;
    } else {
      BelowSplit(a[1..], b, v);
      assert (a + b)[1..] == a[1..] + b;
    }
  }

  /** The order of the samples does not matter. */
  lemma RankIgnoresOrder(xs: seq<int>, ys: seq<int>, percentile: Percent)
    requires multiset(xs) == multiset(ys)
    ensures InclusiveRank(xs, percentile) == InclusiveRank(ys, percentile)
  {
    hide IsPercentile;
    if xs == [] {
      assert |ys| == |multiset(ys)| == 0;
    } else {
      assert xs[0] in multiset(ys);
      var v := InclusiveRank(xs, percentile).value;
      RankIsPercentile(xs, percentile, v);
      SamePercentile(xs, ys, percentile, v);
      RankIsPercentile(ys, percentile, v);
    }
  }

  lemma SamePercentile(xs: seq<int>, ys: seq<int>, percentile: Percent, v: int)
    requires multiset(xs) == multiset(ys) && IsPercentile(xs, percentile, v)
    ensures IsPercentile(ys, percentile, v)
  {
    BelowPermutes(xs, ys, v);
    BelowPermutes(xs, ys, v + 1);
    assert v in multiset(ys);
  }

  /** Higher percentiles are not smaller. */
  lemma RankIsMonotone(values: seq<int>, p: Percent, q: Percent)
    requires values != [] && p <= q
    ensures InclusiveRank(values, p).value <= InclusiveRank(values, q).value
  {
    hide Sorted, RankIndex;
    SortedSorts(values, 0);
    RankIndexMonotone(|values|, p, q);
  }

  lemma RankIndexMonotone(count: nat, p: Percent, q: Percent)
    requires count > 0 && p <= q
    ensures RankIndex(count, p) <= RankIndex(count, q)
  {
    assert count * p <= count * q;
    if q > 0 {
      assert count * q >= 1;
    }
  }

  /** Rank 0 is the minimum and rank 100 the maximum. */
  lemma ExtremeRanks(values: seq<int>, v: int)
    requires v in values
    ensures InclusiveRank(values, 0).value <= v <= InclusiveRank(values, 100).value
  {
    hide Sorted, Below;
    SortedSorts(values, 0);
    var sorted := Sorted(values);
    assert v in multiset(sorted);
    var k :| 0 <= k < |sorted| && sorted[k] == v;
    assert RankIndex(|values|, 100) == |values| - 1;
  }

  // ---- sums ------------------------------------------------------------------------------------

  function Sum(xs: seq<int>): int {
    if xs == [] then 0 else xs[0] + Sum(xs[1..])
  }

  function SumSquares(xs: seq<int>): int {
    if xs == [] then 0 else xs[0] * xs[0] + SumSquares(xs[1..])
  }

  lemma {:induction false} SumBounds(xs: seq<int>, low: int, high: int)
    requires forall x | x in xs :: low <= x <= high
    ensures |xs| * low <= Sum(xs) <= |xs| * high
  {
    if xs != [] {
      forall x | x in xs[1..] ensures low <= x <= high {
        assert x in xs;
      }
      SumBounds(xs[1..], low, high);
      assert xs[0] in xs;
      assert |xs| * low == low + (|xs| - 1) * low && |xs| * high == high + (|xs| - 1) * high;
    }
  }

  lemma OneMoreDeviation(d: int, x: int, n: int, s: int, q: int)
    requires q - 2 * x * s + n * (x * x) >= 0
    ensures d * d + q - 2 * x * (d + s) + (n + 1) * (x * x) >= 0
  {
    SquareIsNonNegative(d - x);
    assert (d - x) * (d - x) == d * d - 2 * x * d + x * x;
    assert 2 * x * (d + s) == 2 * x * d + 2 * x * s;
    assert (n + 1) * (x * x) == n * (x * x) + x * x;
  }

  /** Deviations from any value square to a non-negative sum. */
  lemma {:induction false} Deviations(xs: seq<int>, x: int)
    ensures SumSquares(xs) - 2 * x * Sum(xs) + |xs| * (x * x) >= 0
  {
    if xs != [] {
      Deviations(xs[1..], x);
      OneMoreDeviation(xs[0], x, |xs| - 1, Sum(xs[1..]), SumSquares(xs[1..]));
    }
  }

  lemma SquareIsNonNegative(x: int)
    ensures x * x >= 0
  {
  }

  lemma OneMoreSquare(x: int, n: int, s: int, q: int)
    requires n * q >= s * s && q - 2 * x * s + n * (x * x) >= 0
    ensures (n + 1) * (x * x + q) >= (x + s) * (x + s)
  {
    var d := x * x;
    assert (n + 1) * (d + q) == n * d + n * q + d + q;
    assert (x + s) * (x + s) == d + 2 * x * s + s * s;
  }

  /** n·Σx² ≥ (Σx)², so the standard deviation never sees a negative radicand. */
  lemma {:induction false} SquaresDominate(xs: seq<int>)
    ensures |xs| * SumSquares(xs) >= Sum(xs) * Sum(xs)
  {
    if xs != [] {
      SquaresDominate(xs[1..]);
      Deviations(xs[1..], xs[0]);
      OneMoreSquare(xs[0], |xs| - 1, Sum(xs[1..]), SumSquares(xs[1..]));
    }
  }

  // ---- integer square root ------------------------------------------------------------------------

  /** Comparing a number with a quotient by itself compares its square. */
  lemma QuotientComparesSquare(m: int, v: int)
    requires m > 0
    ensures m <= v / m <==> m * m <= v
  {
    var q, r := v / m, v % m;
    assert v == m * q + r;
    if m <= q {
      assert m * m <= m * q;
    } else {
      assert m * (q + 1) <= m * m;
    }
  }

  datatype RangeError = RangeError

  method IntegerSquareRoot(value: int) returns (r: Result<nat, RangeError>)
    ensures r.Ok? <==> value >= 0
    ensures r.Ok? ==> r.value * r.value <= value < (r.value + 1) * (r.value + 1)
  {
    if value < 0 { return Err(RangeError); }
    if value < 2 { return Ok(value); }
    var lower, upper := 1, value;
    while lower + 1 < upper
      invariant 1 <= lower < upper
      invariant lower * lower <= value < upper * upper
      decreases upper - lower
    {
      var middle := (lower + upper) / 2;
      QuotientComparesSquare(middle, value);
      if middle <= value / middle {
        lower := middle;
      } else {
        upper := middle;
      }
    }
    return Ok(lower);
  }

  /** The radicand, n·Σx² − (Σx)². */
  function Spread(values: seq<int>): (d: int)
    ensures d >= 0
  {
    SquaresDominate(values);
    |values| * SumSquares(values) - Sum(values) * Sum(values)
  }

  /** `r` is the floor of the exact population standard deviation, √(n·Σx² − (Σx)²) / n. */
  predicate IsDeviation(values: seq<int>, r: nat) {
    var n := |values|;
    r * r * (n * n) <= Spread(values) < (r + 1) * (r + 1) * (n * n)
  }

  /** Two floors, of the quotient and of the root, are one floor of the exact value. */
  method PopulationStandardDeviation(values: seq<int>) returns (r: Option<nat>)
    ensures r.None? <==> values == []
    ensures r.Some? ==> IsDeviation(values, r.value)
  {
    if values == [] { return None; }
    hide Sum, SumSquares;
    var count, total, sumSquares := |values|, Sum(values), SumSquares(values);
    SquaresDominate(values);
    CountSquared(count);
    var quotient := (count * sumSquares - total * total) / (count * count);
    QuotientIsNonNegative(count * sumSquares - total * total, count * count);
    var root := IntegerSquareRoot(quotient);
    FloorsCompose(Spread(values), count * count, quotient, root.value);
    return Some(root.value);
  }

  lemma CountSquared(n: int)
    requires n > 0
    ensures n * n > 0
  {
  }

  lemma QuotientIsNonNegative(d: int, m: int)
    requires d >= 0 && m > 0
    ensures d / m >= 0
  {
  }

  lemma FloorsCompose(d: int, m: int, q: int, r: nat)
    requires m > 0 && d >= 0 && q == d / m && r * r <= q < (r + 1) * (r + 1)
    ensures r * r * m <= d < (r + 1) * (r + 1) * m
  {
    assert d == m * q + d % m;
    Scaled(r * r, q, m);
    Scaled(q + 1, (r + 1) * (r + 1), m);
    assert m * (q + 1) == m * q + m;
  }

  lemma Scaled(a: int, b: int, m: int)
    requires a <= b && m > 0
    ensures a * m <= b * m && m * a <= m * b
  {
  }

  /** The deviation is determined. */
  lemma DeviationUnique(values: seq<int>, r: nat, s: nat)
    requires values != [] && IsDeviation(values, r) && IsDeviation(values, s)
    ensures r == s
  {
    var m := |values| * |values|;
    assert m > 0;
    if r < s {
      SquareGrows(r + 1, s);
      Scaled((r + 1) * (r + 1), s * s, m);
    } else if s < r {
      SquareGrows(s + 1, r);
      Scaled((s + 1) * (s + 1), r * r, m);
    }
  }

  lemma SquareGrows(a: nat, b: nat)
    requires a <= b
    ensures a * a <= b * b
  {
    assert a * a <= a * b <= b * b;
  }

  /** BigInt division truncates; durations are not negative. */
  function IntegerMean(values: seq<int>): Option<int> {
    if values == [] then None else Some(Sum(values) / |values|)
  }

  lemma MeanIsBetween(values: seq<int>)
    requires values != []
    ensures InclusiveRank(values, 0).value <= IntegerMean(values).value <= InclusiveRank(values, 100).value
  {
    var low, high, n := InclusiveRank(values, 0).value, InclusiveRank(values, 100).value, |values|;
    forall x | x in values ensures low <= x <= high {
      ExtremeRanks(values, x);
    }
    SumBounds(values, low, high);
    QuotientBetween(Sum(values), n, low, high);
  }

  lemma QuotientBetween(s: int, n: int, low: int, high: int)
    requires n > 0 && n * low <= s <= n * high
    ensures low <= s / n <= high
  {
    var q := s / n;
    assert n * (q + 1) == n * q + n && n * (high + 1) == n * high + n;
    if q < low {
      Scaled(q + 1, low, n);
    } else if q > high {
      Scaled(high + 1, q, n);
    }
  }

  // ---- Tukey fences --------------------------------------------------------------------------------

  datatype Label = InFence | Lower | Upper

  function LabelOf(value: int, first: int, third: int): Label {
    var iqr := third - first;
    if 2 * value < 2 * first - 3 * iqr then Lower
    else if 2 * value > 2 * third + 3 * iqr then Upper
    else InFence
  }

  function Labels(values: seq<int>, first: int, third: int): (r: seq<Label>)
    ensures |r| == |values| && forall i | 0 <= i < |values| :: r[i] == LabelOf(values[i], first, third)
  {
    seq(|values|, i requires 0 <= i < |values| => LabelOf(values[i], first, third))
  }

  function LabelIqrOutliers(values: seq<int>): Result<seq<Label>, RangeError> {
    if exists i | 0 <= i < |values| :: values[i] < 0 then Err(RangeError)
    else if values == [] then Ok([])
    else Ok(Labels(values, InclusiveRank(values, 25).value, InclusiveRank(values, 75).value))
  }

  function Outliers(labels: seq<Label>): nat {
    if labels == [] then 0 else (if labels[0] != InFence then 1 else 0) + Outliers(labels[1..])
  }

  lemma {:induction false} OutliersBound(values: seq<int>, first: int, third: int)
    requires first <= third
    ensures Outliers(Labels(values, first, third)) + (NotAbove(values, third) - Below(values, first)) <= |values|
    ensures Below(values, first) <= NotAbove(values, third)
  {
    if values != [] {
      OutliersBound(values[1..], first, third);
      assert Labels(values, first, third)[1..] == Labels(values[1..], first, third);
    }
  }

  /** Nothing between the quartiles is an outlier, and strictly fewer than half of a series ever are. */
  lemma FewerThanHalfAreOutliers(values: seq<int>)
    requires values != [] && forall i | 0 <= i < |values| :: values[i] >= 0
    ensures var labels := LabelIqrOutliers(values).value;
      var first, third := InclusiveRank(values, 25).value, InclusiveRank(values, 75).value;
      && LabelIqrOutliers(values).Ok? && |labels| == |values|
      && (forall i | 0 <= i < |values| && first <= values[i] <= third :: labels[i] == InFence)
      && 2 * Outliers(labels) < |values|
  {
    hide InclusiveRank, Below;
    var first, third := InclusiveRank(values, 25).value, InclusiveRank(values, 75).value;
    RankIsMonotone(values, 25, 75);
    RankIsPercentile(values, 25, first);
    RankIsPercentile(values, 75, third);
    OutliersBound(values, first, third);
  }

  /** The fences stand one and a half quartile distances outside the quartiles. */
  lemma LabelsAreFences(values: seq<int>, i: nat)
    requires i < |values| && forall k | 0 <= k < |values| :: values[k] >= 0
    ensures var first, third := InclusiveRank(values, 25).value as real, InclusiveRank(values, 75).value as real;
      var found := LabelIqrOutliers(values).value[i];
      && (found == Lower <==> values[i] as real < first - 1.5 * (third - first))
      && (found == Upper <==> values[i] as real > third + 1.5 * (third - first))
  {
    hide InclusiveRank;
    RankIsMonotone(values, 25, 75);
  }

  /** The mean is the quotient without its fraction, as BigInt division of non-negative numbers has it. */
  lemma MeanIsTruncated(values: seq<int>)
    requires values != [] && forall i | 0 <= i < |values| :: values[i] >= 0
    ensures var mean := IntegerMean(values).value;
      0 <= mean && |values| * mean <= Sum(values) < |values| * (mean + 1)
  {
    SumNonNegative(values);
    var n, s := |values|, Sum(values);
    assert s == n * (s / n) + s % n;
    assert n * (s / n + 1) == n * (s / n) + n;
    QuotientIsNonNegative(s, n);
  }

  lemma {:induction false} SumNonNegative(values: seq<int>)
    requires forall i | 0 <= i < |values| :: values[i] >= 0
    ensures Sum(values) >= 0
  {
    if values != [] {
      SumNonNegative(values[1..]);
    }
  }
}
