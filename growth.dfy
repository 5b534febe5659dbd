/** The multi-metric growth estimator of growth_estimation.py: a compound
    annual growth rate per metric over a fixed six-value window ending at
    the target year, and their unweighted mean. */
module Growth {
  import opened Records
  import Fmp

  /** Laws of the fractional power (x, y) |-> x^(1/y) on positive arguments:
      the root of 1 is 1, roots of positive numbers are positive, and the
      root is strictly increasing in x. */
  ghost predicate RootLaws(root: (real, real) -> real)
  {
    && (forall y :: y > 0.0 ==> root(1.0, y) == 1.0)
    && (forall x, y :: x > 0.0 && y > 0.0 ==> root(x, y) > 0.0)
    && (forall x1, x2, y :: 0.0 < x1 < x2 && y > 0.0 ==> root(x1, y) < root(x2, y))
  }

  /** The float power `** (1 / years)`, which Dafny's reals cannot express,
      is an input that obeys RootLaws. */
  type Root = f: (real, real) -> real | RootLaws(f) witness (x: real, y: real) => x

  /** calculate_cagr: (end / start)^(1 / years) - 1, or 0 for any
      non-positive input. */
  function Cagr(start: real, end: real, years: real, root: Root): (r: real)
    ensures start <= 0.0 || end <= 0.0 || years <= 0.0 ==> r == 0.0
    ensures r > -1.0
  {
    if start <= 0.0 || end <= 0.0 || years <= 0.0 then 0.0
    else root(end / start, years) - 1.0
  }

  lemma CagrFlat(start: real, years: real, root: Root)
    requires start > 0.0 && years > 0.0
    ensures Cagr(start, start, years, root) == 0.0
  {
    assert start / start == 1.0;
  }

  /** For a fixed positive start and period, a larger end never gives a
      smaller rate, and a strictly larger end a strictly larger one. */
  lemma CagrMonotone(start: real, end1: real, end2: real, years: real, root: Root)
    requires start > 0.0 && years > 0.0 && 0.0 < end1 <= end2
    ensures Cagr(start, end1, years, root) <= Cagr(start, end2, years, root)
    ensures end1 < end2 ==> Cagr(start, end1, years, root) < Cagr(start, end2, years, root)
  {
    if end1 < end2 {
      DivideMonotone(end1, end2, start);
    }
  }

  lemma DivideMonotone(a: real, b: real, d: real)
    requires d > 0.0 && a < b
    ensures a / d < b / d
  {
    assert b / d - a / d == (b - a) / d;
  }

  /** The sign of the rate is the direction of the change. */
  lemma CagrSign(start: real, end: real, years: real, root: Root)
    requires start > 0.0 && end > 0.0 && years > 0.0
    ensures Cagr(start, end, years, root) > 0.0 <==> end > start
    ensures Cagr(start, end, years, root) == 0.0 <==> end == start
    ensures Cagr(start, end, years, root) < 0.0 <==> end < start
  {
    CagrFlat(start, years, root);
    if end != start {
      if end < start {
        CagrMonotone(start, end, start, years, root);
      } else {
        CagrMonotone(start, start, end, years, root);
      }
    }
  }

  /** The window spans five years: six yearly values. */
  const WindowYears: nat := 5

  datatype GrowthResult =
    | Estimated(details: map<string, real>)
    | InsufficientHistory   // the ValueError raised before any metric is looked at

  /** What one metric contributes. */
  datatype MetricGrowth =
    | TooShort            // fewer than start_index + 6 values: skipped
    | NonPositive         // window start or end is <= 0: counted as 0
    | Grown(cagr: real)   // both endpoints positive

  function MetricGrowthOf(values: seq<real>, startIndex: nat, root: Root): (g: MetricGrowth)
    ensures g.TooShort? <==> |values| < startIndex + WindowYears + 1
    ensures g.Grown? ==> 0.0 < values[startIndex] && 0.0 < values[startIndex + WindowYears]
  {
    if |values| < startIndex + WindowYears + 1 then TooShort
    else
      var window := values[startIndex..startIndex + WindowYears + 1];
      var start, end := window[0], window[WindowYears];
      if start > 0.0 && end > 0.0 then Grown(Cagr(start, end, WindowYears as real, root))
      else NonPositive
  }

  /** details[key]: the rate as a percentage (rounding is not modelled). */
  function Detail(g: MetricGrowth): real
  {
    match g
    case Grown(c) => c * 100.0
    case _ => 0.0
  }

  /** What one metric appends to the list that is averaged. */
  function Contribution(g: MetricGrowth): seq<real>
  {
    match g
    case TooShort => []
    case NonPositive => [0.0]
    case Grown(c) => [c]
  }

  /** The `growths` list after the loop has visited every metric of `ms`. */
  function Collected(ms: MetricSeries, startIndex: nat, root: Root): seq<real>
  {
    if |ms| == 0 then []
    else Collected(ms[..|ms| - 1], startIndex, root) + Contribution(MetricGrowthOf(ms[|ms| - 1].1, startIndex, root))
  }

  /** The `details` dictionary after the loop has visited every metric of `ms`. */
  function DetailsOf(ms: MetricSeries, startIndex: nat, root: Root): map<string, real>
  {
    if |ms| == 0 then map[]
    else DetailsOf(ms[..|ms| - 1], startIndex, root)[ms[|ms| - 1].0 := Detail(MetricGrowthOf(ms[|ms| - 1].1, startIndex, root))]
  }

  function Sum(xs: seq<real>): real
  {
    if |xs| == 0 then 0.0 else Sum(xs[..|xs| - 1]) + xs[|xs| - 1]
  }

  /** sum(growths) / len(growths) if growths else 0 */
  function Mean(xs: seq<real>): real
  {
    if |xs| == 0 then 0.0 else Sum(xs) / (|xs| as real)
  }

  /** The dictionary mos_growth_estimate returns for a window starting at
      `startIndex`: every metric's detail plus 'avg', the mean in percent. */
  function Estimate(ms: MetricSeries, startIndex: nat, root: Root): map<string, real>
  {
    DetailsOf(ms, startIndex, root)["avg" := 100.0 * Mean(Collected(ms, startIndex, root))]
  }

  /** mos_growth_estimate: fails exactly when fewer than five years precede
      the target year; otherwise every metric gets its detail and 'avg' the
      mean of the collected rates, in percent. */
  method MosGrowthEstimate(dataDict: MetricSeries, targetYear: int, dataStartYear: int, root: Root)
    returns (r: GrowthResult)
    ensures r.InsufficientHistory? <==> targetYear - dataStartYear - WindowYears < 0
    ensures r.Estimated? ==> r.details == Estimate(dataDict, targetYear - dataStartYear - WindowYears, root)
  {
    var startIndex := targetYear - dataStartYear - WindowYears;
    if startIndex < 0 {
      return InsufficientHistory;
    }
    var details: map<string, real> := map[];
    var growths: seq<real> := [];
    var n := 0;
    while n < |dataDict|
      invariant 0 <= n <= |dataDict|
      invariant details == DetailsOf(dataDict[..n], startIndex, root)
      invariant growths == Collected(dataDict[..n], startIndex, root)
    {
      var (key, values) := dataDict[n];
      LoopStep(dataDict, n, startIndex, root);
      if |values| < startIndex + WindowYears + 1 {
        details := details[key := 0.0];
        n := n + 1;
        continue;
      }
      var window := values[startIndex..startIndex + WindowYears + 1];
      var start, end := window[0], window[WindowYears];
      if start > 0.0 && end > 0.0 {
        var cagr := Cagr(start, end, WindowYears as real, root);
        growths := growths + [cagr];
        details := details[key := cagr * 100.0];
      } else {
        details := details[key := 0.0];
        growths := growths + [0.0];
      }
      n := n + 1;
    }
    assert dataDict[..n] == dataDict;
    var avgGrowth := if |growths| > 0 then Sum(growths) / (|growths| as real) else 0.0;
    details := details["avg" := 100.0 * avgGrowth];
    r := Estimated(details);
  }

  /** The estimate holds the input's metric keys plus 'avg', each metric's
      own detail, and 100 times the mean of the collected rates. */
  lemma EstimateShape(ms: MetricSeries, startIndex: nat, root: Root)
    requires DistinctKeys(ms)
    ensures Estimate(ms, startIndex, root).Keys == KeysOf(ms) + {"avg"}
    ensures forall i :: 0 <= i < |ms| && ms[i].0 != "avg" ==>
              Estimate(ms, startIndex, root)[ms[i].0] == Detail(MetricGrowthOf(ms[i].1, startIndex, root))
    ensures Estimate(ms, startIndex, root)["avg"] == 100.0 * Mean(Collected(ms, startIndex, root))
  {
    DetailsKeys(ms, startIndex, root);
    forall i | 0 <= i < |ms| && ms[i].0 != "avg"
      ensures Estimate(ms, startIndex, root)[ms[i].0] == Detail(MetricGrowthOf(ms[i].1, startIndex, root))
    {
      DetailsAt(ms, startIndex, root, i);
    }
  }

  /** Visiting metric n extends the dictionary and the list by that metric's outcome. */
  lemma LoopStep(ms: MetricSeries, n: nat, startIndex: nat, root: Root)
    requires n < |ms|
    ensures DetailsOf(ms[..n + 1], startIndex, root)
         == DetailsOf(ms[..n], startIndex, root)[ms[n].0 := Detail(MetricGrowthOf(ms[n].1, startIndex, root))]
    ensures Collected(ms[..n + 1], startIndex, root)
         == Collected(ms[..n], startIndex, root) + Contribution(MetricGrowthOf(ms[n].1, startIndex, root))
  {
    assert ms[..n + 1][..n] == ms[..n];
  }

  /** The output's keys are the input's metric keys plus 'avg'. */
  lemma {:induction false} DetailsKeys(ms: MetricSeries, startIndex: nat, root: Root)
    ensures DetailsOf(ms, startIndex, root).Keys == KeysOf(ms)
  {
    if |ms| > 0 {
      var init := ms[..|ms| - 1];
      DetailsKeys(init, startIndex, root);
      assert KeysOf(ms) == KeysOf(init) + {ms[|ms| - 1].0} by {
        forall k | k in KeysOf(ms) ensures k in KeysOf(init) + {ms[|ms| - 1].0} {
          var i :| 0 <= i < |ms| && ms[i].0 == k;
          if i < |ms| - 1 { assert init[i] == ms[i]; }
        }
        forall k | k in KeysOf(init) ensures k in KeysOf(ms) {
          var i :| 0 <= i < |init| && init[i].0 == k;
          assert ms[i] == init[i];
        }
      }
    }
  }

  /** Each metric's detail depends on its own series only. */
  lemma {:induction false} DetailsAt(ms: MetricSeries, startIndex: nat, root: Root, i: nat)
    requires DistinctKeys(ms) && i < |ms|
    ensures ms[i].0 in DetailsOf(ms, startIndex, root)
    ensures DetailsOf(ms, startIndex, root)[ms[i].0] == Detail(MetricGrowthOf(ms[i].1, startIndex, root))
  {
    if i < |ms| - 1 {
      var init := ms[..|ms| - 1];
      assert init[i] == ms[i];
      DetailsAt(init, startIndex, root, i);
    }
  }

  /** The metrics of `ms` that have a full window, in order. */
  function LongEnough(ms: MetricSeries, startIndex: nat): MetricSeries
  {
    if |ms| == 0 then []
    else LongEnough(ms[..|ms| - 1], startIndex)
         + (if |ms[|ms| - 1].1| < startIndex + WindowYears + 1 then [] else [ms[|ms| - 1]])
  }

  /** A series that is too short adds nothing to the average's numerator or
      denominator: the list that is averaged is the one the long-enough
      metrics alone give, one entry per such metric. */
  lemma {:induction false} TooShortIgnored(ms: MetricSeries, startIndex: nat, root: Root)
    ensures Collected(LongEnough(ms, startIndex), startIndex, root) == Collected(ms, startIndex, root)
    ensures |Collected(ms, startIndex, root)| == |LongEnough(ms, startIndex)|
  {
    if |ms| > 0 {
      var init, last := ms[..|ms| - 1], ms[|ms| - 1];
      TooShortIgnored(init, startIndex, root);
      var kept := LongEnough(init, startIndex);
      if |last.1| >= startIndex + WindowYears + 1 {
        assert LongEnough(ms, startIndex) == kept + [last];
        assert (kept + [last])[..|kept|] == kept;
      } else {
        assert LongEnough(ms, startIndex) == kept + [] == kept;
        assert Collected(ms, startIndex, root) == Collected(init, startIndex, root) + [];
      }
    }
  }

  /** A metric with a non-positive window endpoint gets detail 0 and
      appends exactly one 0 to the averaged list. */
  lemma NonPositiveCountsAsZero(ms: MetricSeries, key: string, values: seq<real>, startIndex: nat, root: Root)
    requires |values| >= startIndex + WindowYears + 1
    requires values[startIndex] <= 0.0 || values[startIndex + WindowYears] <= 0.0
    ensures Collected(ms + [(key, values)], startIndex, root) == Collected(ms, startIndex, root) + [0.0]
    ensures DetailsOf(ms + [(key, values)], startIndex, root)[key] == 0.0
  {
    assert (ms + [(key, values)])[..|ms|] == ms;
  }

  /** A metric whose series is too short gets detail 0 and appends nothing. */
  lemma TooShortSkipped(ms: MetricSeries, key: string, values: seq<real>, startIndex: nat, root: Root)
    requires |values| < startIndex + WindowYears + 1
    ensures Collected(ms + [(key, values)], startIndex, root) == Collected(ms, startIndex, root)
    ensures DetailsOf(ms + [(key, values)], startIndex, root)[key] == 0.0
  {
    assert (ms + [(key, values)])[..|ms|] == ms;
  }

  /** Only the two window endpoints of a long-enough series matter. */
  lemma WindowEndpointsOnly(v: seq<real>, w: seq<real>, startIndex: nat, root: Root)
    requires |v| >= startIndex + WindowYears + 1 && |w| >= startIndex + WindowYears + 1
    requires v[startIndex] == w[startIndex] && v[startIndex + WindowYears] == w[startIndex + WindowYears]
    ensures MetricGrowthOf(v, startIndex, root) == MetricGrowthOf(w, startIndex, root)
  {
  }

  /** The outcome for a long-enough series, read off its two endpoints. */
  lemma WindowGrowth(v: seq<real>, startIndex: nat, root: Root)
    requires |v| >= startIndex + WindowYears + 1
    ensures var first, last := v[startIndex], v[startIndex + WindowYears];
            MetricGrowthOf(v, startIndex, root)
              == if first > 0.0 && last > 0.0 then Grown(Cagr(first, last, WindowYears as real, root)) else NonPositive
  {
  }

  lemma {:induction false} SumAtMost(xs: seq<real>, bound: real)
    requires forall i :: 0 <= i < |xs| ==> xs[i] <= bound
    ensures Sum(xs) <= (|xs| as real) * bound
  {
    if |xs| > 0 {
      SumAtMost(xs[..|xs| - 1], bound);
    }
  }

  /** A mean is at most a bound on the averaged values. */
  lemma MeanAtMost(xs: seq<real>, bound: real)
    requires forall i :: 0 <= i < |xs| ==> xs[i] <= bound
    requires |xs| > 0 || bound >= 0.0
    ensures Mean(xs) <= bound
  {
    if |xs| > 0 {
      SumAtMost(xs, bound);
      var n := |xs| as real;
      assert Sum(xs) / n <= (n * bound) / n;
    }
  }

  /** No metric's window ends higher than it starts. */
  ghost predicate NoWindowGrows(ms: MetricSeries, startIndex: nat)
  {
    forall i :: 0 <= i < |ms| && |ms[i].1| >= startIndex + WindowYears + 1 ==>
      ms[i].1[startIndex + WindowYears] <= ms[i].1[startIndex]
  }

  lemma {:induction false} CollectedNonPositive(ms: MetricSeries, startIndex: nat, root: Root)
    requires NoWindowGrows(ms, startIndex)
    ensures forall j :: 0 <= j < |Collected(ms, startIndex, root)| ==> Collected(ms, startIndex, root)[j] <= 0.0
  {
    if |ms| > 0 {
      var init, last := ms[..|ms| - 1], ms[|ms| - 1];
      assert forall i :: 0 <= i < |init| ==> init[i] == ms[i];
      CollectedNonPositive(init, startIndex, root);
      var g := MetricGrowthOf(last.1, startIndex, root);
      if g.Grown? {
        CagrSign(last.1[startIndex], last.1[startIndex + WindowYears], WindowYears as real, root);
      }
    }
  }

  /** When no metric grew over its window, the average growth is not
      positive, so the intrinsic-value projection falls back to zeros. */
  lemma NoGrowthMeansNonPositiveAverage(ms: MetricSeries, startIndex: nat, root: Root)
    requires NoWindowGrows(ms, startIndex)
    ensures Estimate(ms, startIndex, root)["avg"] <= 0.0
  {
    CollectedNonPositive(ms, startIndex, root);
    MeanAtMost(Collected(ms, startIndex, root), 0.0);
  }

  /** On a series assembled year by year from a statement collection, the
      window for `targetYear` is long enough and its endpoints are the values
      of years targetYear - 5 and targetYear (see WindowGrowth for the
      outcome they give). */
  lemma FetchedWindowYears(data: seq<Entry>, key: string, startYear: int, count: nat, targetYear: int)
    requires targetYear - startYear - WindowYears >= 0 && targetYear - startYear < count
    ensures var v := Fmp.SeriesFor(data, key, startYear, count);
            var si := targetYear - startYear - WindowYears;
            && |v| >= si + WindowYears + 1
            && v[si] == Get(Fmp.FieldsForYear(data, targetYear - WindowYears), key)
            && v[si + WindowYears] == Get(Fmp.FieldsForYear(data, targetYear), key)
  {
    var si := targetYear - startYear - WindowYears;
    Fmp.SeriesForAt(data, key, startYear, count, si);
    Fmp.SeriesForAt(data, key, startYear, count, si + WindowYears);
  }
}
