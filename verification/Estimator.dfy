/** `evaluator/counterfactual/estimator.py`: the value a metric would have had. */
module Estimator {
  import opened History
  import opened RealSums
  import opened Sorting

  datatype Point = Point(time: real, value: real)

  datatype Method = Mean | Ewma | TrendAdjusted | OtherMethod

  // ----- Specification --------------------------------------------------------

  function MetricPoints(time: real, metrics: seq<Metric>, name: string): seq<Point> {
    if metrics == [] then []
    else
      var last := metrics[|metrics| - 1];
      MetricPoints(time, metrics[..|metrics| - 1], name)
        + if last.name == name then [Point(time, last.value)] else []
  }

  /** All observations of one metric in a time-ordered history. */
  function Observations(s: seq<Snapshot>, name: string): seq<Point> {
    if s == [] then []
    else Observations(s[..|s| - 1], name) + MetricPoints(Time(s[|s| - 1]), s[|s| - 1].metrics, name)
  }

  function Before(points: seq<Point>, start: real): seq<Point> {
    if points == [] then []
    else
      var last := points[|points| - 1];
      Before(points[..|points| - 1], start) + if last.time < start then [last] else []
  }

  function TimeOf(p: Point): real { p.time }

  function ValueOf(p: Point): real { p.value }

  function MeanBy(points: seq<Point>, f: Point -> real): real
    requires points != []
  {
    Over(SumBy(points, f), |points|)
  }

  function MeanValue(points: seq<Point>): real
    requires points != []
  {
    MeanBy(points, ValueOf)
  }

  function MeanTime(points: seq<Point>): real
    requires points != []
  {
    MeanBy(points, TimeOf)
  }

  function Smoothed(points: seq<Point>, alpha: real): real
    requires points != []
  {
    var last := points[|points| - 1];
    if |points| == 1 then last.value
    else alpha * last.value + (1.0 - alpha) * Smoothed(points[..|points| - 1], alpha)
  }

  function EwmaOf(points: seq<Point>, alpha: real): real {
    var sorted := Sort(TimeOf, points);
    if sorted == [] then 0.0 else Smoothed(sorted, alpha)
  }

  const DEGENERATE := 0.000000000001

  /** (t - mean t) * (v - mean v) and (t - mean t)^2, as functions of the point. */
  function CoTerm(t: real, v: real): Point -> real { (p: Point) => (p.time - t) * (p.value - v) }

  function SpreadTerm(t: real): Point -> real { (p: Point) => (p.time - t) * (p.time - t) }

  function Covariation(points: seq<Point>): real
    requires points != []
  {
    SumBy(points, CoTerm(MeanTime(points), MeanValue(points)))
  }

  function Spread(points: seq<Point>): real
    requires points != []
  {
    SumBy(points, SpreadTerm(MeanTime(points)))
  }

  predicate Degenerate(points: seq<Point>)
    requires points != []
  {
    -DEGENERATE < Spread(points) < DEGENERATE
  }

  function Slope(points: seq<Point>): real
    requires points != [] && !Degenerate(points)
  {
    Covariation(points) / Spread(points)
  }

  function Intercept(points: seq<Point>): real
    requires points != [] && !Degenerate(points)
  {
    MeanValue(points) - Slope(points) * MeanTime(points)
  }

  /** `_trend_adjusted_estimate` */
  function TrendOf(points: seq<Point>, target: real): real
    requires points != []
  {
    if Degenerate(points) then MeanValue(points) else Slope(points) * target + Intercept(points)
  }

  function EstimateFrom(all: seq<Point>, start: real, how: Method, alpha: real): real {
    var pre := Before(all, start);
    if pre == [] then if all == [] then 0.0 else MeanValue(all)
    else if how == Ewma || (how == TrendAdjusted && |pre| < 3) then EwmaOf(pre, alpha)
    else if how == TrendAdjusted then TrendOf(pre, start)
    else MeanValue(pre)
  }

  function Estimate(contents: seq<Snapshot>, start: real, name: string, how: Method, alpha: real): real {
    EstimateFrom(Observations(Sort(Time, contents), name), start, how, alpha)
  }

  // ----- The program ------------------------------------------------------------

  method EwmaEstimate(points: seq<Point>, alpha: real) returns (result: real)
    ensures result == EwmaOf(points, alpha)
  {
    var sorted := Sort(TimeOf, points);
    if sorted == [] {
      return 0.0;
    }
    result := sorted[0].value;
    for k := 1 to |sorted|
      invariant result == Smoothed(sorted[..k], alpha)
    {
      assert sorted[..k + 1][..k] == sorted[..k];
      result := alpha * sorted[k].value + (1.0 - alpha) * result;
    }
    assert sorted[..|sorted|] == sorted;
  }

  /** The two lists filled by the nested loops over records and metrics. */
  method CollectPoints(s: seq<Snapshot>, start: real, name: string) returns (all: seq<Point>, pre: seq<Point>)
    ensures all == Observations(s, name) && pre == Before(all, start)
  {
    all, pre := [], [];
    for r := 0 to |s|
      invariant all == Observations(s[..r], name) && pre == Before(all, start)
    {
      assert s[..r + 1][..r] == s[..r];
      var ts, metrics := Time(s[r]), s[r].metrics;
      ghost var before := all;
      for k := 0 to |metrics|
        invariant all == before + MetricPoints(ts, metrics[..k], name) && pre == Before(all, start)
      {
        assert metrics[..k + 1][..k] == metrics[..k];
        if metrics[k].name == name {
          var point := Point(ts, metrics[k].value);
          BeforeSnoc(all, point, start);
          all := all + [point];
          if ts < start {
            pre := pre + [point];
          }
        }
      }
      assert metrics[..|metrics|] == metrics;
    }
    assert s[..|s|] == s;
  }

  lemma BeforeSnoc(points: seq<Point>, p: Point, start: real)
    ensures Before(points + [p], start) == Before(points, start) + if p.time < start then [p] else []
  {
  }

  method EstimateMetric(store: InMemoryHistoryStore, start: real, name: string, how: Method, alpha: real)
    returns (estimate: real)
    requires store.Valid()
    ensures estimate == Estimate(store.Contents(), start, name, how, alpha)
  {
    hide Sort, Observations, Before, TrendOf, SumBy, EwmaOf;
    var records := SortRecords(store.records);
    var all, pre := CollectPoints(NowOf(records), start, name);
    if pre == [] {
      return if all == [] then 0.0 else MeanValue(all);
    }
    if how == Ewma || (how == TrendAdjusted && |pre| < 3) {
      estimate := EwmaEstimate(pre, alpha);
    } else if how == TrendAdjusted {
      estimate := TrendOf(pre, start);
    } else {
      estimate := MeanValue(pre);
    }
  }
}
