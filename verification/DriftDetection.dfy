/**
  `evaluator/temporal/series.py` and `evaluator/temporal/drift_detection.py`:
  the time series of one metric, and mean-shift events over its windows.
*/
module DriftDetection {
  import opened Basics
  import opened History
  import opened RealSums
  import opened Sorting

  datatype Point = Point(time: real, value: real, runId: string)

  datatype DriftEvent = DriftEvent(start: real, end: real, magnitude: real, runIds: seq<string>)

  // ----- The series -------------------------------------------------------------

  function TimeOf(p: Point): real { p.time }

  /** The run id of the metric if it has one, else that of the record. */
  function RunIdOf(s: Snapshot, m: Metric): string { if m.runId.Some? then m.runId.value else s.runId }

  function PointsOf(s: Snapshot, metrics: seq<Metric>, name: string): seq<Point> {
    if metrics == [] then []
    else
      var last := metrics[|metrics| - 1];
      PointsOf(s, metrics[..|metrics| - 1], name)
        + if last.name == name then [Point(Time(s), last.value, RunIdOf(s, last))] else []
  }

  function Unsorted(contents: seq<Snapshot>, name: string): seq<Point> {
    if contents == [] then []
    else Unsorted(contents[..|contents| - 1], name)
           + PointsOf(contents[|contents| - 1], contents[|contents| - 1].metrics, name)
  }

  function Series(contents: seq<Snapshot>, name: string): seq<Point> { Sort(TimeOf, Unsorted(contents, name)) }

  method GetMetricSeriesWithRuns(store: InMemoryHistoryStore, name: string) returns (points: seq<Point>)
    requires store.Valid()
    ensures points == Series(store.Contents(), name)
  {
    var contents := store.Contents();
    points := [];
    for r := 0 to |contents|
      invariant points == Unsorted(contents[..r], name)
    {
      assert contents[..r + 1][..r] == contents[..r];
      var s := contents[r];
      ghost var before := points;
      for k := 0 to |s.metrics|
        invariant points == before + PointsOf(s, s.metrics[..k], name)
      {
        assert s.metrics[..k + 1][..k] == s.metrics[..k];
        if s.metrics[k].name == name {
          points := points + [Point(Time(s), s.metrics[k].value, RunIdOf(s, s.metrics[k]))];
        }
      }
      assert s.metrics[..|s.metrics|] == s.metrics;
    }
    assert contents[..|contents|] == contents;
    points := Sort(TimeOf, points);
  }

  /** The point that a metric of a record contributes: a missing timestamp is 0, and the metric's own
      run id goes before the record's. */
  ghost predicate IsPointOf(p: Point, s: Snapshot, m: Metric) {
    && p.value == m.value
    && (if s.timestamp.Some? then p.time == s.timestamp.value else p.time == 0.0)
    && (if m.runId.Some? then p.runId == m.runId.value else p.runId == s.runId)
  }

  ghost predicate FromMetrics(p: Point, s: Snapshot, metrics: seq<Metric>, name: string) {
    exists k :: 0 <= k < |metrics| && metrics[k].name == name && IsPointOf(p, s, metrics[k])
  }

  ghost predicate FromRecords(p: Point, contents: seq<Snapshot>, name: string) {
    exists r :: 0 <= r < |contents| && FromMetrics(p, contents[r], contents[r].metrics, name)
  }

  lemma FromMetricsSnoc(p: Point, s: Snapshot, metrics: seq<Metric>, name: string)
    requires metrics != []
    ensures var n := |metrics| - 1;
            FromMetrics(p, s, metrics, name)
            <==> FromMetrics(p, s, metrics[..n], name) || (metrics[n].name == name && IsPointOf(p, s, metrics[n]))
  {
    hide IsPointOf;
    var n := |metrics| - 1;
    if FromMetrics(p, s, metrics[..n], name) {
      var k :| 0 <= k < n && metrics[..n][k].name == name && IsPointOf(p, s, metrics[..n][k]);
      assert metrics[k] == metrics[..n][k];
    }
    if FromMetrics(p, s, metrics, name) {
      var k :| 0 <= k < |metrics| && metrics[k].name == name && IsPointOf(p, s, metrics[k]);
      assert k < n ==> metrics[..n][k] == metrics[k];
    }
  }

  lemma {:induction false} PointsAre(s: Snapshot, metrics: seq<Metric>, name: string)
    ensures forall p :: p in PointsOf(s, metrics, name) <==> FromMetrics(p, s, metrics, name)
    ensures |PointsOf(s, metrics, name)| == NamedCount(metrics, name)
  {
    if metrics == [] {
    } else {
      hide FromMetrics, NamedCount;
      var n := |metrics| - 1;
      PointsAre(s, metrics[..n], name);
      NamedCountSnoc(metrics, name);
      forall p ensures p in PointsOf(s, metrics, name) <==> FromMetrics(p, s, metrics, name) {
        FromMetricsSnoc(p, s, metrics, name);
      }
    }
  }

  lemma {:induction false} UnsortedAre(contents: seq<Snapshot>, name: string)
    ensures forall p :: p in Unsorted(contents, name) <==> FromRecords(p, contents, name)
  {
    hide PointsOf, FromMetrics;
    if contents == [] {
    } else {
      var n := |contents| - 1;
      var q := contents[..n];
      UnsortedAre(q, name);
      PointsAre(contents[n], contents[n].metrics, name);
      forall p ensures FromRecords(p, contents, name)
                  <==> FromRecords(p, q, name) || FromMetrics(p, contents[n], contents[n].metrics, name) {
        if FromRecords(p, q, name) {
          var r :| 0 <= r < n && FromMetrics(p, q[r], q[r].metrics, name);
          assert contents[r] == q[r];
        }
      }
    }
  }

  /** The series has exactly the points of the metrics with the name, in time order, and one for each. */
  lemma SeriesAre(contents: seq<Snapshot>, s: Snapshot, name: string)
    ensures SortedBy(TimeOf, Series(contents, name))
    ensures forall p :: p in Series(contents, name) <==> FromRecords(p, contents, name)
    ensures Series([], name) == []
    ensures |Series(contents + [s], name)|
         == |Series(contents, name)| + NamedCount(s.metrics, name)
  {
    hide FromRecords, PointsOf, NamedCount;
    SortSorts(TimeOf, Unsorted(contents, name));
    SameElements(Series(contents, name), Unsorted(contents, name));
    UnsortedAre(contents, name);
    PointsAre(s, s.metrics, name);
    assert (contents + [s])[..|contents|] == contents;
  }

  // ----- Windows and events -----------------------------------------------------

  type Window = seq<Point>

  /** The full windows of `w` points, from the front; a shorter rest is ignored. */
  function Windows(series: seq<Point>, w: nat): (r: seq<Window>)
    requires w >= 1
    ensures forall k :: 0 <= k < |r| ==> |r[k]| == w
    decreases |series|
  {
    if |series| < w then [] else [series[..w]] + Windows(series[w..], w)
  }

  function Values(window: Window): (r: seq<real>)
    ensures |r| == |window|
  {
    seq(|window|, i requires 0 <= i < |window| => window[i].value)
  }

  function WindowMean(window: Window): real
    requires window != []
  {
    MeanOf(Values(window))
  }

  function Shift(prev: Window, curr: Window): real
    requires prev != [] && curr != []
  {
    Abs(WindowMean(curr) - WindowMean(prev))
  }

  function RunIds(window: Window): seq<string> {
    seq(|window|, i requires 0 <= i < |window| => window[i].runId)
  }

  /** The event of two consecutive windows, if the means differ by more than the threshold. */
  function Compared(prev: Window, curr: Window, threshold: real): seq<DriftEvent>
    requires prev != [] && curr != []
  {
    if Shift(prev, curr) > threshold
    then [DriftEvent(curr[0].time, curr[|curr| - 1].time, Shift(prev, curr), RunIds(curr))]
    else []
  }

  ghost predicate NonEmpty(windows: seq<Window>) { forall k :: 0 <= k < |windows| ==> windows[k] != [] }

  function EventsOf(windows: seq<Window>, threshold: real): seq<DriftEvent>
    requires forall k :: 0 <= k < |windows| ==> windows[k] != []
  {
    if |windows| < 2 then []
    else EventsOf(windows[..|windows| - 1], threshold)
           + Compared(windows[|windows| - 2], windows[|windows| - 1], threshold)
  }

  // ----- What an event says ----------------------------------------------------------------

  ghost function ValueAt(window: Window): int -> real { i => if 0 <= i < |window| then window[i].value else 0.0 }

  ghost function SumOfValues(window: Window): real { Sum(|window|, ValueAt(window)) }

  /** |window| times the mean is the sum of the values. */
  lemma MeanIsMean(window: Window)
    requires window != []
    ensures |window| as real * WindowMean(window) == SumOfValues(window)
  {
    MeanTimesSize(Values(window));
    SumSame(|window|, ItemsOf(Values(window)), ValueAt(window));
  }

  /** The event of a window of w points: w times its magnitude is how far the sums of the two windows are apart. */
  ghost predicate IsEventOf(e: DriftEvent, prev: Window, curr: Window) {
    && curr != [] && e.start == curr[0].time && e.end == curr[|curr| - 1].time
    && |e.runIds| == |curr| && (forall i :: 0 <= i < |curr| ==> e.runIds[i] == curr[i].runId)
    && |curr| as real * e.magnitude == Abs(SumOfValues(curr) - SumOfValues(prev))
  }

  /** The sums of two windows of w points are more than w thresholds apart. */
  ghost predicate Apart(prev: Window, curr: Window, threshold: real) {
    Abs(SumOfValues(curr) - SumOfValues(prev)) > |curr| as real * threshold
  }

  lemma ShiftOfSums(prev: Window, curr: Window, threshold: real)
    requires prev != [] && |prev| == |curr|
    ensures |curr| as real * Shift(prev, curr) == Abs(SumOfValues(curr) - SumOfValues(prev))
    ensures Shift(prev, curr) > threshold <==> Apart(prev, curr, threshold)
  {
    hide WindowMean, SumOfValues;
    MeanIsMean(prev);
    MeanIsMean(curr);
    ScaledGap(|curr| as real, WindowMean(curr), WindowMean(prev), threshold);
  }

  lemma ScaledGap(n: real, x: real, y: real, threshold: real)
    requires n > 0.0
    ensures n * Abs(x - y) == Abs(n * x - n * y)
    ensures Abs(x - y) > threshold <==> n * Abs(x - y) > n * threshold
  {
    assert n * x - n * y == n * (x - y);
    if x - y < 0.0 {
      ProductNonnegative(n, y - x);
      assert n * (y - x) == n * y - n * x;
    } else {
      ProductNonnegative(n, x - y);
    }
    SameOrder(n, Abs(x - y), threshold);
  }

  lemma SameOrder(n: real, x: real, y: real)
    requires n > 0.0
    ensures x > y <==> n * x > n * y
  {
    if x > y {
      SameSigns(n, x - y, n * (x - y));
      assert n * (x - y) == n * x - n * y;
    } else {
      ProductNonnegative(n, y - x);
      assert n * (y - x) == n * y - n * x;
    }
  }

  lemma ComparedMeans(prev: Window, curr: Window, threshold: real)
    requires prev != [] && |prev| == |curr|
    ensures Compared(prev, curr, threshold) != [] <==> Apart(prev, curr, threshold)
    ensures forall e :: e in Compared(prev, curr, threshold) ==> IsEventOf(e, prev, curr)
  {
    hide SumOfValues, Shift, Apart;
    ShiftOfSums(prev, curr, threshold);
  }

  ghost predicate ApartAt(windows: seq<Window>, k: int, threshold: real) {
    1 <= k < |windows| && Apart(windows[k - 1], windows[k], threshold)
  }

  /** Some event is that of window k. */
  ghost predicate HasEvent(events: seq<DriftEvent>, windows: seq<Window>, k: int)
    requires 1 <= k < |windows|
  {
    exists e :: e in events && IsEventOf(e, windows[k - 1], windows[k])
  }

  ghost predicate IsReported(e: DriftEvent, windows: seq<Window>, threshold: real) {
    exists k :: ApartAt(windows, k, threshold) && IsEventOf(e, windows[k - 1], windows[k])
  }

  ghost function ApartCount(windows: seq<Window>, threshold: real): nat {
    |set k | 1 <= k < |windows| && ApartAt(windows, k, threshold)|
  }

  /** Exactly the windows whose sums are apart from the previous one's have an event, and it says by how much. */
  ghost predicate Reports(events: seq<DriftEvent>, windows: seq<Window>, threshold: real) {
    && (forall k :: ApartAt(windows, k, threshold) ==> HasEvent(events, windows, k))
    && (forall e :: e in events ==> IsReported(e, windows, threshold))
    && |events| == ApartCount(windows, threshold)
  }

  lemma {:induction false} EventsReport(windows: seq<Window>, threshold: real)
    requires NonEmpty(windows)
    requires forall k, l :: 0 <= k < |windows| && 0 <= l < |windows| ==> |windows[k]| == |windows[l]|
    ensures Reports(EventsOf(windows, threshold), windows, threshold)
  {
    hide Compared, Apart, IsEventOf;
    if |windows| < 2 {
    } else {
      var n := |windows| - 1;
      var q, last := windows[..n], Compared(windows[n - 1], windows[n], threshold);
      EventsReport(q, threshold);
      ComparedMeans(windows[n - 1], windows[n], threshold);
      ComparedIs(windows[n - 1], windows[n], threshold);
      ReportsMore(EventsOf(q, threshold), last, windows, threshold);
    }
  }

  lemma ApartInPrefix(windows: seq<Window>, n: nat, threshold: real)
    requires n <= |windows|
    ensures forall k :: ApartAt(windows[..n], k, threshold) <==> k < n && ApartAt(windows, k, threshold)
  {
    hide Apart;
    forall k | 1 <= k < n ensures ApartAt(windows[..n], k, threshold) <==> ApartAt(windows, k, threshold) {
      assert windows[..n][k - 1] == windows[k - 1] && windows[..n][k] == windows[k];
    }
  }

  lemma HasEventMore(events: seq<DriftEvent>, last: seq<DriftEvent>, windows: seq<Window>, n: nat, k: int)
    requires n <= |windows| && 1 <= k < n && HasEvent(events, windows[..n], k)
    ensures HasEvent(events + last, windows, k)
  {
    hide IsEventOf;
    var e :| e in events && IsEventOf(e, windows[..n][k - 1], windows[..n][k]);
    assert e in events + last;
  }

  lemma ReportedAt(e: DriftEvent, windows: seq<Window>, k: int, threshold: real)
    requires ApartAt(windows, k, threshold) && IsEventOf(e, windows[k - 1], windows[k])
    ensures IsReported(e, windows, threshold)
  {
    hide IsEventOf, Apart;
  }

  lemma WhereReported(e: DriftEvent, windows: seq<Window>, threshold: real) returns (k: int)
    requires IsReported(e, windows, threshold)
    ensures ApartAt(windows, k, threshold) && IsEventOf(e, windows[k - 1], windows[k])
  {
    hide IsEventOf, Apart;
    k :| ApartAt(windows, k, threshold) && IsEventOf(e, windows[k - 1], windows[k]);
  }

  lemma IsReportedMore(e: DriftEvent, windows: seq<Window>, n: nat, threshold: real)
    requires n <= |windows| && IsReported(e, windows[..n], threshold)
    ensures IsReported(e, windows, threshold)
  {
    hide IsEventOf, Apart, IsReported;
    var k := WhereReported(e, windows[..n], threshold);
    assert windows[..n][k - 1] == windows[k - 1] && windows[..n][k] == windows[k];
    ReportedAt(e, windows, k, threshold);
  }

  lemma ApartCountMore(windows: seq<Window>, threshold: real)
    requires |windows| >= 2
    ensures var n := |windows| - 1;
            ApartCount(windows, threshold)
            == ApartCount(windows[..n], threshold) + if ApartAt(windows, n, threshold) then 1 else 0
  {
    hide ApartAt;
    var n := |windows| - 1;
    ApartInPrefix(windows, n, threshold);
    assert (set k | 1 <= k < |windows| && ApartAt(windows, k, threshold))
        == (set k | 1 <= k < |windows[..n]| && ApartAt(windows[..n], k, threshold))
           + if ApartAt(windows, n, threshold) then {n} else {};
  }

  lemma ReportsMore(events: seq<DriftEvent>, last: seq<DriftEvent>, windows: seq<Window>, threshold: real)
    requires |windows| >= 2 && Reports(events, windows[..|windows| - 1], threshold)
    requires var n := |windows| - 1;
             && |last| <= 1 && (last != [] <==> ApartAt(windows, n, threshold))
             && (forall e :: e in last ==> IsEventOf(e, windows[n - 1], windows[n]))
    ensures Reports(events + last, windows, threshold)
  {
    hide ApartAt, IsEventOf, HasEvent, IsReported, ApartCount;
    var n := |windows| - 1;
    ApartInPrefix(windows, n, threshold);
    assert ApartIsInside(windows, threshold) by { ApartInside(windows, threshold); }
    forall k | ApartAt(windows, k, threshold) ensures HasEvent(events + last, windows, k) {
      if k < n {
        assert ApartAt(windows[..n], k, threshold);
        HasEventMore(events, last, windows, n, k);
      } else {
        assert k == n && last[0] in last;
        LastHasEvent(events, last, windows);
      }
    }
    forall e | e in events + last ensures IsReported(e, windows, threshold) {
      if e in events {
        IsReportedMore(e, windows, n, threshold);
      } else {
        ReportedAt(e, windows, n, threshold);
      }
    }
    ApartCountMore(windows, threshold);
  }

  ghost predicate ApartIsInside(windows: seq<Window>, threshold: real) {
    forall k :: ApartAt(windows, k, threshold) ==> 1 <= k < |windows|
  }

  lemma ApartInside(windows: seq<Window>, threshold: real)
    ensures ApartIsInside(windows, threshold)
  {
  }

  lemma LastHasEvent(events: seq<DriftEvent>, last: seq<DriftEvent>, windows: seq<Window>)
    requires |windows| >= 2 && last != [] && IsEventOf(last[0], windows[|windows| - 2], windows[|windows| - 1])
    ensures HasEvent(events + last, windows, |windows| - 1)
  {
    assert last[0] in events + last;
  }

  method DetectDriftEvents(series: seq<Point>, windowSize: nat, threshold: real) returns (events: seq<DriftEvent>)
    requires windowSize >= 1
    ensures events == EventsOf(Windows(series, windowSize), threshold)
    ensures Reports(events, Windows(series, windowSize), threshold)
  {
    hide Reports, NonEmpty, Apart, IsEventOf, Compared, RunIds, Shift, EventsOf, Windows;
    WindowsReport(series, windowSize, threshold);
    events := [];
    if |series| < windowSize * 2 {
      TooShort(series, windowSize, threshold);
      return;
    }
    var i := windowSize;
    ghost var done: seq<Window> := [];
    NextWindow(series, 0, windowSize);
    assert series[0..] == series && [] + [series[..windowSize]] == [series[..windowSize]];
    OneWindow(series[..windowSize], threshold);
    while i + windowSize <= |series|
      invariant windowSize <= i <= |series|
      invariant forall k :: 0 <= k < |done| ==> done[k] != []
      invariant Windows(series, windowSize) == done + [series[i - windowSize..i]] + Windows(series[i..], windowSize)
      invariant events == EventsOf(done + [series[i - windowSize..i]], threshold)
    {
      var prev, curr := series[i - windowSize..i], series[i..i + windowSize];
      NextWindow(series, i, windowSize);
      EventsSnoc(done, prev, curr, threshold);
      ComparedIs(prev, curr, threshold);
      if Shift(prev, curr) > threshold {
        events := events + [DriftEvent(curr[0].time, curr[|curr| - 1].time, Shift(prev, curr), RunIds(curr))];
      }
      assert done + [prev] + ([curr] + Windows(series[i + windowSize..], windowSize))
          == done + [prev] + [curr] + Windows(series[i + windowSize..], windowSize);
      done := done + [prev];
      i := i + windowSize;
    }
    NoWindow(series[i..], windowSize);
    assert done + [series[i - windowSize..i]] + [] == done + [series[i - windowSize..i]];
  }

  lemma WindowsReport(series: seq<Point>, w: nat, threshold: real)
    requires w >= 1
    ensures Reports(EventsOf(Windows(series, w), threshold), Windows(series, w), threshold)
  {
    hide EventsOf, Reports, Windows;
    EventsReport(Windows(series, w), threshold);
  }

  lemma OneWindow(w: Window, threshold: real)
    requires w != []
    ensures EventsOf([w], threshold) == []
  {
  }

  lemma NoWindow(series: seq<Point>, w: nat)
    requires w >= 1 && |series| < w
    ensures Windows(series, w) == []
  {
  }

  lemma EventsSnoc(done: seq<Window>, prev: Window, curr: Window, threshold: real)
    requires (forall k :: 0 <= k < |done| ==> done[k] != []) && prev != [] && curr != []
    ensures EventsOf(done + [prev] + [curr], threshold)
         == EventsOf(done + [prev], threshold) + Compared(prev, curr, threshold)
  {
  }

  lemma ComparedIs(prev: Window, curr: Window, threshold: real)
    requires prev != [] && curr != []
    ensures Compared(prev, curr, threshold)
         == if Shift(prev, curr) > threshold
            then [DriftEvent(curr[0].time, curr[|curr| - 1].time, Shift(prev, curr), RunIds(curr))] else []
  {
  }

  lemma NextWindow(series: seq<Point>, i: nat, w: nat)
    requires w >= 1 && i + w <= |series|
    ensures Windows(series[i..], w) == [series[i..i + w]] + Windows(series[i + w..], w)
  {
    assert series[i..][..w] == series[i..i + w] && series[i..][w..] == series[i + w..];
  }

  lemma TooShort(series: seq<Point>, w: nat, threshold: real)
    requires w >= 1 && |series| < w * 2
    ensures EventsOf(Windows(series, w), threshold) == []
  {
  }

  method DetectDriftFromStore(store: InMemoryHistoryStore, name: string, windowSize: nat, threshold: real)
    returns (events: seq<DriftEvent>)
    requires store.Valid() && windowSize >= 1
    ensures events == EventsOf(Windows(Series(store.Contents(), name), windowSize), threshold)
    ensures Reports(events, Windows(Series(store.Contents(), name), windowSize), threshold)
  {
    hide Reports, EventsOf, Windows, Series;
    var series := GetMetricSeriesWithRuns(store, name);
    events := DetectDriftEvents(series, windowSize, threshold);
  }

  // ----- Chronology ---------------------------------------------------------------

  /** Windows in time order: inside each, and all of one before all of the next. */
  ghost predicate InOrder(windows: seq<Window>) {
    && (forall k :: 0 <= k < |windows| ==> windows[k] != [] && SortedBy(TimeOf, windows[k]))
    && (forall k, l :: 0 <= k < l < |windows| ==> AllBefore(windows[k], windows[l]))
  }

  ghost predicate AllBefore(earlier: Window, later: Window) {
    forall p, q :: p in earlier && q in later ==> p.time <= q.time
  }

  lemma {:induction false} WindowsFromSeries(series: seq<Point>, w: nat, k: nat)
    requires w >= 1 && k < |Windows(series, w)|
    ensures forall p :: p in Windows(series, w)[k] ==> p in series
    ensures SortedBy(TimeOf, series) ==> SortedBy(TimeOf, Windows(series, w)[k])
    decreases |series|
  {
    assert series == series[..w] + series[w..];
    if k == 0 {
    } else {
      WindowsFromSeries(series[w..], w, k - 1);
      assert Windows(series, w)[k] == Windows(series[w..], w)[k - 1];
    }
  }

  /** The windows are consecutive, disjoint stretches of the series, as many as fit. */
  lemma {:induction false} WindowsTile(series: seq<Point>, w: nat, k: nat)
    requires w >= 1
    ensures w * |Windows(series, w)| <= |series| < w * |Windows(series, w)| + w
    ensures k < |Windows(series, w)| ==>
              0 <= w * k <= w * k + w <= |series| && Windows(series, w)[k] == series[w * k..w * k + w]
    decreases |series|
  {
    if |series| >= w {
      var rest := Windows(series[w..], w);
      WindowsTile(series[w..], w, if k == 0 then 0 else k - 1);
      OneMore(w, |rest|);
      if 0 < k <= |rest| {
        OneMore(w, k - 1);
        SliceOfRest(series, w, w * (k - 1));
      } else {
        assert w * 0 == 0;
      }
    } else {
      NoWindow(series, w);
    }
  }

  lemma OneMore(w: nat, k: nat)
    ensures w * (k + 1) == w * k + w && 0 <= w * k
  {
  }

  lemma SliceOfRest(series: seq<Point>, w: nat, lo: nat)
    requires w + lo + w <= |series|
    ensures series[w..][lo..lo + w] == series[lo + w..lo + w + w]
  {
  }

  lemma {:induction false} WindowsInOrder(series: seq<Point>, w: nat)
    requires w >= 1 && SortedBy(TimeOf, series)
    ensures InOrder(Windows(series, w))
    decreases |series|
  {
    if |series| < w {
    } else {
      var rest := Windows(series[w..], w);
      WindowsInOrder(series[w..], w);
      forall l | 0 <= l < |rest| ensures AllBefore(series[..w], rest[l]) {
        WindowsFromSeries(series[w..], w, l);
        PrefixBefore(series, w);
      }
      forall k, l | 0 <= k < l < |Windows(series, w)| ensures AllBefore(Windows(series, w)[k], Windows(series, w)[l]) {
        assert Windows(series, w)[l] == rest[l - 1];
        if k > 0 {
          assert Windows(series, w)[k] == rest[k - 1];
          assert AllBefore(rest[k - 1], rest[l - 1]);
        }
      }
    }
  }

  lemma PrefixBefore(series: seq<Point>, w: nat)
    requires w <= |series| && SortedBy(TimeOf, series)
    ensures AllBefore(series[..w], series[w..])
  {
  }

  ghost predicate Chronological(events: seq<DriftEvent>) {
    && (forall i :: 0 <= i < |events| ==> events[i].start <= events[i].end)
    && (forall i, j :: 0 <= i < j < |events| ==> events[i].end <= events[j].start)
  }

  function LastTime(window: Window): real
    requires window != []
  {
    window[|window| - 1].time
  }

  /** The events of the first n windows, one comparison more or none. */
  lemma EventsOneMore(windows: seq<Window>, n: nat, threshold: real)
    requires n < |windows| && InOrder(windows)
    ensures InOrder(windows[..n]) && InOrder(windows[..n + 1])
    ensures n == 0 ==> EventsOf(windows[..n + 1], threshold) == []
    ensures n > 0 ==>
              EventsOf(windows[..n + 1], threshold)
              == EventsOf(windows[..n], threshold) + Compared(windows[n - 1], windows[n], threshold)
  {
    hide Compared;
    assert windows[..n + 1][..n] == windows[..n];
  }

  /** One comparison's event starts after the earlier window and ends with the later one. */
  lemma ComparedInTime(prev: Window, curr: Window, threshold: real)
    requires prev != [] && curr != [] && SortedBy(TimeOf, curr) && AllBefore(prev, curr)
    ensures Chronological(Compared(prev, curr, threshold)) && LastTime(prev) <= LastTime(curr)
    ensures forall e :: e in Compared(prev, curr, threshold) ==> LastTime(prev) <= e.start && e.end <= LastTime(curr)
  {
    hide Shift, RunIds;
    assert prev[|prev| - 1] in prev && curr[0] in curr;
    assert |curr| == 1 || TimeOf(curr[0]) <= TimeOf(curr[|curr| - 1]);
  }

  lemma {:induction false} EventsChronological(windows: seq<Window>, threshold: real)
    requires InOrder(windows)
    ensures Chronological(EventsOf(windows, threshold))
    ensures forall e :: e in EventsOf(windows, threshold) ==>
              windows != [] && e.end <= LastTime(windows[|windows| - 1])
  {
    hide Compared, EventsOf, Chronological, LastTime, AllBefore;
    if windows == [] {
      NoEvents(threshold);
    } else {
      var n := |windows| - 1;
      assert windows[..n + 1] == windows;
      EventsOneMore(windows, n, threshold);
      if n == 0 {
        NoEvents(threshold);
      } else {
        EventsChronological(windows[..n], threshold);
        ComparedInTime(windows[n - 1], windows[n], threshold);
        LaterEvents(EventsOf(windows[..n], threshold), Compared(windows[n - 1], windows[n], threshold),
                    LastTime(windows[n - 1]));
      }
    }
  }

  lemma NoEvents(threshold: real)
    ensures EventsOf([], threshold) == [] && Chronological([])
  {
  }

  lemma LaterEvents(earlier: seq<DriftEvent>, more: seq<DriftEvent>, bound: real)
    requires Chronological(earlier) && Chronological(more)
    requires (forall e :: e in earlier ==> e.end <= bound) && (forall e :: e in more ==> bound <= e.start)
    ensures Chronological(earlier + more)
  {
  }

  /** Events detected from a store come in time order over non-overlapping windows. */
  lemma StoreEventsChronological(contents: seq<Snapshot>, name: string, windowSize: nat, threshold: real)
    requires windowSize >= 1
    ensures Chronological(EventsOf(Windows(Series(contents, name), windowSize), threshold))
  {
    SortSorts(TimeOf, Unsorted(contents, name));
    WindowsInOrder(Series(contents, name), windowSize);
    EventsChronological(Windows(Series(contents, name), windowSize), threshold);
  }

  // ----- No shift goes unnoticed ------------------------------------------------------

  function Magnitudes(events: seq<DriftEvent>): real {
    if events == [] then 0.0 else Magnitudes(events[..|events| - 1]) + events[|events| - 1].magnitude
  }

  /** `n` times the threshold, as a repeated sum. */
  function Slack(n: nat, threshold: real): real { if n == 0 then 0.0 else Slack(n - 1, threshold) + threshold }

  /** From the first window to the last, the mean moves by no more than the event
      magnitudes plus one threshold for every comparison that raised no event. */
  lemma {:induction false} ShiftIsExplained(windows: seq<Window>, threshold: real)
    requires NonEmpty(windows) && windows != []
    ensures |EventsOf(windows, threshold)| <= |windows| - 1
    ensures Shift(windows[0], windows[|windows| - 1])
         <= Magnitudes(EventsOf(windows, threshold))
            + Slack(|windows| - 1 - |EventsOf(windows, threshold)|, threshold)
  {
    hide Shift, Compared, Magnitudes, Slack;
    if |windows| == 1 {
      NothingToExplain(windows[0], threshold);
    } else {
      var n := |windows| - 1;
      ShiftIsExplained(windows[..n], threshold);
      ShiftTriangle(windows[0], windows[n - 1], windows[n]);
      StepExplained(EventsOf(windows[..n], threshold), windows[n - 1], windows[n],
                    n - 1 - |EventsOf(windows[..n], threshold)|, threshold);
    }
  }

  lemma NothingToExplain(w: Window, threshold: real)
    requires w != []
    ensures Shift(w, w) == 0.0 && Magnitudes([]) == 0.0 && Slack(0, threshold) == 0.0
  {
    hide WindowMean;
  }

  lemma ShiftTriangle(a: Window, b: Window, c: Window)
    requires a != [] && b != [] && c != []
    ensures Shift(a, c) <= Shift(a, b) + Shift(b, c)
  {
    hide WindowMean;
  }

  /** One comparison: its shift is either the magnitude of its event or within the threshold. */
  lemma StepExplained(earlier: seq<DriftEvent>, prev: Window, curr: Window, silent: nat, threshold: real)
    requires prev != [] && curr != []
    ensures var more := Compared(prev, curr, threshold);
            && |more| <= 1
            && Magnitudes(earlier) + Slack(silent, threshold) + Shift(prev, curr)
               <= Magnitudes(earlier + more) + Slack(silent + 1 - |more|, threshold)
  {
    hide Shift;
    ComparedIs(prev, curr, threshold);
    var more := Compared(prev, curr, threshold);
    if more == [] {
      assert earlier + more == earlier;
    } else {
      assert (earlier + more)[..|earlier|] == earlier;
    }
  }

  lemma {:induction false} SlackIsProduct(n: nat, threshold: real)
    ensures Slack(n, threshold) == n as real * threshold
  {
    if n == 0 {
    } else {
      SlackIsProduct(n - 1, threshold);
      Distribute(threshold, (n - 1) as real, 1.0);
    }
  }

  /** With m full windows, an overall shift above (m - 1) * threshold forces an event. */
  lemma LargeShiftForcesEvent(series: seq<Point>, windowSize: nat, threshold: real)
    requires windowSize >= 1 && |Windows(series, windowSize)| >= 1
    requires var windows := Windows(series, windowSize);
             Shift(windows[0], windows[|windows| - 1]) > (|windows| - 1) as real * threshold
    ensures EventsOf(Windows(series, windowSize), threshold) != []
  {
    hide WindowMean;
    var windows := Windows(series, windowSize);
    ShiftIsExplained(windows, threshold);
    SlackIsProduct(|windows| - 1, threshold);
  }
}
