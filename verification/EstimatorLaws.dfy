/**
  What the trend fit and the moving average of the estimator promise: the fit
  is the unique least-squares line, it is exact on collinear data and moves
  with the data, and the moving average stays inside the range of its inputs.
*/
module EstimatorLaws {
  import opened Estimator
  import opened History
  import opened RealSums
  import opened Sorting

  // ----- Least squares ----------------------------------------------------------

  /** The squared vertical distance of a point from the line v = m t + c. */
  function SquaredResidual(m: real, c: real): Point -> real {
    (p: Point) => SquareOf(p.value, p.time, m, -c)
  }

  function SquareOf(y: real, x: real, m: real, b: real): real { (y - m * x + b) * (y - m * x + b) }

  /** The squared error of a line over all points. */
  function SquaredError(points: seq<Point>, m: real, c: real): real { SumBy(points, SquaredResidual(m, c)) }

  /** The squared distance from the line with slope `m` that passes `b` below (t, v). */
  function Around(t: real, v: real, m: real, b: real): Point -> real {
    (p: Point) => SquareOf(p.value - v, p.time - t, m, b)
  }

  function ValueSquare(v: real): Point -> real { (p: Point) => (p.value - v) * (p.value - v) }

  function TimeDev(t: real): Point -> real { (p: Point) => p.time - t }

  function ValueDev(v: real): Point -> real { (p: Point) => p.value - v }

  /** The squared error as a polynomial in slope and offset, from the moments of the points. */
  function Moments(vv: real, tv: real, tt: real, v: real, t: real, n: real, m: real, b: real): real {
    vv - 2.0 * m * tv + m * m * tt + 2.0 * b * v - 2.0 * b * m * t + b * b * n
  }

  lemma {:induction false} AroundSum(points: seq<Point>, t: real, v: real, m: real, b: real)
    ensures SumBy(points, Around(t, v, m, b))
         == Moments(SumBy(points, ValueSquare(v)), SumBy(points, CoTerm(t, v)), SumBy(points, SpreadTerm(t)),
                    SumBy(points, ValueDev(v)), SumBy(points, TimeDev(t)), |points| as real, m, b)
  {
    hide Moments, Around, ValueSquare, CoTerm, SpreadTerm, ValueDev, TimeDev;
    if points == [] {
      NoMoments(m, b);
    } else {
      var q, p := points[..|points| - 1], points[|points| - 1];
      AroundSum(q, t, v, m, b);
      AroundPoint(SumBy(q, ValueSquare(v)), SumBy(q, CoTerm(t, v)), SumBy(q, SpreadTerm(t)),
                  SumBy(q, ValueDev(v)), SumBy(q, TimeDev(t)), |q|, m, b, p, t, v);
    }
  }

  lemma AroundPoint(vv: real, tv: real, tt: real, vs: real, ts: real, n: nat, m: real, b: real, p: Point, t: real,
      v: real)
    ensures Moments(vv, tv, tt, vs, ts, n as real, m, b) + Around(t, v, m, b)(p)
         == Moments(vv + ValueSquare(v)(p), tv + CoTerm(t, v)(p), tt + SpreadTerm(t)(p),
                    vs + ValueDev(v)(p), ts + TimeDev(t)(p), (n + 1) as real, m, b)
  {
  }

  lemma NoMoments(m: real, b: real)
    ensures Moments(0.0, 0.0, 0.0, 0.0, 0.0, 0.0, m, b) == 0.0
  {
  }

  /** Deviations from the two means cancel. */
  lemma DeviationsCancel(points: seq<Point>)
    requires points != []
    ensures SumBy(points, TimeDev(MeanTime(points))) == 0.0
    ensures SumBy(points, ValueDev(MeanValue(points))) == 0.0
  {
    DeviationsFromMean(points, TimeOf, TimeDev(MeanTime(points)));
    DeviationsFromMean(points, ValueOf, ValueDev(MeanValue(points)));
  }

  lemma DeviationsFromMean(points: seq<Point>, f: Point -> real, dev: Point -> real)
    requires points != [] && forall p :: dev(p) == f(p) - MeanBy(points, f)
    ensures SumBy(points, dev) == 0.0
  {
    hide Over;
    var mean := MeanBy(points, f);
    forall p | p in points ensures dev(p) == Affine(1.0, f, -mean)(p) {}
    SumBySame(points, dev, Affine(1.0, f, -mean));
    SumByAffine(points, 1.0, f, -mean);
    MeanTimesCount(SumBy(points, f), |points|);
  }

  lemma MeanTimesCount(sum: real, n: nat)
    requires n > 0
    ensures 1.0 * sum + n as real * -Over(sum, n) == 0.0
  {
  }

  lemma ErrorAroundMeans(points: seq<Point>, m: real, c: real)
    requires points != []
    ensures SquaredError(points, m, c)
         == Moments(SumBy(points, ValueSquare(MeanValue(points))), Covariation(points), Spread(points), 0.0, 0.0,
                    |points| as real, m, MissAt(m, c, MeanTime(points), MeanValue(points)))
  {
    hide MeanTime, MeanValue, Moments, SquareOf;
    var t, v := MeanTime(points), MeanValue(points);
    var b := MissAt(m, c, t, v);
    forall p | p in points ensures SquaredResidual(m, c)(p) == Around(t, v, m, b)(p) {
      SameDistance(p.value, p.time, m, c, t, v);
    }
    SumBySame(points, SquaredResidual(m, c), Around(t, v, m, b));
    AroundSum(points, t, v, m, b);
    DeviationsCancel(points);
  }

  /** How far above the line the centre of mass lies. */
  function MissAt(m: real, c: real, t: real, v: real): real { v - m * t - c }

  lemma SameDistance(y: real, x: real, m: real, c: real, t: real, v: real)
    ensures SquareOf(y, x, m, -c) == SquareOf(y - v, x - t, m, MissAt(m, c, t, v))
  {
  }

  /** What a line loses against the fit: the change of slope weighed by the
      spread, and the miss at the centre of mass weighed by the count. */
  function Penalty(a: real, spread: real, miss: real, n: real): real { a * a * spread + miss * miss * n }

  /** The error of any line is the error of the fit plus exactly the penalty. */
  lemma ErrorDecomposition(points: seq<Point>, m: real, c: real)
    requires points != [] && !Degenerate(points)
    ensures SquaredError(points, m, c)
         == SquaredError(points, Slope(points), Intercept(points))
            + Penalty(Slope(points) - m, Spread(points),
                      MissAt(m, c, MeanTime(points), MeanValue(points)), |points| as real)
  {
    hide Spread, Covariation, MeanTime, MeanValue, Moments, Penalty, SquaredError, SumBy;
    ErrorAroundMeans(points, m, c);
    ErrorAroundMeans(points, Slope(points), Intercept(points));
    QuotientTimes(Covariation(points), Spread(points));
    CompleteSquare(SumBy(points, ValueSquare(MeanValue(points))), Covariation(points), Spread(points),
                   |points| as real, Slope(points), m, MissAt(m, c, MeanTime(points), MeanValue(points)));
  }

  lemma QuotientTimes(x: real, y: real)
    requires y != 0.0
    ensures x / y * y == x
  {
  }

  lemma CompleteSquare(vv: real, tv: real, tt: real, n: real, k: real, m: real, b: real)
    requires k * tt == tv
    ensures Moments(vv, tv, tt, 0.0, 0.0, n, m, b)
         == Moments(vv, tv, tt, 0.0, 0.0, n, k, 0.0) + Penalty(k - m, tt, b, n)
  {
  }

  /** The fitted line has the least squared error of all lines, and is the only one that has it. */
  lemma TrendIsLeastSquares(points: seq<Point>, m: real, c: real)
    requires points != [] && !Degenerate(points)
    ensures SquaredError(points, Slope(points), Intercept(points)) <= SquaredError(points, m, c)
    ensures SquaredError(points, Slope(points), Intercept(points)) == SquaredError(points, m, c)
            <==> m == Slope(points) && c == Intercept(points)
  {
    hide SquaredError, MeanTime, MeanValue, Spread, Covariation, Penalty;
    ErrorDecomposition(points, m, c);
    SpreadPositive(points);
    PenaltySign(Slope(points) - m, Spread(points),
                MissAt(m, c, MeanTime(points), MeanValue(points)), |points| as real);
  }

  lemma SpreadPositive(points: seq<Point>)
    requires points != [] && !Degenerate(points)
    ensures 0.0 < Spread(points)
  {
    hide MeanTime;
    var t := MeanTime(points);
    forall p | p in points ensures 0.0 <= SpreadTerm(t)(p) {
      SquareSign(p.time - t);
    }
    SumByNonnegative(points, SpreadTerm(t));
  }

  lemma PenaltySign(a: real, d: real, b: real, n: real)
    requires 0.0 < d && 0.0 < n
    ensures 0.0 <= Penalty(a, d, b, n)
    ensures Penalty(a, d, b, n) == 0.0 <==> a == 0.0 && b == 0.0
  {
    WeightedSquare(a, d, a * a * d);
    WeightedSquare(b, n, b * b * n);
  }

  lemma WeightedSquare(a: real, d: real, w: real)
    requires 0.0 < d && w == a * a * d
    ensures if a == 0.0 then w == 0.0 else 0.0 < w
  {
    if a != 0.0 {
      var s := a * a;
      StrictSquare(a, s);
      SameSigns(s, d, w);
    }
  }

  // ----- Exactness and equivariance ---------------------------------------------

  /** Collinear data are extrapolated exactly. */
  lemma TrendExactOnLines(points: seq<Point>, m: real, c: real, target: real)
    requires points != [] && !Degenerate(points)
    requires forall p :: p in points ==> p.value == m * p.time + c
    ensures Slope(points) == m && Intercept(points) == c
    ensures TrendOf(points, target) == m * target + c
  {
    hide Slope, Intercept, MeanTime, MeanValue, SquareOf;
    var k, i := Slope(points), Intercept(points);
    forall p | p in points ensures SquaredResidual(m, c)(p) == 0.0 {
      OnLine(p.value, p.time, m, c);
    }
    SumByZero(points, SquaredResidual(m, c));
    forall p | p in points ensures 0.0 <= SquaredResidual(k, i)(p) {
      SquareOfSign(p.value, p.time, k, -i);
    }
    SumByNonnegative(points, SquaredResidual(k, i));
    TrendIsLeastSquares(points, m, c);
  }

  lemma OnLine(y: real, x: real, m: real, c: real)
    requires y == m * x + c
    ensures SquareOf(y, x, m, -c) == 0.0
  {
  }

  lemma SquareOfSign(y: real, x: real, m: real, b: real)
    ensures 0.0 <= SquareOf(y, x, m, b)
  {
    SquareSign(y - m * x + b);
  }

  lemma {:induction false} SumByZero(points: seq<Point>, f: Point -> real)
    requires forall p :: p in points ==> f(p) == 0.0
    ensures SumBy(points, f) == 0.0
  {
    if points == [] {
    } else {
      SumByZero(points[..|points| - 1], f);
      assert points[|points| - 1] in points;
    }
  }

  function Mover(shift: real, scale: real, offset: real): Point -> Point {
    (p: Point) => Point(p.time + shift, scale * p.value + offset)
  }

  /** The same history in shifted time and rescaled values. */
  function MovedAll(points: seq<Point>, shift: real, scale: real, offset: real): (r: seq<Point>)
    ensures |r| == |points|
  {
    Map(Mover(shift, scale, offset), points)
  }

  lemma {:induction false} SumByMap(s: seq<Point>, move: Point -> Point, f: Point -> real, g: Point -> real)
    requires forall x :: x in s ==> f(move(x)) == g(x)
    ensures SumBy(Map(move, s), f) == SumBy(s, g)
  {
    if s == [] {
    } else {
      SumByMap(s[..|s| - 1], move, f, g);
      assert Map(move, s)[..|s| - 1] == Map(move, s[..|s| - 1]);
      assert s[|s| - 1] in s;
    }
  }

  lemma MovedMean(points: seq<Point>, move: Point -> Point, f: Point -> real, c: real, d: real)
    requires points != [] && forall p :: f(move(p)) == Affine(c, f, d)(p)
    ensures MeanBy(Map(move, points), f) == c * MeanBy(points, f) + d
  {
    hide Over, Affine;
    SumByMap(points, move, f, Affine(c, f, d));
    SumByAffine(points, c, f, d);
    AffineMean(SumBy(Map(move, points), f), c, SumBy(points, f), d, |points|);
  }

  lemma AffineMean(total: real, c: real, sum: real, d: real, n: nat)
    requires n > 0 && total == c * sum + n as real * d
    ensures Over(total, n) == c * Over(sum, n) + d
  {
  }

  lemma MovedMeans(points: seq<Point>, shift: real, scale: real, offset: real)
    requires points != []
    ensures MeanTime(MovedAll(points, shift, scale, offset)) == MeanTime(points) + shift
    ensures MeanValue(MovedAll(points, shift, scale, offset)) == scale * MeanValue(points) + offset
  {
    hide Over, SumBy;
    var move := Mover(shift, scale, offset);
    forall p ensures TimeOf(move(p)) == Affine(1.0, TimeOf, shift)(p) {
      assert move(p).time == p.time + shift;
      assert Affine(1.0, TimeOf, shift)(p) == 1.0 * TimeOf(p) + shift;
    }
    forall p ensures ValueOf(move(p)) == Affine(scale, ValueOf, offset)(p) {
      assert move(p).value == scale * p.value + offset;
      assert Affine(scale, ValueOf, offset)(p) == scale * ValueOf(p) + offset;
    }
    MovedMean(points, Mover(shift, scale, offset), TimeOf, 1.0, shift);
    MovedMean(points, Mover(shift, scale, offset), ValueOf, scale, offset);
  }

  lemma MovedSpread(points: seq<Point>, shift: real, scale: real, offset: real)
    requires points != []
    ensures Spread(MovedAll(points, shift, scale, offset)) == Spread(points)
  {
    hide MeanTime, SumBy;
    var move, t := Mover(shift, scale, offset), MeanTime(points);
    MovedMeans(points, shift, scale, offset);
    forall p | p in points ensures SpreadTerm(t + shift)(move(p)) == SpreadTerm(t)(p) {
      assert p.time + shift - (t + shift) == p.time - t;
    }
    SumByMap(points, move, SpreadTerm(t + shift), SpreadTerm(t));
  }

  lemma MovedCovariation(points: seq<Point>, shift: real, scale: real, offset: real)
    requires points != []
    ensures Covariation(MovedAll(points, shift, scale, offset)) == scale * Covariation(points)
  {
    hide MeanTime, MeanValue, SumBy, CoTerm, Affine;
    var move, t, v := Mover(shift, scale, offset), MeanTime(points), MeanValue(points);
    var after := MovedAll(points, shift, scale, offset);
    var t', v' := MeanTime(after), MeanValue(after);
    MovedMeans(points, shift, scale, offset);
    var scaled := Affine(scale, CoTerm(t, v), 0.0);
    forall p | p in points ensures CoTerm(t', v')(move(p)) == scaled(p) {
      MovedCoTerm(p, shift, scale, offset, t, v, t', v');
    }
    SumByMap(points, move, CoTerm(t', v'), scaled);
    SumByScaled(points, scale, CoTerm(t, v));
  }

  lemma SumByScaled(points: seq<Point>, c: real, f: Point -> real)
    ensures SumBy(points, Affine(c, f, 0.0)) == c * SumBy(points, f)
  {
    hide SumBy, Affine;
    SumByAffine(points, c, f, 0.0);
    assert |points| as real * 0.0 == 0.0;
  }

  lemma MovedCoTerm(p: Point, shift: real, scale: real, offset: real, t: real, v: real, t': real, v': real)
    requires t' == t + shift && v' == scale * v + offset
    ensures CoTerm(t', v')(Mover(shift, scale, offset)(p)) == Affine(scale, CoTerm(t, v), 0.0)(p)
  {
  }

  /** The estimate moves with the data: shifting time and rescaling values shifts
      and rescales it the same way, degenerate or not. */
  lemma TrendEquivariant(points: seq<Point>, target: real, shift: real, scale: real, offset: real)
    requires points != []
    ensures TrendOf(MovedAll(points, shift, scale, offset), target + shift) == scale * TrendOf(points, target) + offset
  {
    hide MeanTime, MeanValue, Spread, Covariation, MovedAll;
    var moved := MovedAll(points, shift, scale, offset);
    MovedMeans(points, shift, scale, offset);
    MovedSpread(points, shift, scale, offset);
    MovedCovariation(points, shift, scale, offset);
    if !Degenerate(points) {
      ScaledQuotient(Covariation(points), Spread(points), scale);
      MovedLine(Slope(points), MeanTime(points), MeanValue(points), target, shift, scale, offset);
    }
  }

  lemma ScaledQuotient(x: real, y: real, scale: real)
    requires y != 0.0
    ensures (scale * x) / y == scale * (x / y)
  {
  }

  lemma MovedLine(m: real, t: real, v: real, target: real, shift: real, scale: real, offset: real)
    ensures (scale * m) * (target + shift) + ((scale * v + offset) - (scale * m) * (t + shift))
         == scale * (m * target + (v - m * t)) + offset
  {
  }

  // ----- Moving average -----------------------------------------------------------

  lemma {:induction false} SmoothedWithin(points: seq<Point>, alpha: real, lo: real, hi: real)
    requires points != [] && 0.0 <= alpha <= 1.0
    requires forall i :: 0 <= i < |points| ==> lo <= points[i].value <= hi
    ensures lo <= Smoothed(points, alpha) <= hi
  {
    if |points| <= 1 {
    } else {
      SmoothedWithin(points[..|points| - 1], alpha, lo, hi);
      Between(alpha, points[|points| - 1].value, Smoothed(points[..|points| - 1], alpha), lo, hi);
    }
  }

  lemma Between(alpha: real, x: real, y: real, lo: real, hi: real)
    requires 0.0 <= alpha <= 1.0 && lo <= x <= hi && lo <= y <= hi
    ensures lo <= alpha * x + (1.0 - alpha) * y <= hi
  {
    ProductNonnegative(alpha, x - lo);
    ProductNonnegative(1.0 - alpha, y - lo);
    ProductNonnegative(alpha, hi - x);
    ProductNonnegative(1.0 - alpha, hi - y);
  }

  /** With 0 <= alpha <= 1 the average never leaves the range of its inputs;
      with alpha = 1 it is the most recent value. */
  lemma EwmaWithinInputs(points: seq<Point>, alpha: real, lo: real, hi: real)
    requires points != [] && 0.0 <= alpha <= 1.0
    requires forall p :: p in points ==> lo <= p.value <= hi
    ensures lo <= EwmaOf(points, alpha) <= hi
    ensures alpha == 1.0 ==> EwmaOf(points, alpha) == Sort(TimeOf, points)[|points| - 1].value
  {
    hide Sort, SortedBy;
    var sorted := Sort(TimeOf, points);
    SortSorts(TimeOf, points);
    SameElements(sorted, points);
    forall i | 0 <= i < |sorted| ensures lo <= sorted[i].value <= hi {
      assert sorted[i] in sorted;
    }
    SmoothedWithin(sorted, alpha, lo, hi);
    LatestOnly(sorted, alpha);
  }

  lemma LatestOnly(points: seq<Point>, alpha: real)
    requires points != []
    ensures alpha == 1.0 ==> Smoothed(points, alpha) == points[|points| - 1].value
  {
  }

  /** A point that is not older than the others enters with weight alpha, and everything before it keeps the rest. */
  lemma EwmaOfLater(points: seq<Point>, p: Point, alpha: real)
    requires forall q :: q in points ==> q.time <= p.time
    ensures EwmaOf([p], alpha) == p.value
    ensures points != [] ==> EwmaOf(points + [p], alpha) == alpha * p.value + (1.0 - alpha) * EwmaOf(points, alpha)
  {
    hide Sort, SortedBy, Smoothed;
    var sorted := Sort(TimeOf, points);
    SortOfOne(p);
    SmoothedSnoc([], p, alpha);
    assert [] + [p] == [p];
    SortedLast(points, p);
    SmoothedSnoc(sorted, p, alpha);
  }

  lemma SmoothedSnoc(points: seq<Point>, p: Point, alpha: real)
    ensures Smoothed(points + [p], alpha)
         == if points == [] then p.value else alpha * p.value + (1.0 - alpha) * Smoothed(points, alpha)
  {
    assert (points + [p])[..|points|] == points;
  }

  lemma SortedLast(points: seq<Point>, p: Point)
    requires forall q :: q in points ==> q.time <= p.time
    ensures Sort(TimeOf, points + [p]) == Sort(TimeOf, points) + [p] && |Sort(TimeOf, points)| == |points|
  {
    hide SortedBy;
    var sorted := Sort(TimeOf, points);
    SortSorts(TimeOf, points);
    SameElements(sorted, points);
    SortSnoc(TimeOf, points, p);
    forall i | 0 <= i < |sorted| ensures TimeOf(sorted[i]) <= TimeOf(p) {
      assert sorted[i] in sorted;
    }
    InsertAtEnd(TimeOf, sorted, p);
  }

  lemma SortOfOne(p: Point)
    ensures Sort(TimeOf, [p]) == [p]
  {
    assert [p][..0] == [];
  }

  // ----- What is estimated from ---------------------------------------------------------------

  ghost predicate FromMetrics(p: Point, s: Snapshot, metrics: seq<Metric>, name: string) {
    exists k :: 0 <= k < |metrics| && metrics[k].name == name && IsPointOf(p, s, metrics[k])
  }

  /** A missing timestamp is 0. */
  ghost predicate IsPointOf(p: Point, s: Snapshot, m: Metric) {
    p.value == m.value && if s.timestamp.Some? then p.time == s.timestamp.value else p.time == 0.0
  }

  ghost predicate FromRecords(p: Point, s: seq<Snapshot>, name: string) {
    exists r :: 0 <= r < |s| && FromMetrics(p, s[r], s[r].metrics, name)
  }

  lemma FromMetricsSnoc(p: Point, s: Snapshot, metrics: seq<Metric>, name: string)
    requires metrics != []
    ensures var n := |metrics| - 1;
            FromMetrics(p, s, metrics, name)
            <==> FromMetrics(p, s, metrics[..n], name) || (metrics[n].name == name && IsPointOf(p, s, metrics[n]))
  {
    hide IsPointOf;
    var n := |metrics| - 1;
    if FromMetrics(p, s, metrics[..n], name) {
      var k :| 0 <= k < n && metrics[..n][k].name == name && IsPointOf(p, s, metrics[..n][k]);
      assert metrics[k] == metrics[..n][k];
    }
    if FromMetrics(p, s, metrics, name) {
      var k :| 0 <= k < |metrics| && metrics[k].name == name && IsPointOf(p, s, metrics[k]);
      assert k < n ==> metrics[..n][k] == metrics[k];
    }
  }

  lemma {:induction false} MetricPointsAre(s: Snapshot, metrics: seq<Metric>, name: string)
    ensures forall p :: p in MetricPoints(Time(s), metrics, name) <==> FromMetrics(p, s, metrics, name)
    ensures |MetricPoints(Time(s), metrics, name)| == NamedCount(metrics, name)
    ensures forall p :: p in MetricPoints(Time(s), metrics, name) ==> p.time == Time(s)
  {
    if metrics == [] {
    } else {
      hide FromMetrics, NamedCount;
      var n := |metrics| - 1;
      MetricPointsAre(s, metrics[..n], name);
      NamedCountSnoc(metrics, name);
      forall p ensures p in MetricPoints(Time(s), metrics, name) <==> FromMetrics(p, s, metrics, name) {
        FromMetricsSnoc(p, s, metrics, name);
      }
    }
  }

  /** In a time-ordered history the observations are in time order, and exactly those of the metrics with the
      name; one more record adds one for each such metric. */
  lemma {:induction false} ObservationsAre(s: seq<Snapshot>, name: string)
    requires SortedBy(Time, s)
    ensures SortedBy(TimeOf, Observations(s, name))
    ensures forall p :: p in Observations(s, name) <==> FromRecords(p, s, name)
    ensures s == [] ==> Observations(s, name) == []
    ensures s != [] ==>
              |Observations(s, name)|
              == |Observations(s[..|s| - 1], name)| + NamedCount(s[|s| - 1].metrics, name)
  {
    hide MetricPoints, FromMetrics, NamedCount;
    if s == [] {
    } else {
      var n := |s| - 1;
      var q := s[..n];
      ObservationsAre(q, name);
      MetricPointsAre(s[n], s[n].metrics, name);
      forall p ensures FromRecords(p, s, name)
                  <==> FromRecords(p, q, name) || FromMetrics(p, s[n], s[n].metrics, name) {
        if FromRecords(p, q, name) {
          var r :| 0 <= r < n && FromMetrics(p, q[r], q[r].metrics, name);
          assert s[r] == q[r];
        }
      }
      forall p | p in Observations(q, name) ensures p.time <= Time(s[n]) {
        EarlierRecord(s, p, name);
      }
      SortedJoin(Observations(q, name), MetricPoints(Time(s[n]), s[n].metrics, name), Time(s[n]));
    }
  }

  lemma EarlierRecord(s: seq<Snapshot>, p: Point, name: string)
    requires s != [] && SortedBy(Time, s) && FromRecords(p, s[..|s| - 1], name)
    ensures p.time <= Time(s[|s| - 1])
  {
    var n := |s| - 1;
    var r :| 0 <= r < n && FromMetrics(p, s[..n][r], s[..n][r].metrics, name);
    assert s[..n][r] == s[r] && p.time == Time(s[r]);
    assert Time(s[r]) <= Time(s[n]);
  }

  lemma SortedJoin(a: seq<Point>, b: seq<Point>, t: real)
    requires SortedBy(TimeOf, a) && (forall p :: p in a ==> p.time <= t) && (forall p :: p in b ==> p.time == t)
    ensures SortedBy(TimeOf, a + b)
  {
    forall i, j | 0 <= i < j < |a + b| ensures TimeOf((a + b)[i]) <= TimeOf((a + b)[j]) {
      assert i < |a| ==> (a + b)[i] in a;
      assert i >= |a| ==> (a + b)[i] in b;
      assert j >= |a| ==> (a + b)[j] in b;
    }
  }

  /** The first n points and no later one are before the event. */
  ghost predicate SplitsAt(points: seq<Point>, start: real, n: nat) {
    && n <= |points|
    && (forall i :: 0 <= i < n ==> points[i].time < start)
    && (forall i :: n <= i < |points| ==> points[i].time >= start)
  }

  lemma {:induction false} AllBefore(points: seq<Point>, start: real)
    requires forall i :: 0 <= i < |points| ==> points[i].time < start
    ensures Before(points, start) == points
  {
    if points == [] {
    } else {
      var q, p := points[..|points| - 1], points[|points| - 1];
      AllBefore(q, start);
      assert points == q + [p];
    }
  }

  lemma {:induction false} NoneOfThese(points: seq<Point>, start: real)
    requires forall i :: 0 <= i < |points| ==> points[i].time >= start
    ensures Before(points, start) == []
  {
    if points == [] {
    } else {
      NoneOfThese(points[..|points| - 1], start);
    }
  }

  lemma {:induction false} BeforeConcat(a: seq<Point>, b: seq<Point>, start: real)
    ensures Before(a + b, start) == Before(a, start) + Before(b, start)
  {
    if b == [] {
      assert a + b == a;
    } else {
      BeforeConcat(a, b[..|b| - 1], start);
      assert (a + b)[..|a + b| - 1] == a + b[..|b| - 1];
    }
  }

  lemma BeforeOfSplit(points: seq<Point>, start: real, n: nat)
    requires SplitsAt(points, start, n)
    ensures Before(points, start) == points[..n]
  {
    hide Before;
    AllBefore(points[..n], start);
    NoneOfThese(points[n..], start);
    BeforeConcat(points[..n], points[n..], start);
    assert points == points[..n] + points[n..];
  }

  /** What lies before the event is the part of the observations up to the first that does not. */
  lemma BeforeIsPrefix(points: seq<Point>, start: real) returns (n: nat)
    requires SortedBy(TimeOf, points)
    ensures SplitsAt(points, start, n) && Before(points, start) == points[..n]
  {
    n := 0;
    while n < |points| && points[n].time < start
      invariant n <= |points| && forall i :: 0 <= i < n ==> points[i].time < start
    {
      n := n + 1;
    }
    forall i | n <= i < |points| ensures points[i].time >= start {
      assert i == n || TimeOf(points[n]) <= TimeOf(points[i]);
    }
    BeforeOfSplit(points, start, n);
  }

  // ----- What is estimated ------------------------------------------------------------------------

  ghost function ValueAt(points: seq<Point>): int -> real { i => if 0 <= i < |points| then points[i].value else 0.0 }

  ghost function TimeAt(points: seq<Point>): int -> real { i => if 0 <= i < |points| then points[i].time else 0.0 }

  /** The squared distance of the i-th time from t. */
  ghost function SquareAt(points: seq<Point>, t: real): int -> real {
    i => if 0 <= i < |points| then (points[i].time - t) * (points[i].time - t) else 0.0
  }

  /** The squared vertical distance of the i-th point from the line. */
  ghost function ErrorAt(points: seq<Point>, m: real, c: real): int -> real {
    i => if 0 <= i < |points| then SquareOf(points[i].value, points[i].time, m, -c) else 0.0
  }

  lemma {:induction false} SumByIsSum(points: seq<Point>, f: Point -> real, g: int -> real)
    requires forall i :: 0 <= i < |points| ==> g(i) == f(points[i])
    ensures SumBy(points, f) == Sum(|points|, g)
  {
    if points == [] {
    } else {
      SumByIsSum(points[..|points| - 1], f, g);
    }
  }

  /** The size times the estimate is the sum of the values. */
  ghost predicate IsMeanOf(e: real, points: seq<Point>) {
    |points| as real * e == Sum(|points|, ValueAt(points))
  }

  /** The line has the least sum of squared distances of all lines. */
  ghost predicate IsBestLine(points: seq<Point>, m: real, c: real) {
    forall m', c' :: Sum(|points|, ErrorAt(points, m, c)) <= Sum(|points|, ErrorAt(points, m', c'))
  }

  lemma MeanMeans(points: seq<Point>)
    requires points != []
    ensures IsMeanOf(MeanValue(points), points) && |points| as real * MeanTime(points) == Sum(|points|, TimeAt(points))
  {
    hide Over;
    SumByIsSum(points, ValueOf, ValueAt(points));
    SumByIsSum(points, TimeOf, TimeAt(points));
    OverTimes(SumBy(points, ValueOf), |points|);
    OverTimes(SumBy(points, TimeOf), |points|);
  }

  lemma FitIsBest(points: seq<Point>)
    requires points != [] && !Degenerate(points)
    ensures IsBestLine(points, Slope(points), Intercept(points))
  {
    hide Slope, Intercept, SquareOf;
    forall m', c'
      ensures Sum(|points|, ErrorAt(points, Slope(points), Intercept(points))) <= Sum(|points|, ErrorAt(points, m', c'))
    {
      TrendIsLeastSquares(points, m', c');
      SumByIsSum(points, SquaredResidual(Slope(points), Intercept(points)),
                 ErrorAt(points, Slope(points), Intercept(points)));
      SumByIsSum(points, SquaredResidual(m', c'), ErrorAt(points, m', c'));
    }
  }

  lemma SpreadIsSum(points: seq<Point>, mean: real)
    requires points != [] && |points| as real * mean == Sum(|points|, TimeAt(points))
    ensures Spread(points) == Sum(|points|, SquareAt(points, mean)) >= 0.0
  {
    hide MeanTime, MeanValue;
    MeanMeans(points);
    SameMean(|points| as real, mean, MeanTime(points));
    SumByIsSum(points, SpreadTerm(mean), SquareAt(points, mean));
    forall i | 0 <= i < |points| ensures 0.0 <= SquareAt(points, mean)(i) {
      SquareSign(points[i].time - mean);
    }
    SumNonnegative(|points|, SquareAt(points, mean));
  }

  lemma SameMean(n: real, x: real, y: real)
    requires n > 0.0 && n * x == n * y
    ensures x == y
  {
    assert n * (x - y) == 0.0;
  }

  lemma TrendMeans(pre: seq<Point>, start: real, mean: real)
    requires pre != [] && |pre| as real * mean == Sum(|pre|, TimeAt(pre))
    ensures if Sum(|pre|, SquareAt(pre, mean)) < 0.000000000001 then IsMeanOf(TrendOf(pre, start), pre)
            else exists m, c :: IsBestLine(pre, m, c) && TrendOf(pre, start) == m * start + c
  {
    hide IsMeanOf, IsBestLine, MeanValue, Spread, Slope, Intercept, SquareAt, TimeAt, Sum;
    MeanMeans(pre);
    SpreadIsSum(pre, mean);
    if !Degenerate(pre) {
      FitIsBest(pre);
      assert TrendOf(pre, start) == Slope(pre) * start + Intercept(pre);
    }
  }

  /** What the estimator returns, case by case, from the observations `all` of the metric, those `pre` before
      the event, and the mean time of the latter: nothing at all gives 0, nothing before the event the mean of all;
      the mean methods the mean; the moving average its value, also for a trend of fewer than three points; and the
      trend the value at the event of a line of least squared error, or the mean when the times do not spread. */
  lemma EstimateMeans(contents: seq<Snapshot>, start: real, name: string, how: Method, alpha: real, mean: real)
    requires var pre := Before(Observations(Sort(Time, contents), name), start);
             |pre| as real * mean == Sum(|pre|, TimeAt(pre))
    ensures var all := Observations(Sort(Time, contents), name);
            var pre, e := Before(all, start), Estimate(contents, start, name, how, alpha);
            && (all == [] ==> e == 0.0)
            && (all != [] && pre == [] ==> IsMeanOf(e, all))
            && (pre != [] && (how == Mean || how == OtherMethod) ==> IsMeanOf(e, pre))
            && (pre != [] && (how == Ewma || (how == TrendAdjusted && |pre| < 3)) ==> e == EwmaOf(pre, alpha))
            && (how == TrendAdjusted && |pre| >= 3 ==>
                  if Sum(|pre|, SquareAt(pre, mean)) < 0.000000000001 then IsMeanOf(e, pre)
                  else exists m, c :: IsBestLine(pre, m, c) && e == m * start + c)
  {
    hide Sort, Observations, IsMeanOf, IsBestLine, EwmaOf, MeanValue, TrendOf, SquareAt, TimeAt, Sum, Before;
    var all := Observations(Sort(Time, contents), name);
    var pre := Before(all, start);
    NoneBefore(start);
    if all != [] {
      MeanMeans(all);
    }
    if pre != [] {
      MeanMeans(pre);
      TrendMeans(pre, start, mean);
    }
  }

  lemma NoneBefore(start: real)
    ensures Before([], start) == []
  {
  }

  /** A collinear history of at least three points with spread times is extrapolated exactly. */
  lemma EstimateExactOnLines(contents: seq<Snapshot>, start: real, name: string, alpha: real, m: real, c: real)
    requires var pre := Before(Observations(Sort(Time, contents), name), start);
             && |pre| >= 3 && !Degenerate(pre) && forall p :: p in pre ==> p.value == m * p.time + c
    ensures Estimate(contents, start, name, TrendAdjusted, alpha) == m * start + c
  {
    hide Sort, Observations, Before, TrendOf, EwmaOf, Degenerate;
    TrendExactOnLines(Before(Observations(Sort(Time, contents), name), start), m, c, start);
  }
}
