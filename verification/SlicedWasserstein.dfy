/**
  `compute_swd`: the mean over a list of projection directions of the
  one-dimensional distance between the projected samples. The directions,
  drawn from a seeded generator in the original, are arbitrary vectors here.
*/
module SlicedWasserstein {
  import opened Basics
  import opened RealSums
  import opened TransportPlan
  import opened Wasserstein
  import opened WassersteinLaws

  type Vector = seq<real>

  datatype SwdResult = Distance(value: real) | DimensionMismatch

  /** Rows of a two-dimensional array. */
  predicate Rectangular(X: seq<Vector>, d: nat) {
    forall i :: 0 <= i < |X| ==> |X[i]| == d
  }

  function Dot(x: Vector, p: Vector): real
    requires |x| == |p|
  {
    if x == [] then 0.0 else x[0] * p[0] + Dot(x[1..], p[1..])
  }

  /** `X @ p`. */
  function Project(X: seq<Vector>, p: Vector): (r: seq<real>)
    requires Rectangular(X, |p|)
    ensures |r| == |X|
  {
    seq(|X|, i requires 0 <= i < |X| => Dot(X[i], p))
  }

  function Slices(X: seq<Vector>, Y: seq<Vector>, ps: seq<Vector>, d: nat): (r: seq<real>)
    requires X != [] && Y != [] && Rectangular(X, d) && Rectangular(Y, d) && Rectangular(ps, d)
    ensures |r| == |ps|
  {
    seq(|ps|, k requires 0 <= k < |ps| => W1(Project(X, ps[k]), Project(Y, ps[k])))
  }

  function Swd(X: seq<Vector>, Y: seq<Vector>, ps: seq<Vector>, d: nat): real
    requires X != [] && Y != [] && Rectangular(X, d) && Rectangular(Y, d)
    requires ps != [] && Rectangular(ps, d)
  {
    MeanOf(Slices(X, Y, ps, d))
  }

  // ----- What a projection is --------------------------------------------------------------

  ghost function Products(x: Vector, p: Vector): int -> real {
    l => if 0 <= l < |x| && l < |p| then x[l] * p[l] else 0.0
  }

  /** The scalar product, coordinate by coordinate. */
  lemma {:induction false} DotIsSum(x: Vector, p: Vector)
    requires |x| == |p|
    ensures Dot(x, p) == Sum(|x|, Products(x, p))
  {
    if x == [] {
    } else {
      DotIsSum(x[1..], p[1..]);
      SumFirst(|x|, Products(x, p), Products(x[1..], p[1..]));
    }
  }

  lemma {:induction false} SumFirst(n: nat, f: int -> real, g: int -> real)
    requires n > 0 && forall i :: 0 <= i < n - 1 ==> g(i) == f(i + 1)
    ensures Sum(n, f) == f(0) + Sum(n - 1, g)
  {
    if n == 1 {
    } else {
      SumFirst(n - 1, f, g);
    }
  }

  /** The distances that the slices average, with every projected point summed by coordinate. */
  ghost function SliceDistances(X: seq<Vector>, Y: seq<Vector>, ps: seq<Vector>, d: nat): int -> real
    requires X != [] && Y != []
  {
    k => if 0 <= k < |ps| then W1(SumProjections(X, ps[k], d), SumProjections(Y, ps[k], d)) else 0.0
  }

  ghost function SumProjections(X: seq<Vector>, p: Vector, d: nat): (r: seq<real>)
    ensures |r| == |X|
  {
    seq(|X|, i requires 0 <= i < |X| => Sum(d, Products(X[i], p)))
  }

  lemma ProjectIsSum(X: seq<Vector>, p: Vector)
    requires Rectangular(X, |p|)
    ensures Project(X, p) == SumProjections(X, p, |p|)
  {
    forall i | 0 <= i < |X| ensures Project(X, p)[i] == SumProjections(X, p, |p|)[i] {
      DotIsSum(X[i], p);
    }
  }

  lemma SwdIsMean(X: seq<Vector>, Y: seq<Vector>, ps: seq<Vector>, d: nat)
    requires X != [] && Y != [] && Rectangular(X, d) && Rectangular(Y, d)
    requires ps != [] && Rectangular(ps, d)
    ensures |ps| as real * Swd(X, Y, ps, d) == Sum(|ps|, SliceDistances(X, Y, ps, d))
  {
    hide Sum, MeanOf, Slices, SliceDistances, Rectangular;
    var slices := Slices(X, Y, ps, d);
    MeanTimesSize(slices);
    forall k | 0 <= k < |ps| ensures ItemsOf(slices)(k) == SliceDistances(X, Y, ps, d)(k) {
      SliceIsSum(X, Y, ps, d, k);
    }
    SumSame(|ps|, ItemsOf(slices), SliceDistances(X, Y, ps, d));
  }

  lemma SliceIsSum(X: seq<Vector>, Y: seq<Vector>, ps: seq<Vector>, d: nat, k: nat)
    requires X != [] && Y != [] && Rectangular(X, d) && Rectangular(Y, d) && Rectangular(ps, d) && k < |ps|
    ensures Slices(X, Y, ps, d)[k] == SliceDistances(X, Y, ps, d)(k)
  {
    hide W1, Project, SumProjections;
    ProjectIsSum(X, ps[k]);
    ProjectIsSum(Y, ps[k]);
  }

  method ComputeSwd(X: seq<Vector>, Y: seq<Vector>, ps: seq<Vector>, ghost dx: nat, ghost dy: nat)
    returns (result: SwdResult)
    requires X != [] && Y != [] && Rectangular(X, dx) && Rectangular(Y, dy)
    requires ps != [] && Rectangular(ps, dx)
    ensures dx != dy ==> result == DimensionMismatch
    ensures dx == dy ==> result == Distance(Swd(X, Y, ps, dx))
    ensures dx == dy ==> result.Distance? && |ps| as real * result.value == Sum(|ps|, SliceDistances(X, Y, ps, dx))
  {
    hide W1, Project, Sum, SliceDistances;
    if |X[0]| != |Y[0]| {
      return DimensionMismatch;
    }
    var distances: seq<real> := [];
    for i := 0 to |ps|
      invariant |distances| == i
      invariant forall k :: 0 <= k < i ==> distances[k] == Slices(X, Y, ps, dx)[k]
    {
      var w := Wasserstein1D(Project(X, ps[i]), Project(Y, ps[i]));
      distances := distances + [w];
    }
    assert distances == Slices(X, Y, ps, dx);
    SwdIsMean(X, Y, ps, dx);
    result := Distance(Over(Total(distances), |distances|));
  }

  // ----- The laws survive the average ------------------------------------------

  lemma {:induction false} TotalDominated(r: seq<real>, s: seq<real>, t: seq<real>)
    requires |r| == |s| == |t| && forall i :: 0 <= i < |r| ==> r[i] <= s[i] + t[i]
    ensures Total(r) <= Total(s) + Total(t)
  {
    if r == [] {
    } else {
      TotalDominated(r[..|r| - 1], s[..|s| - 1], t[..|t| - 1]);
    }
  }

  lemma OverMonotone(x: real, y: real, z: real, n: nat)
    requires n > 0 && x <= y + z
    ensures Over(x, n) <= Over(y, n) + Over(z, n)
  {
  }

  lemma SwdSymmetric(X: seq<Vector>, Y: seq<Vector>, ps: seq<Vector>, d: nat)
    requires X != [] && Y != [] && Rectangular(X, d) && Rectangular(Y, d)
    requires ps != [] && Rectangular(ps, d)
    ensures Swd(X, Y, ps, d) == Swd(Y, X, ps, d)
  {
    forall k | 0 <= k < |ps| ensures Slices(X, Y, ps, d)[k] == Slices(Y, X, ps, d)[k] {
      W1Symmetric(Project(X, ps[k]), Project(Y, ps[k]));
    }
    assert Slices(X, Y, ps, d) == Slices(Y, X, ps, d);
  }

  lemma SwdTriangle(X: seq<Vector>, Y: seq<Vector>, Z: seq<Vector>, ps: seq<Vector>, d: nat)
    requires X != [] && Y != [] && Z != []
    requires Rectangular(X, d) && Rectangular(Y, d) && Rectangular(Z, d)
    requires ps != [] && Rectangular(ps, d)
    ensures Swd(X, Z, ps, d) <= Swd(X, Y, ps, d) + Swd(Y, Z, ps, d)
  {
    hide W1, Total, Over;
    var xz, xy, yz := Slices(X, Z, ps, d), Slices(X, Y, ps, d), Slices(Y, Z, ps, d);
    forall k | 0 <= k < |ps| ensures xz[k] <= xy[k] + yz[k] {
      W1Triangle(Project(X, ps[k]), Project(Y, ps[k]), Project(Z, ps[k]));
    }
    TotalDominated(xz, xy, yz);
    OverMonotone(Total(xz), Total(xy), Total(yz), |ps|);
  }

  function AddTo(x: Vector, t: Vector): (r: Vector)
    requires |x| == |t|
    ensures |r| == |t|
  {
    seq(|x|, i requires 0 <= i < |x| => x[i] + t[i])
  }

  function Translate(X: seq<Vector>, t: Vector): (r: seq<Vector>)
    requires Rectangular(X, |t|)
    ensures |r| == |X| && Rectangular(r, |t|)
  {
    seq(|X|, i requires 0 <= i < |X| => AddTo(X[i], t))
  }

  lemma {:induction false} DotOfSum(x: Vector, t: Vector, p: Vector)
    requires |x| == |t| == |p|
    ensures Dot(AddTo(x, t), p) == Dot(x, p) + Dot(t, p)
  {
    if x == [] {
    } else {
      DotOfSum(x[1..], t[1..], p[1..]);
      assert AddTo(x, t)[1..] == AddTo(x[1..], t[1..]);
      assert (x[0] + t[0]) * p[0] == x[0] * p[0] + t[0] * p[0];
    }
  }

  lemma ProjectOfTranslate(X: seq<Vector>, t: Vector, p: Vector)
    requires |t| == |p| && Rectangular(X, |p|)
    ensures Project(Translate(X, t), p) == Shift(Project(X, p), Dot(t, p))
  {
    forall i | 0 <= i < |X|
      ensures Project(Translate(X, t), p)[i] == Shift(Project(X, p), Dot(t, p))[i]
    {
      DotOfSum(X[i], t, p);
    }
  }

  /** Moving both samples by one vector changes nothing; moving one sample by
      `t` costs exactly the mean |t . p| over the directions. */
  lemma SwdUnderTranslation(X: seq<Vector>, Y: seq<Vector>, t: Vector, ps: seq<Vector>)
    requires X != [] && Y != [] && Rectangular(X, |t|) && Rectangular(Y, |t|)
    requires ps != [] && Rectangular(ps, |t|)
    ensures Swd(Translate(X, t), Translate(Y, t), ps, |t|) == Swd(X, Y, ps, |t|)
    ensures Swd(X, Translate(X, t), ps, |t|)
         == MeanOf(seq(|ps|, k requires 0 <= k < |ps| => Abs(Dot(t, ps[k]))))
  {
    hide W1, Dot;
    var d := |t|;
    forall k | 0 <= k < |ps|
      ensures Slices(Translate(X, t), Translate(Y, t), ps, d)[k] == Slices(X, Y, ps, d)[k]
      ensures Slices(X, Translate(X, t), ps, d)[k] == Abs(Dot(t, ps[k]))
    {
      ProjectOfTranslate(X, t, ps[k]);
      ProjectOfTranslate(Y, t, ps[k]);
      W1TranslationInvariant(Project(X, ps[k]), Project(Y, ps[k]), Dot(t, ps[k]));
      W1OfShift(Project(X, ps[k]), Dot(t, ps[k]));
    }
    assert Slices(Translate(X, t), Translate(Y, t), ps, d) == Slices(X, Y, ps, d);
    assert Slices(X, Translate(X, t), ps, d)
        == seq(|ps|, k requires 0 <= k < |ps| => Abs(Dot(t, ps[k])));
  }

  /** Non-negative, and zero only if every direction sees the same projected distribution. */
  lemma SwdZero(X: seq<Vector>, Y: seq<Vector>, ps: seq<Vector>, d: nat)
    requires X != [] && Y != [] && Rectangular(X, d) && Rectangular(Y, d)
    requires ps != [] && Rectangular(ps, d)
    ensures 0.0 <= Swd(X, Y, ps, d)
    ensures Swd(X, Y, ps, d) == 0.0 <==>
            forall k, g :: 0 <= k < |ps| ==> Cdf(Project(X, ps[k]), g) == Cdf(Project(Y, ps[k]), g)
  {
    hide W1, Total, Over, Cdf;
    var s := Slices(X, Y, ps, d);
    forall k | 0 <= k < |ps|
      ensures 0.0 <= s[k]
      ensures s[k] == 0.0 <==> forall g :: Cdf(Project(X, ps[k]), g) == Cdf(Project(Y, ps[k]), g)
    {
      W1Zero(Project(X, ps[k]), Project(Y, ps[k]));
    }
    TotalZero(s);
    OverSign(Total(s), |s|);
  }

  lemma {:induction false} TotalZero(s: seq<real>)
    requires forall i :: 0 <= i < |s| ==> 0.0 <= s[i]
    ensures 0.0 <= Total(s)
    ensures Total(s) == 0.0 <==> forall i :: 0 <= i < |s| ==> s[i] == 0.0
  {
    if s == [] {
    } else {
      TotalZero(s[..|s| - 1]);
    }
  }

  lemma OverSign(x: real, n: nat)
    requires n > 0 && 0.0 <= x
    ensures 0.0 <= Over(x, n)
    ensures Over(x, n) == 0.0 <==> x == 0.0
  {
  }

  // ----- Directions ----------------------------------------------------------------------------

  /** The k-th coordinate axis. */
  function Axis(d: nat, k: nat): (p: Vector)
    ensures |p| == d
  {
    seq(d, i => if i == k then 1.0 else 0.0)
  }

  function Column(X: seq<Vector>, k: nat, d: nat): (r: seq<real>)
    requires Rectangular(X, d) && k < d
    ensures |r| == |X|
  {
    seq(|X|, i requires 0 <= i < |X| => X[i][k])
  }

  lemma AxisPicks(x: Vector, k: nat)
    requires k < |x|
    ensures Dot(x, Axis(|x|, k)) == x[k]
  {
    DotIsSum(x, Axis(|x|, k));
    SumOfOne(|x|, k, Products(x, Axis(|x|, k)));
  }

  /** With the k-th axis as the only direction, the result is the distance of the k-th coordinates. */
  lemma SwdOnAxis(X: seq<Vector>, Y: seq<Vector>, d: nat, k: nat)
    requires X != [] && Y != [] && Rectangular(X, d) && Rectangular(Y, d) && k < d
    ensures Swd(X, Y, [Axis(d, k)], d) == W1(Column(X, k, d), Column(Y, k, d))
  {
    hide W1, Dot, Axis, MeanOf, Sum;
    var p := Axis(d, k);
    forall i | 0 <= i < |X| ensures Project(X, p)[i] == X[i][k] { AxisPicks(X[i], k); }
    forall i | 0 <= i < |Y| ensures Project(Y, p)[i] == Y[i][k] { AxisPicks(Y[i], k); }
    assert Project(X, p) == Column(X, k, d) && Project(Y, p) == Column(Y, k, d);
    MeanOfOne(W1(Column(X, k, d), Column(Y, k, d)));
    assert Slices(X, Y, [p], d) == [W1(Column(X, k, d), Column(Y, k, d))];
  }

  lemma MeanOfOne(x: real)
    ensures MeanOf([x]) == x
  {
    var s := [x];
    assert |s| == 1 && s[..0] == [] && Total(s) == x;
  }

  lemma {:induction false} DotAlongSum(x: Vector, p: Vector, q: Vector)
    requires |x| == |p| == |q|
    ensures Dot(x, AddTo(p, q)) == Dot(x, p) + Dot(x, q)
  {
    if x == [] {
    } else {
      DotAlongSum(x[1..], p[1..], q[1..]);
      assert AddTo(p, q)[1..] == AddTo(p[1..], q[1..]);
      assert x[0] * (p[0] + q[0]) == x[0] * p[0] + x[0] * q[0];
    }
  }

  lemma ScaleTail(c: real, p: Vector)
    requires p != []
    ensures Scale(c, p)[1..] == Scale(c, p[1..])
  {
    forall i | 0 <= i < |p| - 1 ensures Scale(c, p)[1..][i] == Scale(c, p[1..])[i] {
      assert p[1..][i] == p[i + 1];
    }
  }

  lemma {:induction false} DotAlongScaled(x: Vector, c: real, p: Vector)
    requires |x| == |p|
    ensures Dot(x, Scale(c, p)) == c * Dot(x, p)
  {
    if x == [] {
      assert c * 0.0 == 0.0;
    } else {
      DotAlongScaled(x[1..], c, p[1..]);
      ScaleTail(c, p);
      assert x[0] * (c * p[0]) == c * (x[0] * p[0]);
      assert c * (x[0] * p[0] + Dot(x[1..], p[1..])) == c * (x[0] * p[0]) + c * Dot(x[1..], p[1..]);
    }
  }

  function ScaleAll(c: real, ps: seq<Vector>): (r: seq<Vector>)
    ensures |r| == |ps| && forall k :: 0 <= k < |r| ==> |r[k]| == |ps[k]|
  {
    seq(|ps|, k requires 0 <= k < |ps| => Scale(c, ps[k]))
  }

  lemma ProjectAlongScaled(X: seq<Vector>, c: real, p: Vector)
    requires Rectangular(X, |p|)
    ensures Project(X, Scale(c, p)) == Scale(c, Project(X, p))
  {
    forall i | 0 <= i < |X| ensures Project(X, Scale(c, p))[i] == Scale(c, Project(X, p))[i] {
      DotAlongScaled(X[i], c, p);
    }
  }

  /** Scaling every direction by c scales the result by its absolute value. */
  lemma SwdAlongScaled(X: seq<Vector>, Y: seq<Vector>, ps: seq<Vector>, d: nat, c: real)
    requires X != [] && Y != [] && Rectangular(X, d) && Rectangular(Y, d)
    requires ps != [] && Rectangular(ps, d)
    ensures Swd(X, Y, ScaleAll(c, ps), d) == Abs(c) * Swd(X, Y, ps, d)
  {
    hide W1, Dot, MeanOf;
    var before, after := Slices(X, Y, ps, d), Slices(X, Y, ScaleAll(c, ps), d);
    forall k | 0 <= k < |ps| ensures after[k] == Abs(c) * before[k] {
      ProjectAlongScaled(X, c, ps[k]);
      ProjectAlongScaled(Y, c, ps[k]);
      W1Scales(c, Project(X, ps[k]), Project(Y, ps[k]));
    }
    MeanScales(before, after, Abs(c));
  }

  lemma MeanScales(s: seq<real>, t: seq<real>, c: real)
    requires |s| == |t| > 0 && forall k :: 0 <= k < |s| ==> t[k] == c * s[k]
    ensures MeanOf(t) == c * MeanOf(s)
  {
    hide MeanOf;
    MeanTimesSize(s);
    MeanTimesSize(t);
    SumScale(|s|, c, ItemsOf(s), ItemsOf(t));
    SameMultiple(|s| as real, MeanOf(t), MeanOf(s), c);
  }

  lemma SameMultiple(n: real, x: real, y: real, c: real)
    requires n > 0.0 && n * x == c * (n * y)
    ensures x == c * y
  {
    assert c * (n * y) == n * (c * y);
  }
}
