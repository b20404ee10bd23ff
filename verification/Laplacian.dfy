/**
  `_normalized_laplacian` of `evaluator/drift/graph_drift.py`, and why its
  spectrum lies in [0, 2]: its quadratic form, and that of 2I - L, are sums
  of squares. Matrices are read through total entry functions; only indices
  below `n` matter.
*/
module Laplacian {
  import opened RealSums

  type Entries = (int, int) -> real
  type Coords = int -> real

  // ----- Specification --------------------------------------------------------

  ghost function Degree(n: nat, A: Entries, i: int): real { Sum(n, Row(A, i)) }

  /** 1/sqrt(degree) where the degree is positive, and 0 elsewhere. */
  ghost predicate InverseRoots(n: nat, A: Entries, s: Coords) {
    forall i :: 0 <= i < n ==> InverseRoot(Degree(n, A, i), s(i))
  }

  ghost predicate InverseRoot(d: real, r: real) {
    if 0.0 < d then 0.0 < r && d * (r * r) == 1.0 else r == 0.0
  }

  /** I - S A S with S = diag(s). */
  ghost function Normalized(A: Entries, s: Coords): Entries {
    (i, j) => NormalizedEntry(i == j, s(i), A(i, j), s(j))
  }

  function NormalizedEntry(diagonal: bool, s: real, a: real, t: real): real {
    (if diagonal then 1.0 else 0.0) - s * a * t
  }

  /** The matrix that the program returns: zero for a single node. */
  ghost function LaplacianEntries(n: nat, A: Entries, s: Coords): Entries {
    if n <= 1 then (i, j) => 0.0 else Normalized(A, s)
  }

  /** What makes L the normalised Laplacian of a graph A with inverse root degrees s: it is symmetric, its
      quadratic form sums the squared differences over the edges and the squares of the isolated nodes, and
      the root degrees are in its kernel. */
  ghost predicate IsLaplacianOf(n: nat, L: Entries, A: Entries, s: Coords) {
    && Symmetric(n, L)
    && (forall x: Coords :: 2.0 * QuadForm(n, L, x)
                            == Sum2(n, n, EdgeDifferences(A, Scaled(s, x))) + 2.0 * Sum(n, IsolatedSquares(n, A, x)))
    && (forall i :: 0 <= i < n ==> Apply(n, L, RootDegrees(n, A, s))(i) == 0.0)
  }

  ghost function Complement(L: Entries): Entries { (i, j) => ComplementEntry(i == j, L(i, j)) }

  ghost function ComplementEntry(diagonal: bool, l: real): real { (if diagonal then 2.0 else 0.0) - l }

  ghost function QuadTerms(M: Entries, x: Coords): Entries { (i, j) => x(i) * M(i, j) * x(j) }

  ghost function QuadForm(n: nat, M: Entries, x: Coords): real { Sum2(n, n, QuadTerms(M, x)) }

  ghost function Squares(x: Coords): Coords { i => x(i) * x(i) }

  ghost function Scaled(s: Coords, x: Coords): Coords { i => s(i) * x(i) }

  ghost function IsolatedSquares(n: nat, A: Entries, x: Coords): Coords {
    i => if 0.0 < Degree(n, A, i) then 0.0 else x(i) * x(i)
  }

  /** Over all ordered pairs: A(i,j) * (y(i) - y(j))^2, and the same with a plus. */
  ghost function EdgeDifferences(A: Entries, y: Coords): Entries {
    (i, j) => A(i, j) * ((y(i) - y(j)) * (y(i) - y(j)))
  }

  ghost function EdgeSums(A: Entries, y: Coords): Entries {
    (i, j) => A(i, j) * ((y(i) + y(j)) * (y(i) + y(j)))
  }

  ghost predicate Symmetric(n: nat, A: Entries) {
    forall i, j :: 0 <= i < n && 0 <= j < n ==> A(i, j) == A(j, i)
  }

  ghost predicate Nonnegative(n: nat, A: Entries) {
    forall i, j :: 0 <= i < n && 0 <= j < n ==> 0.0 <= A(i, j)
  }

  // ----- The program ------------------------------------------------------------

  ghost function EntriesOf(M: seq<seq<real>>): Entries {
    (i, j) => if 0 <= i < |M| && 0 <= j < |M[i]| then M[i][j] else 0.0
  }

  ghost function Rows(a: array2<real>): (M: seq<seq<real>>)
    reads a
    ensures |M| == a.Length0
    ensures forall i, j :: 0 <= i < a.Length0 && 0 <= j < a.Length1 ==> |M[i]| == a.Length1 && M[i][j] == a[i, j]
  {
    seq(a.Length0, i requires 0 <= i < a.Length0 reads a =>
      seq(a.Length1, j requires 0 <= j < a.Length1 reads a => a[i, j]))
  }

  method RowDegree(a: array2<real>, i: nat) returns (degree: real)
    requires i < a.Length0
    ensures degree == Degree(a.Length1, EntriesOf(Rows(a)), i)
  {
    degree := 0.0;
    for j := 0 to a.Length1
      invariant degree == Sum(j, Row(EntriesOf(Rows(a)), i))
    {
      degree := degree + a[i, j];
    }
  }

  ghost predicate IsRoot(d: real, r: real) { 0.0 < r && r * r == d }

  /** `sqrt` stands for `np.sqrt`, assumed exact on the degrees that occur. */
  method FillInverseRoots(a: array2<real>, sqrt: real -> real) returns (inverseSqrt: array<real>)
    requires a.Length0 == a.Length1
    requires forall d :: 0.0 < d && (exists i :: 0 <= i < a.Length0 && d == Degree(a.Length0, EntriesOf(Rows(a)), i))
               ==> IsRoot(d, sqrt(d))
    ensures fresh(inverseSqrt) && inverseSqrt.Length == a.Length0
    ensures forall k :: 0 <= k < a.Length0 ==>
              InverseRoot(Degree(a.Length0, EntriesOf(Rows(a)), k), inverseSqrt[k])
  {
    hide InverseRoot, IsRoot;
    var n := a.Length0;
    inverseSqrt := new real[n](_ => 0.0);
    for i := 0 to n
      invariant forall k :: i <= k < n ==> inverseSqrt[k] == 0.0
      invariant forall k :: 0 <= k < i ==> InverseRoot(Degree(n, EntriesOf(Rows(a)), k), inverseSqrt[k])
    {
      var degree := RowDegree(a, i);
      if degree > 0.0 {
        var root := sqrt(degree);
        InvertRoot(degree, root);
        inverseSqrt[i] := 1.0 / root;
      } else {
        ZeroDegree(degree);
      }
    }
  }

  method NormalizedLaplacian(a: array2<real>, sqrt: real -> real) returns (l: array2<real>, ghost s: Coords)
    requires a.Length0 == a.Length1
    requires forall d :: 0.0 < d && (exists i :: 0 <= i < a.Length0 && d == Degree(a.Length0, EntriesOf(Rows(a)), i))
               ==> IsRoot(d, sqrt(d))
    ensures fresh(l) && l.Length0 == l.Length1 == a.Length0
    ensures a.Length0 >= 2 ==> InverseRoots(a.Length0, EntriesOf(Rows(a)), s)
    ensures forall i, j :: 0 <= i < a.Length0 && 0 <= j < a.Length0 ==>
              l[i, j] == LaplacianEntries(a.Length0, EntriesOf(Rows(a)), s)(i, j)
    ensures a.Length0 >= 2 && Symmetric(a.Length0, EntriesOf(Rows(a))) && Nonnegative(a.Length0, EntriesOf(Rows(a))) ==>
              IsLaplacianOf(a.Length0, EntriesOf(Rows(l)), EntriesOf(Rows(a)), s)
    ensures a.Length0 == 1 ==> l[0, 0] == 0.0
  {
    hide InverseRoot, NormalizedEntry, IsLaplacianOf, Symmetric, Nonnegative;
    var n := a.Length0;
    s := i => 0.0;
    if n <= 1 {
      l := new real[n, n]((i, j) => 0.0);
      return;
    }
    var inverseSqrt := FillInverseRoots(a, sqrt);
    var inv := inverseSqrt[..];
    s := i => if 0 <= i < |inv| then inv[i] else 0.0;
    l := new real[n, n]((i: nat, j: nat) requires i < n && j < n && |inv| == n && n == a.Length0 == a.Length1 reads a =>
      NormalizedEntry(i == j, inv[i], a[i, j], inv[j]));
    if Symmetric(n, EntriesOf(Rows(a))) && Nonnegative(n, EntriesOf(Rows(a))) {
      EntriesAreLaplacian(n, EntriesOf(Rows(l)), EntriesOf(Rows(a)), s);
    }
  }

  lemma InvertRoot(d: real, r: real)
    requires 0.0 < d && IsRoot(d, r)
    ensures r != 0.0 && InverseRoot(d, 1.0 / r)
  {
  }

  lemma ZeroDegree(d: real)
    requires d <= 0.0
    ensures InverseRoot(d, 0.0)
  {
  }

  // ----- Sums of squares --------------------------------------------------------

  ghost function Diagonal(x: Coords): Entries { (i, j) => if i == j then x(i) * x(i) else 0.0 }

  lemma DiagonalSum(n: nat, x: Coords)
    ensures Sum2(n, n, Diagonal(x)) == Sum(n, Squares(x))
  {
    forall i | 0 <= i < n ensures RowSums(n, Diagonal(x))(i) == Squares(x)(i) {
      SumOfOne(n, i, Row(Diagonal(x), i));
    }
    SumSame(n, RowSums(n, Diagonal(x)), Squares(x));
  }

  ghost function Cross(A: Entries, y: Coords): Entries { (i, j) => A(i, j) * (y(i) * y(j)) }

  ghost function Outgoing(A: Entries, y: Coords): Entries { (i, j) => A(i, j) * (y(i) * y(i)) }

  lemma QuadFormOfNormalized(n: nat, A: Entries, s: Coords, x: Coords)
    ensures QuadForm(n, Normalized(A, s), x) == Sum(n, Squares(x)) - Sum2(n, n, Cross(A, Scaled(s, x)))
  {
    var q, c := QuadTerms(Normalized(A, s), x), Cross(A, Scaled(s, x));
    forall i, j ensures Diagonal(x)(i, j) == q(i, j) + c(i, j) {
      CrossTerm(i == j, A(i, j), s(i), s(j), x(i), x(j));
    }
    Sum2Add(n, n, q, c, Diagonal(x));
    DiagonalSum(n, x);
  }

  lemma CrossTerm(same: bool, a: real, s: real, t: real, x: real, y: real)
    ensures x * NormalizedEntry(same, s, a, t) * y + a * ((s * x) * (t * y)) == if same then x * y else 0.0
  {
  }

  lemma QuadFormOfComplement(n: nat, L: Entries, x: Coords)
    ensures QuadForm(n, Complement(L), x) + QuadForm(n, L, x) == 2.0 * Sum(n, Squares(x))
  {
    var p, q := QuadTerms(Complement(L), x), QuadTerms(L, x);
    var both: Entries := (i, j) => Diagonal(x)(i, j) + Diagonal(x)(i, j);
    forall i, j ensures both(i, j) == p(i, j) + q(i, j) {
      ComplementTerm(i == j, L(i, j), x(i), x(j));
      assert Diagonal(x)(i, j) == if i == j then x(i) * x(j) else 0.0;
    }
    Sum2Add(n, n, p, q, both);
    Sum2Add(n, n, Diagonal(x), Diagonal(x), both);
    DiagonalSum(n, x);
  }

  lemma ComplementTerm(same: bool, l: real, x: real, y: real)
    ensures x * ComplementEntry(same, l) * y + x * l * y
         == (if same then x * y else 0.0) + (if same then x * y else 0.0)
  {
  }

  /** sum_ij A(i,j) y(i)^2 collects degree * y(i)^2, which is x(i)^2 off the isolated nodes. */
  lemma OutgoingSum(n: nat, A: Entries, s: Coords, x: Coords)
    requires Nonnegative(n, A) && InverseRoots(n, A, s)
    ensures Sum2(n, n, Outgoing(A, Scaled(s, x))) == Sum(n, Squares(x)) - Sum(n, IsolatedSquares(n, A, x))
  {
    var y := Scaled(s, x);
    var rows := RowSums(n, Outgoing(A, y));
    forall i | 0 <= i < n ensures Squares(x)(i) == rows(i) + IsolatedSquares(n, A, x)(i) {
      SumScale(n, y(i) * y(i), Row(A, i), Row(Outgoing(A, y), i));
      SumNonnegative(n, Row(A, i));
      DegreeTerm(Degree(n, A, i), s(i), x(i));
    }
    SumAdd(n, rows, IsolatedSquares(n, A, x), Squares(x));
  }

  lemma DegreeTerm(d: real, s: real, x: real)
    requires InverseRoot(d, s)
    ensures ((s * x) * (s * x)) * d == if 0.0 < d then x * x else 0.0
  {
  }

  lemma IncomingSum(n: nat, A: Entries, y: Coords)
    requires Symmetric(n, A)
    ensures Sum2(n, n, Flip(Outgoing(A, y))) == Sum2(n, n, Outgoing(A, y))
  {
    SumSwap(n, n, Outgoing(A, y));
  }

  lemma EdgeExpansion(n: nat, A: Entries, y: Coords)
    requires Symmetric(n, A)
    ensures Sum2(n, n, EdgeDifferences(A, y)) + 2.0 * Sum2(n, n, Cross(A, y)) == 2.0 * Sum2(n, n, Outgoing(A, y))
    ensures Sum2(n, n, EdgeSums(A, y)) - 2.0 * Sum2(n, n, Cross(A, y)) == 2.0 * Sum2(n, n, Outgoing(A, y))
  {
    hide Sum;
    var cross, out := Cross(A, y), Outgoing(A, y);
    var twice: Entries := (i, j) => cross(i, j) + cross(i, j);
    var ends: Entries := (i, j) => out(i, j) + Flip(out)(i, j);
    Sum2Add(n, n, cross, cross, twice);
    Sum2Add(n, n, out, Flip(out), ends);
    IncomingSum(n, A, y);
    forall i, j | 0 <= i < n && 0 <= j < n
      ensures ends(i, j) == EdgeDifferences(A, y)(i, j) + twice(i, j)
      ensures EdgeSums(A, y)(i, j) == ends(i, j) + twice(i, j)
    {
      EdgeTerm(A(i, j), y(i), y(j));
      assert Flip(out)(i, j) == A(i, j) * (y(j) * y(j));
    }
    Sum2Add(n, n, EdgeDifferences(A, y), twice, ends);
    Sum2Add(n, n, ends, twice, EdgeSums(A, y));
  }

  lemma EdgeTerm(a: real, p: real, q: real)
    ensures a * ((p - q) * (p - q)) + (a * (p * q) + a * (p * q)) == a * (p * p) + a * (q * q)
    ensures a * ((p + q) * (p + q)) == a * (p * p) + a * (q * q) + (a * (p * q) + a * (p * q))
  {
  }

  /** Both quadratic forms as sums of squares, every edge counted in both directions. */
  lemma LaplacianForms(n: nat, A: Entries, s: Coords, x: Coords)
    requires Symmetric(n, A) && Nonnegative(n, A) && InverseRoots(n, A, s)
    ensures 2.0 * QuadForm(n, Normalized(A, s), x)
         == Sum2(n, n, EdgeDifferences(A, Scaled(s, x))) + 2.0 * Sum(n, IsolatedSquares(n, A, x))
    ensures 2.0 * QuadForm(n, Complement(Normalized(A, s)), x)
         == Sum2(n, n, EdgeSums(A, Scaled(s, x))) + 2.0 * Sum(n, IsolatedSquares(n, A, x))
  {
    QuadFormOfNormalized(n, A, s, x);
    QuadFormOfComplement(n, Normalized(A, s), x);
    OutgoingSum(n, A, s, x);
    EdgeExpansion(n, A, Scaled(s, x));
  }

  lemma LaplacianBounds(n: nat, A: Entries, s: Coords, x: Coords)
    requires Symmetric(n, A) && Nonnegative(n, A) && InverseRoots(n, A, s)
    ensures 0.0 <= QuadForm(n, Normalized(A, s), x) <= 2.0 * Sum(n, Squares(x))
  {
    var y := Scaled(s, x);
    LaplacianForms(n, A, s, x);
    QuadFormOfComplement(n, Normalized(A, s), x);
    forall i, j | 0 <= i < n && 0 <= j < n
      ensures 0.0 <= EdgeDifferences(A, y)(i, j) && 0.0 <= EdgeSums(A, y)(i, j)
    {
      WeightedSquare(A(i, j), y(i) - y(j));
      WeightedSquare(A(i, j), y(i) + y(j));
    }
    Sum2Nonnegative(n, n, EdgeDifferences(A, y));
    Sum2Nonnegative(n, n, EdgeSums(A, y));
    forall i | 0 <= i < n ensures 0.0 <= IsolatedSquares(n, A, x)(i) {
      SquareSign(x(i));
    }
    SumNonnegative(n, IsolatedSquares(n, A, x));
  }

  lemma WeightedSquare(a: real, p: real)
    requires 0.0 <= a
    ensures 0.0 <= a * (p * p)
  {
  }

  // ----- The spectrum -------------------------------------------------------------

  ghost function RowTimes(M: Entries, i: int, x: Coords): Coords { j => M(i, j) * x(j) }

  ghost function Apply(n: nat, M: Entries, x: Coords): Coords { i => Sum(n, RowTimes(M, i, x)) }

  ghost predicate Eigenpair(n: nat, M: Entries, lambda: real, x: Coords) {
    && (exists k :: 0 <= k < n && x(k) != 0.0)
    && forall i :: 0 <= i < n ==> Apply(n, M, x)(i) == lambda * x(i)
  }

  lemma QuadRow(n: nat, M: Entries, x: Coords, i: int)
    ensures RowSums(n, QuadTerms(M, x))(i) == x(i) * Apply(n, M, x)(i)
  {
    forall j ensures Row(QuadTerms(M, x), i)(j) == x(i) * RowTimes(M, i, x)(j) {
      Associate(x(i), M(i, j), x(j));
    }
    SumScale(n, x(i), RowTimes(M, i, x), Row(QuadTerms(M, x), i));
  }

  lemma Associate(x: real, m: real, y: real)
    ensures x * m * y == x * (m * y)
  {
  }

  lemma QuadFormOfEigenpair(n: nat, M: Entries, lambda: real, x: Coords)
    requires Eigenpair(n, M, lambda, x)
    ensures QuadForm(n, M, x) == lambda * Sum(n, Squares(x))
  {
    hide Sum;
    forall i | 0 <= i < n ensures RowSums(n, QuadTerms(M, x))(i) == lambda * Squares(x)(i) {
      EigenRow(n, M, lambda, x, i);
    }
    SumScale(n, lambda, Squares(x), RowSums(n, QuadTerms(M, x)));
  }

  lemma EigenRow(n: nat, M: Entries, lambda: real, x: Coords, i: int)
    requires Eigenpair(n, M, lambda, x) && 0 <= i < n
    ensures RowSums(n, QuadTerms(M, x))(i) == lambda * Squares(x)(i)
  {
    hide Sum;
    QuadRow(n, M, x, i);
    Rescale(x(i), Apply(n, M, x)(i), lambda);
  }

  lemma Rescale(x: real, y: real, lambda: real)
    requires y == lambda * x
    ensures x * y == lambda * (x * x)
  {
  }

  /** Every eigenvalue of the normalised Laplacian lies in [0, 2]. */
  lemma SpectrumInZeroTwo(n: nat, A: Entries, s: Coords, lambda: real, x: Coords)
    requires Symmetric(n, A) && Nonnegative(n, A) && InverseRoots(n, A, s)
    requires Eigenpair(n, Normalized(A, s), lambda, x)
    ensures 0.0 <= lambda <= 2.0
  {
    hide Sum, InverseRoots;
    LaplacianBounds(n, A, s, x);
    QuadFormOfEigenpair(n, Normalized(A, s), lambda, x);
    var k :| 0 <= k < n && x(k) != 0.0;
    NormPositive(n, x, k);
    DivideBounds(lambda, Sum(n, Squares(x)), QuadForm(n, Normalized(A, s), x));
  }

  lemma NormPositive(n: nat, x: Coords, k: int)
    requires 0 <= k < n && x(k) != 0.0
    ensures 0.0 < Sum(n, Squares(x))
  {
    forall i | 0 <= i < n ensures 0.0 <= Squares(x)(i) {
      SquareSign(x(i));
    }
    SumNonnegative(n, Squares(x));
    StrictSquare(x(k), Squares(x)(k));
    assert Squares(x)(k) <= Sum(n, Squares(x));
  }

  lemma DivideBounds(lambda: real, norm: real, form: real)
    requires 0.0 < norm && form == lambda * norm && 0.0 <= form <= 2.0 * norm
    ensures 0.0 <= lambda <= 2.0
  {
  }

  /** Only the entries below `n` matter. */
  lemma EigenpairSame(n: nat, M: Entries, N: Entries, lambda: real, x: Coords)
    requires forall i, j :: 0 <= i < n && 0 <= j < n ==> M(i, j) == N(i, j)
    requires Eigenpair(n, M, lambda, x)
    ensures Eigenpair(n, N, lambda, x)
  {
    forall i | 0 <= i < n ensures Apply(n, N, x)(i) == lambda * x(i) {
      SumSame(n, RowTimes(M, i, x), RowTimes(N, i, x));
      assert Apply(n, M, x)(i) == lambda * x(i);
    }
  }

  /** The same for the matrix the program returns; the eigenvalue of a single node is 0. */
  lemma SpectrumOfProgram(n: nat, A: Entries, s: Coords, lambda: real, x: Coords)
    requires Symmetric(n, A) && Nonnegative(n, A) && (n >= 2 ==> InverseRoots(n, A, s))
    requires Eigenpair(n, LaplacianEntries(n, A, s), lambda, x)
    ensures 0.0 <= lambda <= 2.0 && (n == 1 ==> lambda == 0.0)
  {
    hide InverseRoots;
    if n >= 2 {
      SpectrumInZeroTwo(n, A, s, lambda, x);
    } else {
      var zero: Coords := j => 0.0;
      assert x(0) != 0.0;
      assert Apply(n, LaplacianEntries(n, A, s), x)(0) == lambda * x(0);
      SumOfOne(n, 0, RowTimes(LaplacianEntries(n, A, s), 0, x));
      OnlyZero(lambda, x(0));
    }
  }

  lemma OnlyZero(lambda: real, x: real)
    requires x != 0.0 && lambda * x == 0.0
    ensures lambda == 0.0
  {
  }

  ghost function RootDegrees(n: nat, A: Entries, s: Coords): Coords { i => Degree(n, A, i) * s(i) }

  /** 0 is attained: the square roots of the degrees are in the kernel. */
  lemma RootDegreesInKernel(n: nat, A: Entries, s: Coords, i: nat)
    requires Symmetric(n, A) && Nonnegative(n, A) && InverseRoots(n, A, s) && i < n
    ensures Apply(n, Normalized(A, s), RootDegrees(n, A, s))(i) == 0.0
    ensures 0.0 < Degree(n, A, i) ==> RootDegrees(n, A, s)(i) != 0.0
  {
    KernelRow(n, A, s, i);
    RootDegreePositive(Degree(n, A, i), s(i));
  }

  ghost function Spike(v: Coords, i: int): Coords { j => if i == j then v(j) else 0.0 }

  ghost function Lost(A: Entries, s: Coords, i: int): Coords { j => s(i) * A(i, j) }

  lemma KernelRow(n: nat, A: Entries, s: Coords, i: nat)
    requires Symmetric(n, A) && Nonnegative(n, A) && InverseRoots(n, A, s) && i < n
    ensures Apply(n, Normalized(A, s), RootDegrees(n, A, s))(i) == 0.0
  {
    hide Sum, InverseRoots, Normalized;
    var v := RootDegrees(n, A, s);
    forall j | 0 <= j < n ensures Spike(v, i)(j) == RowTimes(Normalized(A, s), i, v)(j) + Lost(A, s, i)(j) {
      KernelEntry(n, A, s, i, j);
    }
    SumAdd(n, RowTimes(Normalized(A, s), i, v), Lost(A, s, i), Spike(v, i));
    SumOfOne(n, i, Spike(v, i));
    LostSum(n, A, s, i);
  }

  lemma LostSum(n: nat, A: Entries, s: Coords, i: int)
    ensures Sum(n, Lost(A, s, i)) == RootDegrees(n, A, s)(i)
  {
    SumScale(n, s(i), Row(A, i), Lost(A, s, i));
  }

  lemma KernelEntry(n: nat, A: Entries, s: Coords, i: nat, j: nat)
    requires Symmetric(n, A) && Nonnegative(n, A) && InverseRoots(n, A, s) && i < n && j < n
    ensures (if i == j then RootDegrees(n, A, s)(j) else 0.0)
         == Normalized(A, s)(i, j) * RootDegrees(n, A, s)(j) + s(i) * A(i, j)
  {
    hide NormalizedEntry, InverseRoot;
    SumNonnegative(n, Row(A, j));
    assert Row(A, j)(i) <= Degree(n, A, j);
    KernelTerm(i == j, A(i, j), s(i), s(j), Degree(n, A, j));
  }

  lemma KernelTerm(same: bool, a: real, s: real, t: real, d: real)
    requires 0.0 <= a <= d && InverseRoot(d, t)
    ensures (if same then d * t else 0.0) == NormalizedEntry(same, s, a, t) * (d * t) + s * a
  {
  }

  lemma RootDegreePositive(d: real, s: real)
    requires InverseRoot(d, s)
    ensures 0.0 < d ==> d * s != 0.0
  {
  }

  lemma QuadFormSame(n: nat, M: Entries, N: Entries, x: Coords)
    requires forall i, j :: 0 <= i < n && 0 <= j < n ==> M(i, j) == N(i, j)
    ensures QuadForm(n, M, x) == QuadForm(n, N, x)
  {
    hide Sum2;
    forall i, j | 0 <= i < n && 0 <= j < n ensures QuadTerms(M, x)(i, j) == QuadTerms(N, x)(i, j) {
      assert M(i, j) == N(i, j);
    }
    Sum2Same(n, n, QuadTerms(M, x), QuadTerms(N, x));
  }

  lemma ApplySame(n: nat, M: Entries, N: Entries, x: Coords, i: int)
    requires 0 <= i < n && forall i, j :: 0 <= i < n && 0 <= j < n ==> M(i, j) == N(i, j)
    ensures Apply(n, M, x)(i) == Apply(n, N, x)(i)
  {
    hide Sum;
    forall j | 0 <= j < n ensures RowTimes(M, i, x)(j) == RowTimes(N, i, x)(j) {
      assert M(i, j) == N(i, j);
    }
    SumSame(n, RowTimes(M, i, x), RowTimes(N, i, x));
  }

  lemma EntrySymmetric(same: bool, s: real, a: real, t: real)
    ensures NormalizedEntry(same, s, a, t) == NormalizedEntry(same, t, a, s)
  {
    assert s * a * t == t * a * s;
  }

  lemma EntriesAreLaplacian(n: nat, L: Entries, A: Entries, s: Coords)
    requires n >= 2 && Symmetric(n, A) && Nonnegative(n, A) && InverseRoots(n, A, s)
    requires forall i, j :: 0 <= i < n && 0 <= j < n ==> L(i, j) == LaplacianEntries(n, A, s)(i, j)
    ensures IsLaplacianOf(n, L, A, s)
  {
    hide Sum, Sum2, QuadForm, InverseRoots, NormalizedEntry, Apply, RootDegrees, IsolatedSquares, EdgeDifferences;
    forall i, j | 0 <= i < n && 0 <= j < n ensures L(i, j) == L(j, i) {
      EntrySymmetric(i == j, s(i), A(i, j), s(j));
    }
    forall x: Coords
      ensures 2.0 * QuadForm(n, L, x)
           == Sum2(n, n, EdgeDifferences(A, Scaled(s, x))) + 2.0 * Sum(n, IsolatedSquares(n, A, x))
    {
      QuadFormSame(n, L, Normalized(A, s), x);
      LaplacianForms(n, A, s, x);
    }
    forall i | 0 <= i < n ensures Apply(n, L, RootDegrees(n, A, s))(i) == 0.0 {
      ApplySame(n, L, Normalized(A, s), RootDegrees(n, A, s), i);
      RootDegreesInKernel(n, A, s, i);
    }
  }
}
