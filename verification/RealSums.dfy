/** Finite sums of reals over 0 <= i < n, with the laws the matrix and regression proofs use. */
module RealSums {

  ghost function Sum(n: nat, f: int -> real): real {
    if n == 0 then 0.0 else Sum(n - 1, f) + f(n - 1)
  }

  lemma {:induction false} SumSame(n: nat, f: int -> real, g: int -> real)
    requires forall i :: 0 <= i < n ==> f(i) == g(i)
    ensures Sum(n, f) == Sum(n, g)
  {
    if n == 0 {
    } else {
      SumSame(n - 1, f, g);
    }
  }

  lemma {:induction false} SumAdd(n: nat, f: int -> real, g: int -> real, h: int -> real)
    requires forall i :: 0 <= i < n ==> h(i) == f(i) + g(i)
    ensures Sum(n, h) == Sum(n, f) + Sum(n, g)
  {
    if n == 0 {
    } else {
      SumAdd(n - 1, f, g, h);
    }
  }

  lemma {:induction false} SumScale(n: nat, c: real, f: int -> real, h: int -> real)
    requires forall i :: 0 <= i < n ==> h(i) == c * f(i)
    ensures Sum(n, h) == c * Sum(n, f)
  {
    if n > 0 {
      SumScale(n - 1, c, f, h);
      Distribute(c, Sum(n - 1, f), f(n - 1));
    } else {
      assert c * 0.0 == 0.0;
    }
  }

  lemma Distribute(c: real, x: real, y: real)
    ensures c * (x + y) == c * x + c * y
  {
  }

  lemma {:induction false} SumNonnegative(n: nat, f: int -> real)
    requires forall i :: 0 <= i < n ==> 0.0 <= f(i)
    ensures 0.0 <= Sum(n, f)
    ensures forall i :: 0 <= i < n ==> f(i) <= Sum(n, f)
  {
    if n == 0 {
    } else {
      SumNonnegative(n - 1, f);
    }
  }

  lemma {:induction false} SumOfOne(n: nat, k: int, f: int -> real)
    requires forall i :: 0 <= i < n && i != k ==> f(i) == 0.0
    ensures Sum(n, f) == if 0 <= k < n then f(k) else 0.0
  {
    if n == 0 {
    } else {
      SumOfOne(n - 1, k, f);
    }
  }

  lemma {:induction false} CountsSumToWhole(n: nat, f: int -> real, counts: int -> nat) returns (total: nat)
    requires forall j :: 0 <= j < n ==> f(j) == counts(j) as real
    ensures Sum(n, f) == total as real
  {
    if n == 0 {
      total := 0;
    } else {
      total := CountsSumToWhole(n - 1, f, counts);
      total := total + counts(n - 1);
    }
  }

  ghost function Row(f: (int, int) -> real, i: int): int -> real { j => f(i, j) }

  ghost function RowSums(n: nat, f: (int, int) -> real): int -> real { i => Sum(n, Row(f, i)) }

  ghost function Flip(f: (int, int) -> real): (int, int) -> real { (j, i) => f(i, j) }

  /** sum_i sum_j f(i, j) over 0 <= i < m, 0 <= j < n */
  ghost function Sum2(m: nat, n: nat, f: (int, int) -> real): real { Sum(m, RowSums(n, f)) }

  lemma {:induction false} SumSwap(m: nat, n: nat, f: (int, int) -> real)
    ensures Sum2(m, n, f) == Sum2(n, m, Flip(f))
  {
    if m == 0 {
      var zero := RowSums(0, Flip(f));
      SumAdd(n, zero, zero, zero);
    } else {
      SumSwap(m - 1, n, f);
      SumAdd(n, RowSums(m - 1, Flip(f)), Row(f, m - 1), RowSums(m, Flip(f)));
    }
  }

  lemma Sum2Same(m: nat, n: nat, f: (int, int) -> real, g: (int, int) -> real)
    requires forall i, j :: 0 <= i < m && 0 <= j < n ==> f(i, j) == g(i, j)
    ensures Sum2(m, n, f) == Sum2(m, n, g)
  {
    forall i | 0 <= i < m ensures RowSums(n, f)(i) == RowSums(n, g)(i) {
      SumSame(n, Row(f, i), Row(g, i));
    }
    SumSame(m, RowSums(n, f), RowSums(n, g));
  }

  lemma Sum2Scale(m: nat, n: nat, c: real, f: (int, int) -> real, h: (int, int) -> real)
    requires forall i, j :: 0 <= i < m && 0 <= j < n ==> h(i, j) == c * f(i, j)
    ensures Sum2(m, n, h) == c * Sum2(m, n, f)
  {
    forall i | 0 <= i < m ensures RowSums(n, h)(i) == c * RowSums(n, f)(i) {
      SumScale(n, c, Row(f, i), Row(h, i));
    }
    SumScale(m, c, RowSums(n, f), RowSums(n, h));
  }

  lemma Sum2Add(m: nat, n: nat, f: (int, int) -> real, g: (int, int) -> real, h: (int, int) -> real)
    requires forall i, j :: 0 <= i < m && 0 <= j < n ==> h(i, j) == f(i, j) + g(i, j)
    ensures Sum2(m, n, h) == Sum2(m, n, f) + Sum2(m, n, g)
  {
    forall i | 0 <= i < m ensures RowSums(n, h)(i) == RowSums(n, f)(i) + RowSums(n, g)(i) {
      SumAdd(n, Row(f, i), Row(g, i), Row(h, i));
    }
    SumAdd(m, RowSums(n, f), RowSums(n, g), RowSums(n, h));
  }

  lemma Sum2Nonnegative(m: nat, n: nat, f: (int, int) -> real)
    requires forall i, j :: 0 <= i < m && 0 <= j < n ==> 0.0 <= f(i, j)
    ensures 0.0 <= Sum2(m, n, f)
  {
    forall i | 0 <= i < m ensures 0.0 <= RowSums(n, f)(i) {
      SumNonnegative(n, Row(f, i));
    }
    SumNonnegative(m, RowSums(n, f));
  }

  // ----- Sums over the elements of a sequence -----------------------------------

  function Total(s: seq<real>): real {
    if s == [] then 0.0 else Total(s[..|s| - 1]) + s[|s| - 1]
  }

  function Over(x: real, n: nat): real
    requires n > 0
  {
    x / n as real
  }

  function MeanOf(s: seq<real>): real
    requires s != []
  {
    Over(Total(s), |s|)
  }

  ghost function ItemsOf(s: seq<real>): int -> real { i => if 0 <= i < |s| then s[i] else 0.0 }

  lemma {:induction false} TotalIsSum(s: seq<real>)
    ensures Total(s) == Sum(|s|, ItemsOf(s))
  {
    if s == [] {
    } else {
      var p := s[..|s| - 1];
      TotalIsSum(p);
      SumSame(|p|, ItemsOf(p), ItemsOf(s));
    }
  }

  /** Size times mean is the sum of the items. */
  lemma MeanTimesSize(s: seq<real>)
    requires s != []
    ensures |s| as real * MeanOf(s) == Sum(|s|, ItemsOf(s))
  {
    TotalIsSum(s);
    OverTimes(Total(s), |s|);
  }

  lemma OverTimes(x: real, n: nat)
    requires n > 0
    ensures n as real * Over(x, n) == x
  {
  }

  function SumBy<T>(s: seq<T>, f: T -> real): real {
    if s == [] then 0.0 else SumBy(s[..|s| - 1], f) + f(s[|s| - 1])
  }

  lemma {:induction false} SumBySame<T>(s: seq<T>, f: T -> real, g: T -> real)
    requires forall x :: x in s ==> f(x) == g(x)
    ensures SumBy(s, f) == SumBy(s, g)
  {
    if s == [] {
    } else {
      SumBySame(s[..|s| - 1], f, g);
      assert s[|s| - 1] in s;
    }
  }

  function Affine<T>(c: real, f: T -> real, d: real): T -> real { x => c * f(x) + d }

  lemma {:induction false} SumByAffine<T>(s: seq<T>, c: real, f: T -> real, d: real)
    ensures SumBy(s, Affine(c, f, d)) == c * SumBy(s, f) + |s| as real * d
  {
    if s == [] {
    } else {
      var p, x := s[..|s| - 1], s[|s| - 1];
      SumByAffine(p, c, f, d);
      AffineStep(c, SumBy(p, f), f(x), d, |p| as real);
    }
  }

  lemma AffineStep(c: real, sum: real, y: real, d: real, n: real)
    ensures (c * sum + n * d) + (c * y + d) == c * (sum + y) + (n + 1.0) * d
  {
  }

  lemma {:induction false} SumByNonnegative<T>(s: seq<T>, f: T -> real)
    requires forall x :: x in s ==> 0.0 <= f(x)
    ensures 0.0 <= SumBy(s, f)
    ensures SumBy(s, f) == 0.0 ==> forall x :: x in s ==> f(x) == 0.0
  {
    if s == [] {
    } else {
      var p, last := s[..|s| - 1], s[|s| - 1];
      SumByNonnegative(p, f);
      assert last in s && s == p + [last];
    }
  }

  // ----- Signs of products ------------------------------------------------------

  lemma ProductNonnegative(x: real, y: real)
    requires 0.0 <= x && 0.0 <= y
    ensures 0.0 <= x * y
  {
  }

  lemma SquareSign(p: real)
    ensures 0.0 <= p * p
  {
  }

  lemma StrictSquare(p: real, q: real)
    requires p != 0.0 && q == p * p
    ensures 0.0 < q
  {
    SameSigns(p, p, q);
  }

  lemma SameSigns(p: real, r: real, q: real)
    requires (0.0 < p && 0.0 < r) || (p < 0.0 && r < 0.0)
    requires p * r == q
    ensures 0.0 < q
  {
  }
}
