/**
  The distance of `_wasserstein_1d` as optimal transport, for samples of any two
  sizes: no way of moving the mass is cheaper, and cutting every sample into
  equal parts and matching the parts in sorted order is as cheap.
*/
module Transport {
  import opened Basics
  import opened RealSums
  import opened Sorting
  import opened Wasserstein
  import opened WassersteinLaws

  // ----- Equal parts ------------------------------------------------------------------

  /** Every sample cut into `k` equal parts. */
  function Parts(s: seq<real>, k: nat): seq<real> {
    if k == 0 then [] else Parts(s, k - 1) + s
  }

  function Product(m: nat, n: nat): nat { m * n }

  lemma {:induction false} PartsCount(s: seq<real>, k: nat, g: real)
    ensures |Parts(s, k)| == Product(k, |s|) && CountLe(Parts(s, k), g) == Product(k, CountLe(s, g))
  {
    if k == 0 {
    } else {
      PartsCount(s, k - 1, g);
      CountLeConcat(Parts(s, k - 1), s, g);
      OneFactorMore(k - 1, |s|);
      OneFactorMore(k - 1, CountLe(s, g));
    }
  }

  lemma OneFactorMore(k: nat, n: nat)
    ensures Product(k + 1, n) == Product(k, n) + n
  {
  }

  lemma CdfOfParts(s: seq<real>, k: nat, g: real)
    requires s != [] && k > 0
    ensures Parts(s, k) != [] && Cdf(Parts(s, k), g) == Cdf(s, g)
  {
    hide CountLe, Parts, Product, Over;
    PartsCount(s, k, g);
    PositiveProduct(k, |s|);
    SameShare(k, CountLe(s, g), |s|);
  }

  lemma SameShare(k: nat, x: nat, y: nat)
    requires k > 0 && y > 0
    ensures Product(k, y) > 0 && Over(Product(k, x) as real, Product(k, y)) == Over(x as real, y)
  {
    PositiveProduct(k, y);
    ProductAsReal(k, x);
    ProductAsReal(k, y);
    CancelFactor(k as real, x as real, y as real);
  }

  lemma ProductAsReal(m: nat, n: nat)
    ensures Product(m, n) as real == m as real * n as real
  {
  }

  lemma PositiveProduct(m: nat, n: nat)
    requires m > 0 && n > 0
    ensures Product(m, n) > 0
  {
  }

  lemma CancelFactor(k: real, x: real, y: real)
    requires k > 0.0 && y > 0.0
    ensures k * y != 0.0 && (k * x) / (k * y) == x / y
  {
    var q := x / y;
    assert x == q * y;
    assert k * x == q * (k * y);
  }

  /** Cutting samples into parts moves no mass. */
  lemma W1OfParts(a: seq<real>, b: seq<real>, k: nat, l: nat)
    requires a != [] && b != [] && k > 0 && l > 0
    ensures Parts(a, k) != [] && Parts(b, l) != [] && W1(Parts(a, k), Parts(b, l)) == W1(a, b)
  {
    hide W1, Cdf;
    var A, B := Parts(a, k), Parts(b, l);
    assert A != [] by { CdfOfParts(a, k, 0.0); }
    assert B != [] by { CdfOfParts(b, l, 0.0); }
    forall g ensures Cdf(A, g) == Cdf(a, g) && Cdf(B, g) == Cdf(b, g) {
      CdfOfParts(a, k, g);
      CdfOfParts(b, l, g);
    }
    W1Zero(A, a);
    W1Zero(B, b);
    W1Symmetric(A, a);
    W1Symmetric(B, b);
    W1Triangle(A, a, B);
    W1Triangle(a, b, B);
    W1Triangle(a, A, b);
    W1Triangle(A, B, b);
  }

  /** For any sizes: with |b| parts of every a[i] and |a| parts of every b[j], matching the parts in sorted
      order costs |a||b| times the distance, and no other matching of the parts costs less. */
  lemma W1IsCheapestMatching(a: seq<real>, b: seq<real>, a': seq<real>, b': seq<real>)
    requires a != [] && b != []
    requires multiset(a') == multiset(Parts(a, |b|)) && multiset(b') == multiset(Parts(b, |a|))
    ensures |Parts(a, |b|)| == |Parts(b, |a|)| == |a'| == |b'| == Product(|a|, |b|)
    ensures Times(Product(|a|, |b|), W1(a, b)) == PairCost(Sort(Id, Parts(a, |b|)), Sort(Id, Parts(b, |a|)))
        <= PairCost(a', b')
  {
    hide W1, PairCost, Sort, Times, Parts;
    PartsCount(a, |b|, 0.0);
    PartsCount(b, |a|, 0.0);
    assert Product(|b|, |a|) == Product(|a|, |b|);
    W1OfParts(a, b, |b|, |a|);
    W1IsCheapestPairing(Parts(a, |b|), Parts(b, |a|), a', b');
  }

  // ----- Arbitrary transport plans ------------------------------------------------------

  type Plan = (int, int) -> real

  /** How much mass goes from a[i] to b[j]: every a[i] gives 1/|a| in all, every b[j] gets 1/|b|. */
  ghost predicate IsPlan(P: Plan, m: nat, n: nat) {
    && m > 0 && n > 0
    && (forall i, j :: 0 <= i < m && 0 <= j < n ==> 0.0 <= P(i, j))
    && (forall i :: 0 <= i < m ==> Sum(n, Row(P, i)) == Over(1.0, m))
    && (forall j :: 0 <= j < n ==> Sum(m, Row(Flip(P), j)) == Over(1.0, n))
  }

  function At(s: seq<real>, i: int): real { if 0 <= i < |s| then s[i] else 0.0 }

  ghost function CostTerms(P: Plan, a: seq<real>, b: seq<real>): Plan { (i, j) => P(i, j) * Abs(At(a, i) - At(b, j)) }

  ghost function PlanCost(P: Plan, a: seq<real>, b: seq<real>): real { Sum2(|a|, |b|, CostTerms(P, a, b)) }

  function Reached(x: real, g: real): real { if x <= g then 1.0 else 0.0 }

  ghost function ReachedAt(s: seq<real>, g: real): int -> real { i => Reached(At(s, i), g) }

  lemma {:induction false} CountIsSum(s: seq<real>, g: real)
    ensures CountLe(s, g) as real == Sum(|s|, ReachedAt(s, g))
  {
    if s == [] {
    } else {
      var p := s[..|s| - 1];
      CountIsSum(p, g);
      SumSame(|p|, ReachedAt(p, g), ReachedAt(s, g));
    }
  }

  ghost function Sent(P: Plan, a: seq<real>, g: real): Plan { (i, j) => ReachedAt(a, g)(i) * P(i, j) }

  /** The mass sent from at or below `g` is the CDF there. */
  lemma SentIsCdf(P: Plan, a: seq<real>, n: nat, g: real)
    requires a != [] && forall i :: 0 <= i < |a| ==> Sum(n, Row(P, i)) == Over(1.0, |a|)
    ensures Sum2(|a|, n, Sent(P, a, g)) == Cdf(a, g)
  {
    hide Sum;
    var m, R := |a|, ReachedAt(a, g);
    forall i | 0 <= i < m ensures RowSums(n, Sent(P, a, g))(i) == Over(1.0, m) * R(i) {
      SumScale(n, R(i), Row(P, i), Row(Sent(P, a, g), i));
    }
    SumScale(m, Over(1.0, m), R, RowSums(n, Sent(P, a, g)));
    CountIsSum(a, g);
    ShareOf(CountLe(a, g) as real, m);
  }

  lemma ShareOf(x: real, n: nat)
    requires n > 0
    ensures Over(1.0, n) * x == Over(x, n)
  {
  }

  ghost function Received(P: Plan, b: seq<real>, g: real): Plan { (i, j) => ReachedAt(b, g)(j) * P(i, j) }

  lemma ReceivedIsCdf(P: Plan, b: seq<real>, m: nat, g: real)
    requires b != [] && forall j :: 0 <= j < |b| ==> Sum(m, Row(Flip(P), j)) == Over(1.0, |b|)
    ensures Sum2(m, |b|, Received(P, b, g)) == Cdf(b, g)
  {
    hide Sum, Cdf;
    SumSwap(m, |b|, Received(P, b, g));
    SentIsCdf(Flip(P), b, m, g);
    forall j | 0 <= j < |b|
      ensures RowSums(m, Flip(Received(P, b, g)))(j) == RowSums(m, Sent(Flip(P), b, g))(j)
    {
      SumSame(m, Row(Flip(Received(P, b, g)), j), Row(Sent(Flip(P), b, g), j));
    }
    SumSame(|b|, RowSums(m, Flip(Received(P, b, g))), RowSums(m, Sent(Flip(P), b, g)));
  }

  /** The mass that crosses the level `g`. */
  ghost function CrossingTerms(P: Plan, a: seq<real>, b: seq<real>, g: real): Plan {
    (i, j) => P(i, j) * Gap([At(a, i)], [At(b, j)], g)
  }

  lemma GapOfPoints(x: real, y: real, g: real)
    ensures Gap([x], [y], g) == Abs(Reached(x, g) - Reached(y, g))
  {
    CdfOfOne(x, g);
    CdfOfOne(y, g);
  }

  lemma CrossingTerm(p: real, r: real, s: real)
    requires 0.0 <= p
    ensures r * p - s * p <= p * Abs(r - s) && s * p - r * p <= p * Abs(r - s)
  {
    ProductNonnegative(p, Abs(r - s) - (r - s));
    ProductNonnegative(p, Abs(r - s) - (s - r));
  }

  /** Whatever the plan, at every level at least the CDF gap has to cross. */
  lemma GapCrosses(P: Plan, a: seq<real>, b: seq<real>, g: real)
    requires IsPlan(P, |a|, |b|)
    ensures a != [] && b != [] && Gap(a, b, g) <= Sum2(|a|, |b|, CrossingTerms(P, a, b, g))
  {
    hide Sum2, Cdf;
    assert a != [] && b != [];
    var m, n, S, R, C := |a|, |b|, Sent(P, a, g), Received(P, b, g), CrossingTerms(P, a, b, g);
    SentIsCdf(P, a, n, g);
    ReceivedIsCdf(P, b, m, g);
    forall i, j | 0 <= i < m && 0 <= j < n ensures S(i, j) <= R(i, j) + C(i, j) && R(i, j) <= S(i, j) + C(i, j) {
      GapOfPoints(a[i], b[j], g);
      CrossingTerm(P(i, j), Reached(a[i], g), Reached(b[j], g));
    }
    Sum2Dominated(m, n, S, R, C);
    Sum2Dominated(m, n, R, S, C);
  }

  lemma Sum2Dominated(m: nat, n: nat, f: Plan, g: Plan, h: Plan)
    requires forall i, j :: 0 <= i < m && 0 <= j < n ==> f(i, j) <= g(i, j) + h(i, j)
    ensures Sum2(m, n, f) <= Sum2(m, n, g) + Sum2(m, n, h)
  {
    hide Sum2;
    var both: Plan := (i, j) => g(i, j) + h(i, j);
    var rest: Plan := (i, j) => both(i, j) - f(i, j);
    Sum2Add(m, n, g, h, both);
    Sum2Add(m, n, f, rest, both);
    Sum2Nonnegative(m, n, rest);
  }

  // ----- Sweeping a plan -----------------------------------------------------------------

  ghost function LevelCost(P: Plan, a: seq<real>, b: seq<real>): real -> real {
    g => Sum2(|a|, |b|, CrossingTerms(P, a, b, g))
  }

  ghost function SweptTerms(P: Plan, a: seq<real>, b: seq<real>, grid: seq<real>): Plan {
    (i, j) => P(i, j) * Sweep(grid, GapOf([At(a, i)], [At(b, j)]))
  }

  /** Integrating over the levels and summing over the plan can be done in either order. */
  lemma {:induction false} SweepOfPlan(P: Plan, a: seq<real>, b: seq<real>, grid: seq<real>)
    ensures Sweep(grid, LevelCost(P, a, b)) == Sum2(|a|, |b|, SweptTerms(P, a, b, grid))
  {
    hide Sum2, Area, Gap;
    var m, n, terms := |a|, |b|, SweptTerms(P, a, b, grid);
    if |grid| < 2 {
      forall i, j ensures terms(i, j) == 0.0 * terms(i, j) {
        NoSteps(grid, P(i, j), GapOf([At(a, i)], [At(b, j)]));
      }
      Sum2Scale(m, n, 0.0, terms, terms);
    } else {
      var step, head, rest := grid[1] - grid[0], CrossingTerms(P, a, b, grid[0]), SweptTerms(P, a, b, grid[1..]);
      var strip: Plan := (i, j) => step * head(i, j);
      SweepOfPlan(P, a, b, grid[1..]);
      Sum2Scale(m, n, step, head, strip);
      AreaIs(grid[0], grid[1], LevelCost(P, a, b)(grid[0]));
      forall i, j ensures terms(i, j) == strip(i, j) + rest(i, j) {
        var F := GapOf([At(a, i)], [At(b, j)]);
        AreaIs(grid[0], grid[1], F(grid[0]));
        StripTerm(P(i, j), step, F(grid[0]), Sweep(grid[1..], F));
      }
      Sum2Add(m, n, strip, rest, terms);
    }
  }

  lemma NoSteps(grid: seq<real>, p: real, F: real -> real)
    requires |grid| < 2
    ensures p * Sweep(grid, F) == 0.0 * (p * Sweep(grid, F))
  {
    assert Sweep(grid, F) == 0.0;
  }

  lemma AreaIs(lo: real, hi: real, f: real)
    ensures Area(lo, hi, f) == (hi - lo) * f
  {
  }

  lemma StripTerm(p: real, step: real, f: real, rest: real)
    ensures p * (step * f + rest) == step * (p * f) + p * rest
  {
  }

  /** No transport plan, however it splits the mass, is cheaper than the distance. */
  lemma NoPlanIsCheaper(P: Plan, a: seq<real>, b: seq<real>)
    requires IsPlan(P, |a|, |b|)
    ensures a != [] && b != [] && W1(a, b) <= PlanCost(P, a, b)
  {
    hide Sum2, Sweep, Gap, IsPlan, W1, Holds;
    assert a != [] && b != [] by { GapCrosses(P, a, b, 0.0); }
    var grid := SortedGrid(a, b, []);
    AnyGridGivesW1(grid, a, b);
    LevelsCost(P, a, b, grid);
    SweepOfPlan(P, a, b, grid);
    SweptIsCost(P, a, b, grid);
  }

  lemma LevelsCost(P: Plan, a: seq<real>, b: seq<real>, grid: seq<real>)
    requires IsPlan(P, |a|, |b|) && a != [] && b != [] && SortedBy(Id, grid)
    ensures Sweep(grid, GapOf(a, b)) <= Sweep(grid, LevelCost(P, a, b))
  {
    hide Sum2, Sweep, Gap, IsPlan;
    var Z := (g: real) => 0.0;
    forall g ensures Gap(a, b, g) <= LevelCost(P, a, b)(g) {
      GapCrosses(P, a, b, g);
    }
    SweepAdd(grid, Z, Z, Z);
    SweepDominated(grid, LevelCost(P, a, b), Z, GapOf(a, b));
  }

  lemma SweptIsCost(P: Plan, a: seq<real>, b: seq<real>, grid: seq<real>)
    requires SortedBy(Id, grid) && Holds(grid, a) && Holds(grid, b)
    ensures Sum2(|a|, |b|, SweptTerms(P, a, b, grid)) == PlanCost(P, a, b)
  {
    hide Sum2, Sweep, Gap, SortedBy;
    forall i, j | 0 <= i < |a| && 0 <= j < |b|
      ensures SweptTerms(P, a, b, grid)(i, j) == CostTerms(P, a, b)(i, j)
    {
      assert a[i] == At(a, i) && b[j] == At(b, j);
      SweepOfPoints(grid, At(a, i), At(b, j));
    }
    Sum2Same(|a|, |b|, SweptTerms(P, a, b, grid), CostTerms(P, a, b));
  }

  lemma SweepOfPoints(grid: seq<real>, x: real, y: real)
    requires SortedBy(Id, grid) && x in grid && y in grid
    ensures Sweep(grid, GapOf([x], [y])) == Abs(x - y)
  {
    hide Sweep, Gap;
    assert Holds(grid, [x]) && Holds(grid, [y]);
    AnyGridGivesW1(grid, [x], [y]);
    W1OfPoints(x, y);
  }
}
