/**
  What the sweep of `_wasserstein_1d` means: a metric on empirical
  distributions, and for samples of equal size the cost of the cheapest
  pairing (the earth mover's distance), reached by pairing in sorted order.
*/
module WassersteinLaws {
  import opened Basics
  import opened RealSums
  import opened Sorting
  import opened Wasserstein

  // ----- Sweeps over a fixed grid ---------------------------------------------

  lemma {:induction false} SweepDominated(grid: seq<real>, F: real -> real, G: real -> real, H: real -> real)
    requires SortedBy(Id, grid)
    requires forall i :: 0 <= i < |grid| ==> H(grid[i]) <= F(grid[i]) + G(grid[i])
    ensures Sweep(grid, H) <= Sweep(grid, F) + Sweep(grid, G)
  {
    hide Area;
    if |grid| < 2 {
    } else {
      assert Id(grid[0]) <= Id(grid[1]);
      SortedTail(Id, grid);
      SweepDominated(grid[1..], F, G, H);
      AreaDominated(grid[0], grid[1], F(grid[0]), G(grid[0]), H(grid[0]));
    }
  }

  lemma AreaDominated(lo: real, hi: real, f: real, g: real, h: real)
    requires lo <= hi && h <= f + g
    ensures Area(lo, hi, h) <= Area(lo, hi, f) + Area(lo, hi, g)
  {
  }

  lemma {:induction false} SweepAdd(grid: seq<real>, F: real -> real, G: real -> real, H: real -> real)
    requires forall i :: 0 <= i < |grid| ==> H(grid[i]) == F(grid[i]) + G(grid[i])
    ensures Sweep(grid, H) == Sweep(grid, F) + Sweep(grid, G)
  {
    hide Area;
    if |grid| < 2 {
    } else {
      SweepAdd(grid[1..], F, G, H);
      AreaAdd(grid[0], grid[1], F(grid[0]), G(grid[0]));
    }
  }

  lemma AreaAdd(lo: real, hi: real, f: real, g: real)
    ensures Area(lo, hi, f + g) == Area(lo, hi, f) + Area(lo, hi, g)
  {
  }

  lemma {:induction false} SweepSame(grid: seq<real>, F: real -> real, G: real -> real)
    requires forall i :: 0 <= i < |grid| ==> F(grid[i]) == G(grid[i])
    ensures Sweep(grid, F) == Sweep(grid, G)
  {
    hide Area;
    if |grid| < 2 {
    } else {
      SweepSame(grid[1..], F, G);
    }
  }

  /** `n` times `x`, as a repeated sum. */
  function Times(n: nat, x: real): real {
    if n == 0 then 0.0 else Times(n - 1, x) + x
  }

  lemma {:induction false} TimesIsProduct(n: nat, x: real)
    ensures Times(n, x) == n as real * x
  {
    if n == 0 {
    } else {
      TimesIsProduct(n - 1, x);
      OneMore((n - 1) as real, x);
    }
  }

  lemma OneMore(n: real, x: real)
    ensures (n + 1.0) * x == n * x + x
  {
  }

  lemma TimesOver(n: nat, x: real)
    requires n > 0
    ensures Over(Times(n, x), n) == x
  {
  }

  lemma {:induction false} SweepTimes(grid: seq<real>, n: nat, F: real -> real, H: real -> real)
    requires forall i :: 0 <= i < |grid| ==> H(grid[i]) == Times(n, F(grid[i]))
    ensures Sweep(grid, H) == Times(n, Sweep(grid, F))
  {
    hide Area;
    if n == 0 {
      SweepAdd(grid, H, H, H);
    } else {
      var G := (g: real) => Times(n - 1, F(g));
      SweepTimes(grid, n - 1, F, G);
      SweepAdd(grid, G, F, H);
    }
  }

  lemma {:induction false} SweepNonnegative(grid: seq<real>, F: real -> real)
    requires SortedBy(Id, grid)
    requires forall i :: 0 <= i < |grid| ==> 0.0 <= F(grid[i])
    ensures 0.0 <= Sweep(grid, F)
    ensures Sweep(grid, F) == 0.0 <==> VanishesOnSteps(grid, F)
  {
    hide Area;
    if |grid| < 2 {
    } else {
      assert Id(grid[0]) <= Id(grid[1]);
      SortedTail(Id, grid);
      SweepNonnegative(grid[1..], F);
      VanishesSplit(grid, F);
      AreaSign(grid[0], grid[1], F(grid[0]));
    }
  }

  lemma AreaSign(lo: real, hi: real, f: real)
    requires lo <= hi && 0.0 <= f
    ensures 0.0 <= Area(lo, hi, f)
    ensures Area(lo, hi, f) == 0.0 <==> (lo < hi ==> f == 0.0)
  {
  }

  /** `F` is zero on every grid step of positive length. */
  ghost predicate VanishesOnSteps(grid: seq<real>, F: real -> real) {
    forall i :: 0 <= i < |grid| - 1 && grid[i] < grid[i + 1] ==> F(grid[i]) == 0.0
  }

  lemma VanishesSplit(grid: seq<real>, F: real -> real)
    requires |grid| >= 2
    ensures VanishesOnSteps(grid, F) <==>
            (grid[0] < grid[1] ==> F(grid[0]) == 0.0) && VanishesOnSteps(grid[1..], F)
  {
  }

  // ----- The metric laws --------------------------------------------------------

  lemma SortedGrid(a: seq<real>, b: seq<real>, c: seq<real>) returns (grid: seq<real>)
    ensures SortedBy(Id, grid) && Holds(grid, a) && Holds(grid, b) && Holds(grid, c)
  {
    var all := a + b + c;
    forall i | 0 <= i < |a| ensures a[i] in all { assert all[i] == a[i]; }
    forall i | 0 <= i < |b| ensures b[i] in all { assert all[|a| + i] == b[i]; }
    forall i | 0 <= i < |c| ensures c[i] in all { assert all[|a| + |b| + i] == c[i]; }
    grid := Sort(Id, all);
    SortSorts(Id, all);
    SortHolds(all, a);
    SortHolds(all, b);
    SortHolds(all, c);
  }

  lemma W1Symmetric(a: seq<real>, b: seq<real>)
    requires a != [] && b != []
    ensures W1(a, b) == W1(b, a)
  {
    var grid := SortedGrid(a, b, []);
    AnyGridGivesW1(grid, a, b);
    AnyGridGivesW1(grid, b, a);
    SweepSame(grid, GapOf(a, b), GapOf(b, a));
  }

  lemma W1Triangle(a: seq<real>, b: seq<real>, c: seq<real>)
    requires a != [] && b != [] && c != []
    ensures W1(a, c) <= W1(a, b) + W1(b, c)
  {
    var grid := SortedGrid(a, b, c);
    AnyGridGivesW1(grid, a, b);
    AnyGridGivesW1(grid, b, c);
    AnyGridGivesW1(grid, a, c);
    forall g ensures Gap(a, c, g) <= Gap(a, b, g) + Gap(b, c, g) {
      AbsTriangle(Cdf(a, g), Cdf(b, g), Cdf(c, g));
    }
    SweepDominated(grid, GapOf(a, b), GapOf(b, c), GapOf(a, c));
  }

  lemma AbsTriangle(x: real, y: real, z: real)
    ensures Abs(x - z) <= Abs(x - y) + Abs(y - z)
  {
  }

  /** Non-negative, and zero exactly when the two empirical distributions agree. */
  lemma W1Zero(a: seq<real>, b: seq<real>)
    requires a != [] && b != []
    ensures 0.0 <= W1(a, b)
    ensures W1(a, b) == 0.0 <==> forall g :: Cdf(a, g) == Cdf(b, g)
  {
    var grid := SortedGrid(a, b, []);
    var F := GapOf(a, b);
    AnyGridGivesW1(grid, a, b);
    SweepNonnegative(grid, F);
    if W1(a, b) == 0.0 {
      forall g ensures Cdf(a, g) == Cdf(b, g) {
        ZeroSweepAgrees(grid, a, b, g);
      }
    }
  }

  lemma ZeroSweepAgrees(grid: seq<real>, a: seq<real>, b: seq<real>, g: real)
    requires a != [] && b != [] && SortedBy(Id, grid) && Holds(grid, a) && Holds(grid, b)
    requires VanishesOnSteps(grid, GapOf(a, b))
    ensures Cdf(a, g) == Cdf(b, g)
  {
    hide Cdf, Holds, SameSide, AllAbove, AllReached;
    assert grid != [] by { GridNotEmpty(grid, a); }
    if g < grid[0] || grid[|grid| - 1] <= g {
      OutsideGrid(grid, g);
      SameOutside(a, b, grid, g);
    } else {
      var i := StepOf(grid, g);
      assert Holds(grid, grid) by { Reflexive(grid); }
      BetweenGridPoints(grid, i, g, grid);
      assert GapOf(a, b)(grid[i]) == 0.0;
      SameStep(a, b, grid, grid[i], g);
    }
  }

  lemma GridNotEmpty(grid: seq<real>, a: seq<real>)
    requires a != [] && Holds(grid, a)
    ensures grid != []
  {
    assert a[0] in grid;
  }

  lemma OutsideGrid(grid: seq<real>, g: real)
    requires grid != [] && SortedBy(Id, grid) && (g < grid[0] || grid[|grid| - 1] <= g)
    ensures AllAbove(grid, g) || AllReached(grid, g)
  {
    forall i | 0 <= i < |grid| ensures grid[0] <= grid[i] <= grid[|grid| - 1] {
      assert i == 0 || Id(grid[0]) <= Id(grid[i]);
      assert i == |grid| - 1 || Id(grid[i]) <= Id(grid[|grid| - 1]);
    }
  }

  lemma SameOutside(a: seq<real>, b: seq<real>, grid: seq<real>, g: real)
    requires a != [] && b != [] && Holds(grid, a) && Holds(grid, b) && (AllAbove(grid, g) || AllReached(grid, g))
    ensures Cdf(a, g) == Cdf(b, g)
  {
    hide Cdf;
    CdfSteps(a, grid);
    CdfSteps(b, grid);
  }

  lemma SameStep(a: seq<real>, b: seq<real>, grid: seq<real>, u: real, g: real)
    requires a != [] && b != [] && Holds(grid, a) && Holds(grid, b) && SameSide(grid, u, g) && Gap(a, b, u) == 0.0
    ensures Cdf(a, g) == Cdf(b, g)
  {
    hide Cdf;
    CdfSteps(a, grid);
    CdfSteps(b, grid);
  }

  /** The grid step that `g` lies in. */
  lemma {:induction false} StepOf(grid: seq<real>, g: real) returns (i: nat)
    requires grid != [] && grid[0] <= g < grid[|grid| - 1]
    ensures i + 1 < |grid| && grid[i] <= g < grid[i + 1]
  {
    if g < grid[1] {
      i := 0;
    } else {
      i := StepOf(grid[1..], g);
      i := i + 1;
    }
  }

  lemma Reflexive(grid: seq<real>)
    ensures Holds(grid, grid)
  {
  }

  function Shift(s: seq<real>, t: real): seq<real> { Map((x: real) => x + t, s) }

  lemma {:induction false} CountLeShift(s: seq<real>, t: real, g: real)
    ensures CountLe(Shift(s, t), g + t) == CountLe(s, g)
  {
    if s == [] {
    } else {
      CountLeShift(s[..|s| - 1], t, g);
      assert Shift(s, t)[..|s| - 1] == Shift(s[..|s| - 1], t);
    }
  }

  lemma {:induction false} SweepShift(grid: seq<real>, t: real, F: real -> real, H: real -> real)
    requires forall g :: H(g + t) == F(g)
    ensures Sweep(Shift(grid, t), H) == Sweep(grid, F)
  {
    hide Area;
    if |grid| < 2 {
    } else {
      AreaShift(grid[0], grid[1], t, F(grid[0]));
      SweepShift(grid[1..], t, F, H);
      assert Shift(grid, t)[1..] == Shift(grid[1..], t);
      assert H(grid[0] + t) == F(grid[0]);
    }
  }

  lemma AreaShift(lo: real, hi: real, t: real, f: real)
    ensures Area(lo + t, hi + t, f) == Area(lo, hi, f)
  {
  }

  lemma SortOfShift(s: seq<real>, t: real)
    ensures Sort(Id, Shift(s, t)) == Shift(Sort(Id, s), t)
  {
    SortOfMap(Id, Id, (x: real) => x + t, s);
  }

  lemma GapShift(a: seq<real>, b: seq<real>, t: real)
    requires a != [] && b != []
    ensures forall g :: GapOf(Shift(a, t), Shift(b, t))(g + t) == GapOf(a, b)(g)
  {
    hide Over;
    forall g ensures GapOf(Shift(a, t), Shift(b, t))(g + t) == GapOf(a, b)(g) {
      CountLeShift(a, t, g);
      CountLeShift(b, t, g);
    }
  }

  lemma W1TranslationInvariant(a: seq<real>, b: seq<real>, t: real)
    requires a != [] && b != []
    ensures W1(Shift(a, t), Shift(b, t)) == W1(a, b)
  {
    hide Sweep, Gap, Sort;
    assert Shift(a, t) + Shift(b, t) == Shift(a + b, t);
    SortOfShift(a + b, t);
    GapShift(a, b, t);
    SweepShift(Sort(Id, a + b), t, GapOf(a, b), GapOf(Shift(a, t), Shift(b, t)));
  }

  lemma CountLePermutation(s: seq<real>, t: seq<real>, g: real)
    requires multiset(s) == multiset(t)
    ensures CountLe(s, g) == CountLe(t, g)
  {
    SortOfPermutation(s, t);
    CountLeOfSort(s, g);
    CountLeOfSort(t, g);
  }

  /** The order in which either sample is listed does not matter. */
  lemma W1OfPermutations(a: seq<real>, b: seq<real>, a': seq<real>, b': seq<real>)
    requires a != [] && b != [] && multiset(a) == multiset(a') && multiset(b) == multiset(b')
    ensures a' != [] && b' != [] && W1(a', b') == W1(a, b)
  {
    assert |a| == |multiset(a)| == |a'| && |b| == |multiset(b)| == |b'|;
    assert multiset(a + b) == multiset(a' + b');
    SortOfPermutation(a + b, a' + b');
    forall g ensures Gap(a', b', g) == Gap(a, b, g) {
      CountLePermutation(a, a', g);
      CountLePermutation(b, b', g);
    }
    SweepSame(Sort(Id, a + b), GapOf(a, b), GapOf(a', b'));
  }

  // ----- Equal sizes: the cheapest pairing ------------------------------------

  /** The cost of moving `a[i]` to `b[i]` for every `i`. */
  function PairCost(a: seq<real>, b: seq<real>): real
    requires |a| == |b|
  {
    if a == [] then 0.0
    else PairCost(a[..|a| - 1], b[..|b| - 1]) + Abs(a[|a| - 1] - b[|b| - 1])
  }

  /** How many pairs have exactly one end at or below `g`. */
  function Crossing(a: seq<real>, b: seq<real>, g: real): real
    requires |a| == |b|
  {
    if a == [] then 0.0
    else Crossing(a[..|a| - 1], b[..|b| - 1], g) + Gap([a[|a| - 1]], [b[|b| - 1]], g)
  }

  function CrossingOf(a: seq<real>, b: seq<real>): real -> real
    requires |a| == |b|
  {
    g => Crossing(a, b, g)
  }

  lemma CdfOfOne(x: real, g: real)
    ensures Cdf([x], g) == if x <= g then 1.0 else 0.0
  {
    assert [x][..0] == [];
    assert CountLe([x], g) == if x <= g then 1 else 0;
    assert |[x]| == 1;
  }

  lemma W1OfPoints(x: real, y: real)
    ensures W1([x], [y]) == Abs(x - y)
  {
    var lo, hi := if x <= y then x else y, if x <= y then y else x;
    CdfOfOne(x, lo);
    CdfOfOne(y, lo);
    assert ([x] + [y])[..1] == [x] && [x][..0] == [];
    assert Sort(Id, [x]) == [x];
    assert Sort(Id, [x] + [y]) == Insert(Id, [x], y) == [lo, hi];
    assert [lo, hi][1..] == [hi];
    assert W1([x], [y]) == Area(lo, hi, Gap([x], [y], lo)) + Sweep([hi], GapOf([x], [y]));
  }

  lemma {:induction false} SweepOfCrossing(grid: seq<real>, a: seq<real>, b: seq<real>)
    requires |a| == |b| && SortedBy(Id, grid) && Holds(grid, a) && Holds(grid, b)
    ensures Sweep(grid, CrossingOf(a, b)) == PairCost(a, b)
  {
    if a == [] {
      SweepAdd(grid, CrossingOf(a, b), CrossingOf(a, b), CrossingOf(a, b));
    } else {
      var a', b', x, y := a[..|a| - 1], b[..|b| - 1], a[|a| - 1], b[|b| - 1];
      SweepOfCrossing(grid, a', b');
      assert Holds(grid, [x]) && Holds(grid, [y]);
      AnyGridGivesW1(grid, [x], [y]);
      W1OfPoints(x, y);
      SweepAdd(grid, CrossingOf(a', b'), GapOf([x], [y]), CrossingOf(a, b));
    }
  }

  lemma {:induction false} CountGapAtMostCrossing(a: seq<real>, b: seq<real>, g: real)
    requires |a| == |b|
    ensures Abs(CountLe(a, g) as real - CountLe(b, g) as real) <= Crossing(a, b, g)
  {
    if a == [] {
    } else {
      CountGapAtMostCrossing(a[..|a| - 1], b[..|b| - 1], g);
      CdfOfOne(a[|a| - 1], g);
      CdfOfOne(b[|b| - 1], g);
    }
  }

  /** In ascending order the samples at or below `g` are prefixes, so nothing cancels. */
  lemma {:induction false} SortedCrossing(a: seq<real>, b: seq<real>, g: real)
    requires |a| == |b| && SortedBy(Id, a) && SortedBy(Id, b)
    ensures Abs(CountLe(a, g) as real - CountLe(b, g) as real) == Crossing(a, b, g)
  {
    if a == [] {
    } else {
      var a', b' := a[..|a| - 1], b[..|b| - 1];
      SortedCrossing(a', b', g);
      CdfOfOne(a[|a| - 1], g);
      CdfOfOne(b[|b| - 1], g);
      CountLeBound(a', g);
      CountLeBound(b', g);
      LastReachedIsAll(a, g);
      LastReachedIsAll(b, g);
    }
  }

  lemma LastReachedIsAll(s: seq<real>, g: real)
    requires s != [] && SortedBy(Id, s)
    ensures s[|s| - 1] <= g ==> CountLe(s[..|s| - 1], g) == |s| - 1
  {
    var p := s[..|s| - 1];
    if s[|s| - 1] <= g {
      forall i | 0 <= i < |p| ensures p[i] <= g { assert Id(s[i]) <= Id(s[|s| - 1]); }
      CountLeAll(p, g);
    }
  }

  lemma GapTimesSize(a: seq<real>, b: seq<real>, g: real)
    requires a != [] && |a| == |b|
    ensures Times(|a|, Gap(a, b, g)) == Abs(CountLe(a, g) as real - CountLe(b, g) as real)
  {
    hide CountLe, Over, Times;
    ScaledDifference(CountLe(a, g) as real, CountLe(b, g) as real, |a|);
  }

  lemma ScaledDifference(x: real, y: real, n: nat)
    requires n > 0
    ensures Times(n, Abs(Over(x, n) - Over(y, n))) == Abs(x - y)
  {
    TimesIsProduct(n, Abs(Over(x, n) - Over(y, n)));
    ScaledQuotients(x, y, n as real);
  }

  lemma ScaledQuotients(x: real, y: real, n: real)
    requires 0.0 < n
    ensures n * Abs(x / n - y / n) == Abs(x - y)
  {
  }

  /** No pairing is cheaper than the distance. */
  lemma PairingCostsAtLeastW1(a: seq<real>, b: seq<real>)
    requires a != [] && |a| == |b|
    ensures Times(|a|, W1(a, b)) <= PairCost(a, b)
  {
    hide Sweep, Gap;
    var grid := SortedGrid(a, b, []);
    var F, Z := (g: real) => Times(|a|, Gap(a, b, g)), (g: real) => 0.0;
    AnyGridGivesW1(grid, a, b);
    SweepTimes(grid, |a|, GapOf(a, b), F);
    SweepOfCrossing(grid, a, b);
    SweepAdd(grid, Z, Z, Z);
    forall g ensures F(g) <= Crossing(a, b, g) {
      GapTimesSize(a, b, g);
      CountGapAtMostCrossing(a, b, g);
    }
    SweepDominated(grid, CrossingOf(a, b), Z, F);
  }

  lemma SortedPairingCostsW1(a: seq<real>, b: seq<real>)
    requires a != [] && |a| == |b| && SortedBy(Id, a) && SortedBy(Id, b)
    ensures Times(|a|, W1(a, b)) == PairCost(a, b)
  {
    hide Sweep, Gap;
    var grid := SortedGrid(a, b, []);
    AnyGridGivesW1(grid, a, b);
    SweepOfCrossing(grid, a, b);
    forall g ensures Crossing(a, b, g) == Times(|a|, Gap(a, b, g)) {
      GapTimesSize(a, b, g);
      SortedCrossing(a, b, g);
    }
    SweepTimes(grid, |a|, GapOf(a, b), CrossingOf(a, b));
  }

  /** The cheapest pairing is the sorted one, and it costs |a| times the distance:
      this is what makes the sweep the earth mover's distance. */
  lemma W1IsCheapestPairing(a: seq<real>, b: seq<real>, a': seq<real>, b': seq<real>)
    requires a != [] && |a| == |b| && multiset(a') == multiset(a) && multiset(b') == multiset(b)
    ensures |a'| == |b'| == |a|
    ensures Times(|a|, W1(a, b)) == PairCost(Sort(Id, a), Sort(Id, b)) <= PairCost(a', b')
  {
    W1OfPermutations(a, b, a', b');
    assert |a| == |multiset(a)| == |a'| && |b| == |multiset(b)| == |b'|;
    PairingCostsAtLeastW1(a', b');
    SortSorts(Id, a);
    SortSorts(Id, b);
    W1OfPermutations(a, b, Sort(Id, a), Sort(Id, b));
    SortedPairingCostsW1(Sort(Id, a), Sort(Id, b));
  }

  /** In closed form: (1/n) * sum |a_(i) - b_(i)| over the sorted samples. */
  lemma W1IsSortedMatching(a: seq<real>, b: seq<real>)
    requires a != [] && |a| == |b|
    ensures W1(a, b) == Over(PairCost(Sort(Id, a), Sort(Id, b)), |a|)
  {
    hide W1, PairCost, Over, Times;
    W1IsCheapestPairing(a, b, a, b);
    TimesOver(|a|, W1(a, b));
  }

  lemma {:induction false} PairCostZero(a: seq<real>, b: seq<real>)
    requires |a| == |b|
    ensures 0.0 <= PairCost(a, b)
    ensures PairCost(a, b) == 0.0 <==> a == b
  {
    if a == [] {
    } else {
      PairCostZero(a[..|a| - 1], b[..|b| - 1]);
      assert a == a[..|a| - 1] + [a[|a| - 1]] && b == b[..|b| - 1] + [b[|b| - 1]];
    }
  }

  /** For equal sizes, zero distance means the same values with the same multiplicities. */
  lemma W1ZeroEqualSizes(a: seq<real>, b: seq<real>)
    requires a != [] && |a| == |b|
    ensures W1(a, b) == 0.0 <==> multiset(a) == multiset(b)
  {
    W1IsCheapestPairing(a, b, a, b);
    hide W1, PairCost;
    TimesZero(|a|, W1(a, b));
    PairCostZero(Sort(Id, a), Sort(Id, b));
    SortSorts(Id, a);
    SortSorts(Id, b);
    if multiset(a) == multiset(b) {
      SortOfPermutation(a, b);
    }
  }

  lemma {:induction false} PairCostShift(a: seq<real>, t: real)
    ensures PairCost(a, Shift(a, t)) == Times(|a|, Abs(t))
  {
    if a == [] {
    } else {
      var p := a[..|a| - 1];
      PairCostShift(p, t);
      assert Shift(a, t)[..|a| - 1] == Shift(p, t);
    }
  }

  /** Moving a whole sample by `t` is seen as exactly |t|. */
  lemma W1OfShift(a: seq<real>, t: real)
    requires a != []
    ensures W1(a, Shift(a, t)) == Abs(t)
  {
    W1IsCheapestPairing(a, Shift(a, t), a, Shift(a, t));
    SortOfShift(a, t);
    PairCostShift(Sort(Id, a), t);
    TimesInjective(|a|, W1(a, Shift(a, t)), Abs(t));
  }

  lemma TimesInjective(n: nat, x: real, y: real)
    requires n > 0 && Times(n, x) == Times(n, y)
    ensures x == y
  {
    TimesOver(n, x);
    TimesOver(n, y);
  }

  lemma TimesZero(n: nat, x: real)
    requires n > 0
    ensures Times(n, x) == 0.0 <==> x == 0.0
  {
    TimesIsProduct(n, x);
  }
}
