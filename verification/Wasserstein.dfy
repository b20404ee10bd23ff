/**
  The one-dimensional Wasserstein-1 distance of `evaluator/latent_drift/distance.py`:
  a sweep over the merged sample grid that adds up (grid step) * |CDF gap|.
*/
module Wasserstein {
  import opened Basics
  import opened RealSums
  import opened Sorting

  // ----- Specification ------------------------------------------------------

  /** How many samples are at or below `g`. */
  function CountLe(s: seq<real>, g: real): nat {
    if s == [] then 0 else CountLe(s[..|s| - 1], g) + if s[|s| - 1] <= g then 1 else 0
  }

  function Cdf(s: seq<real>, g: real): real
    requires s != []
  {
    Over(CountLe(s, g) as real, |s|)
  }

  function Gap(a: seq<real>, b: seq<real>, g: real): real
    requires a != [] && b != []
  {
    Abs(Cdf(a, g) - Cdf(b, g))
  }

  function GapOf(a: seq<real>, b: seq<real>): real -> real
    requires a != [] && b != []
  {
    g => Gap(a, b, g)
  }

  function Area(lo: real, hi: real, height: real): real { (hi - lo) * height }

  /** The left-endpoint sum of `F` over an ascending grid. */
  function Sweep(grid: seq<real>, F: real -> real): real {
    if |grid| < 2 then 0.0 else Area(grid[0], grid[1], F(grid[0])) + Sweep(grid[1..], F)
  }

  function W1(a: seq<real>, b: seq<real>): real
    requires a != [] && b != []
  {
    Sweep(Sort(Id, a + b), GapOf(a, b))
  }

  // ----- The program --------------------------------------------------------

  /** `np.searchsorted(s, v, side="right")`: the insertion point behind all equal values. */
  function SearchSortedRight(s: seq<real>, v: real): (k: nat)
    requires SortedBy(Id, s)
    ensures k <= |s|
    ensures forall i :: 0 <= i < k ==> s[i] <= v
    ensures forall i :: k <= i < |s| ==> v < s[i]
  {
    if s == [] then 0
    else if s[|s| - 1] <= v then assert forall i :: 0 <= i < |s| ==> Id(s[i]) <= Id(s[|s| - 1]); |s|
    else SearchSortedRight(s[..|s| - 1], v)
  }

  /** `searchsorted(sorted, v, side="right") / n`. */
  function SearchCdf(sorted: seq<real>, v: real): real
    requires SortedBy(Id, sorted) && sorted != []
  {
    Over(SearchSortedRight(sorted, v) as real, |sorted|)
  }

  method SortInPlace(values: array<real>)
    modifies values
    ensures values[..] == Sort(Id, old(values[..]))
  {
    var sorted := Sort(Id, values[..]);
    forall i | 0 <= i < values.Length {
      values[i] := sorted[i];
    }
  }

  /** The empirical CDF of `s` at every grid point. */
  method CdfOnGrid(s: seq<real>, grid: seq<real>) returns (cdf: seq<real>)
    requires s != []
    ensures |cdf| == |grid| && forall i :: 0 <= i < |grid| ==> cdf[i] == Cdf(s, grid[i])
  {
    var sorted := Sort(Id, s);
    SortSorts(Id, s);
    cdf := seq(|grid|, i requires 0 <= i < |grid| => SearchCdf(sorted, grid[i]));
    forall i | 0 <= i < |grid| ensures cdf[i] == Cdf(s, grid[i]) {
      CdfBySearch(s, grid[i]);
    }
  }

  method CdfGaps(a: seq<real>, b: seq<real>, grid: seq<real>) returns (gaps: seq<real>)
    requires a != [] && b != []
    ensures |gaps| == |grid| && forall i :: 0 <= i < |grid| ==> gaps[i] == GapOf(a, b)(grid[i])
  {
    var cdfA := CdfOnGrid(a, grid);
    var cdfB := CdfOnGrid(b, grid);
    gaps := seq(|grid|, i requires 0 <= i < |grid| => Abs(cdfA[i] - cdfB[i]));
  }

  method Wasserstein1D(a: seq<real>, b: seq<real>) returns (distance: real)
    requires a != [] && b != []
    ensures distance == W1(a, b)
  {
    var merged := Sort(Id, a) + Sort(Id, b);
    var allValues := new real[|merged|](i requires 0 <= i < |merged| => merged[i]);
    assert allValues[..] == merged;
    SortInPlace(allValues);
    MergedGrid(a, b);
    var grid := allValues[..];
    var cdfDiff := CdfGaps(a, b, grid);
    distance := SumDeltas(grid, cdfDiff, GapOf(a, b));
  }

  /** `np.sum(np.diff(grid) * heights[:-1])`. */
  method SumDeltas(grid: seq<real>, heights: seq<real>, ghost F: real -> real) returns (total: real)
    requires grid != [] && |heights| == |grid|
    requires forall i :: 0 <= i < |grid| ==> heights[i] == F(grid[i])
    ensures total == Sweep(grid, F)
  {
    hide Area;
    total := 0.0;
    var i := 0;
    assert grid[0..] == grid;
    while i + 1 < |grid|
      invariant 0 <= i < |grid|
      invariant total + Sweep(grid[i..], F) == Sweep(grid, F)
    {
      SweepStep(grid, i, F);
      total := total + Area(grid[i], grid[i + 1], heights[i]);
      i := i + 1;
    }
  }

  lemma SweepStep(grid: seq<real>, i: nat, F: real -> real)
    requires i + 1 < |grid|
    ensures Sweep(grid[i..], F) == Area(grid[i], grid[i + 1], F(grid[i])) + Sweep(grid[i + 1..], F)
  {
  }

  lemma MergedGrid(a: seq<real>, b: seq<real>)
    ensures SortedBy(Id, Sort(Id, a)) && SortedBy(Id, Sort(Id, b))
    ensures Sort(Id, Sort(Id, a) + Sort(Id, b)) == Sort(Id, a + b)
  {
    SortSorts(Id, a);
    SortSorts(Id, b);
    SortOfPermutation(Sort(Id, a) + Sort(Id, b), a + b);
  }

  lemma CdfBySearch(s: seq<real>, g: real)
    requires s != []
    ensures SortedBy(Id, Sort(Id, s))
    ensures SearchCdf(Sort(Id, s), g) == Cdf(s, g)
  {
    CountBySearch(s, g);
  }

  // ----- Counting -----------------------------------------------------------

  /** No sample lies in the half-open interval between `u` and `v`. */
  ghost predicate SameSide(samples: seq<real>, u: real, v: real) {
    forall i :: 0 <= i < |samples| ==> (samples[i] <= u <==> samples[i] <= v)
  }

  ghost predicate AllAbove(samples: seq<real>, u: real) {
    forall i :: 0 <= i < |samples| ==> u < samples[i]
  }

  ghost predicate AllReached(samples: seq<real>, u: real) {
    forall i :: 0 <= i < |samples| ==> samples[i] <= u
  }

  lemma {:induction false} CountLeBound(s: seq<real>, g: real)
    ensures CountLe(s, g) <= |s|
  {
    if s == [] {
    } else {
      CountLeBound(s[..|s| - 1], g);
    }
  }

  lemma {:induction false} CountLeNone(s: seq<real>, g: real)
    requires AllAbove(s, g)
    ensures CountLe(s, g) == 0
  {
    if s == [] {
    } else {
      CountLeNone(s[..|s| - 1], g);
    }
  }

  lemma {:induction false} CountLeAll(s: seq<real>, g: real)
    requires AllReached(s, g)
    ensures CountLe(s, g) == |s|
  {
    if s == [] {
    } else {
      CountLeAll(s[..|s| - 1], g);
    }
  }

  lemma {:induction false} CountLeFlat(s: seq<real>, u: real, v: real)
    requires SameSide(s, u, v)
    ensures CountLe(s, u) == CountLe(s, v)
  {
    if s == [] {
    } else {
      CountLeFlat(s[..|s| - 1], u, v);
    }
  }

  lemma {:induction false} CountLeInsert(s: seq<real>, x: real, g: real)
    ensures CountLe(Insert(Id, s, x), g) == CountLe(s, g) + if x <= g then 1 else 0
  {
    var one := [x];
    assert CountLe(one, g) == if x <= g then 1 else 0 by { assert one[..0] == []; }
    if s == [] || x < s[0] {
      CountLeConcat(one, s, g);
      if s == [] { assert one + s == one; }
    } else {
      CountLeInsert(s[1..], x, g);
      CountLeConcat([s[0]], s[1..], g);
      CountLeConcat([s[0]], Insert(Id, s[1..], x), g);
      assert s == [s[0]] + s[1..];
    }
  }

  lemma {:induction false} CountLeConcat(s: seq<real>, t: seq<real>, g: real)
    ensures CountLe(s + t, g) == CountLe(s, g) + CountLe(t, g)
  {
    if t == [] {
      assert s + t == s;
    } else {
      CountLeConcat(s, t[..|t| - 1], g);
      assert (s + t)[..|s + t| - 1] == s + t[..|t| - 1];
    }
  }

  lemma {:induction false} CountLeOfSort(s: seq<real>, g: real)
    ensures CountLe(Sort(Id, s), g) == CountLe(s, g)
  {
    if s == [] {
    } else {
      CountLeOfSort(s[..|s| - 1], g);
      CountLeInsert(Sort(Id, s[..|s| - 1]), s[|s| - 1], g);
    }
  }

  lemma {:induction false} CountBySearch(s: seq<real>, g: real)
    ensures SortedBy(Id, Sort(Id, s))
    ensures SearchSortedRight(Sort(Id, s), g) == CountLe(s, g)
  {
    hide Sort, SearchSortedRight, CountLe;
    SortSorts(Id, s);
    var t := Sort(Id, s);
    var k := SearchSortedRight(t, g);
    CountLeOfSort(s, g);
    assert t == t[..k] + t[k..];
    CountLeConcat(t[..k], t[k..], g);
    CountLeAll(t[..k], g);
    CountLeNone(t[k..], g);
  }

  // ----- Independence of the grid --------------------------------------------

  /** `F` only moves at samples, and vanishes left of the first and from the last one on. */
  ghost predicate StepsAt(F: real -> real, samples: seq<real>) {
    && (forall u, v :: SameSide(samples, u, v) ==> F(u) == F(v))
    && (forall u :: AllAbove(samples, u) ==> F(u) == 0.0)
    && (forall u :: AllReached(samples, u) ==> F(u) == 0.0)
  }

  ghost predicate Holds(grid: seq<real>, samples: seq<real>) {
    forall i :: 0 <= i < |samples| ==> samples[i] in grid
  }

  lemma CdfSteps(a: seq<real>, samples: seq<real>)
    requires a != [] && Holds(samples, a)
    ensures forall u, v :: SameSide(samples, u, v) ==> Cdf(a, u) == Cdf(a, v)
    ensures forall u :: AllAbove(samples, u) ==> Cdf(a, u) == 0.0
    ensures forall u :: AllReached(samples, u) ==> Cdf(a, u) == 1.0
  {
    forall u, v | SameSide(samples, u, v) ensures Cdf(a, u) == Cdf(a, v) {
      CountLeFlat(a, u, v);
    }
    forall u | AllAbove(samples, u) ensures Cdf(a, u) == 0.0 {
      CountLeNone(a, u);
    }
    forall u | AllReached(samples, u) ensures Cdf(a, u) == 1.0 {
      CountLeAll(a, u);
      DivideSelf(|a| as real);
    }
  }

  lemma DivideSelf(x: real)
    requires x != 0.0
    ensures x / x == 1.0
  {
  }

  lemma GapSteps(a: seq<real>, b: seq<real>, samples: seq<real>)
    requires a != [] && b != [] && Holds(samples, a) && Holds(samples, b)
    ensures StepsAt(GapOf(a, b), samples)
  {
    CdfSteps(a, samples);
    CdfSteps(b, samples);
  }

  /** The inductive core: a point inserted behind the head of the grid changes nothing. */
  lemma {:induction false} SweepInsertInside(grid: seq<real>, x: real, F: real -> real)
    requires grid != [] && grid[0] <= x
    requires forall i :: 0 <= i < |grid| - 1 && grid[i] <= x < grid[i + 1] ==> F(x) == F(grid[i])
    requires F(grid[|grid| - 1]) == 0.0
    ensures Sweep(Insert(Id, grid, x), F) == Sweep(grid, F)
  {
    hide Area;
    var r := Insert(Id, grid, x);
    assert r[1..] == Insert(Id, grid[1..], x);
    if |grid| == 1 {
      assert r == [grid[0], x];
      FlatArea(grid[0], x);
    } else if x < grid[1] {
      assert r[1..] == [x] + grid[1..];
      assert r[1..][1..] == grid[1..];
      SplitArea(grid[0], x, grid[1], F(x));
    } else {
      SweepInsertInside(grid[1..], x, F);
      assert r[1] == grid[1];
    }
  }

  lemma SplitArea(lo: real, mid: real, hi: real, f: real)
    ensures Area(lo, mid, f) + Area(mid, hi, f) == Area(lo, hi, f)
  {
  }

  lemma FlatArea(lo: real, hi: real)
    ensures Area(lo, hi, 0.0) == 0.0
  {
  }

  lemma {:induction false} SweepInsert(grid: seq<real>, x: real, F: real -> real, samples: seq<real>)
    requires grid != [] && SortedBy(Id, grid)
    requires StepsAt(F, samples) && Holds(grid, samples)
    ensures Sweep(Insert(Id, grid, x), F) == Sweep(grid, F)
  {
    hide Area;
    if x < grid[0] {
      assert ([x] + grid)[1..] == grid;
      FlatArea(x, grid[0]);
      forall i | 0 <= i < |samples| ensures x < samples[i] {
        HeadIsLeast(grid, samples[i]);
      }
      assert AllAbove(samples, x);
    } else {
      forall i | 0 <= i < |grid| - 1 && grid[i] <= x < grid[i + 1] ensures F(x) == F(grid[i]) {
        BetweenGridPoints(grid, i, x, samples);
      }
      LastReachesAll(grid, samples);
      SweepInsertInside(grid, x, F);
    }
  }

  lemma BetweenGridPoints(grid: seq<real>, i: nat, x: real, samples: seq<real>)
    requires SortedBy(Id, grid) && Holds(grid, samples)
    requires i < |grid| - 1 && grid[i] <= x < grid[i + 1]
    ensures SameSide(samples, grid[i], x)
  {
  }

  lemma LastReachesAll(grid: seq<real>, samples: seq<real>)
    requires grid != [] && SortedBy(Id, grid) && Holds(grid, samples)
    ensures AllReached(samples, grid[|grid| - 1])
  {
  }

  lemma {:induction false} SweepRefine(grid: seq<real>, more: seq<real>, F: real -> real, samples: seq<real>)
    requires grid != []
    requires StepsAt(F, samples) && Holds(grid, samples)
    ensures Sweep(Sort(Id, grid + more), F) == Sweep(Sort(Id, grid), F)
  {
    if more == [] {
      assert grid + more == grid;
    } else {
      var fewer, x := more[..|more| - 1], more[|more| - 1];
      SweepRefine(grid, fewer, F, samples);
      assert grid + more == (grid + fewer) + [x];
      SortSnoc(Id, grid + fewer, x);
      assert Holds(grid + fewer, samples) by {
        forall i | 0 <= i < |samples| ensures samples[i] in grid + fewer { assert samples[i] in grid; }
      }
      SortSorts(Id, grid + fewer);
      SortHolds(grid + fewer, samples);
      SweepInsert(Sort(Id, grid + fewer), x, F, samples);
    }
  }

  lemma SortHolds(grid: seq<real>, samples: seq<real>)
    requires Holds(grid, samples)
    ensures Holds(Sort(Id, grid), samples)
  {
    SortSorts(Id, grid);
    SameElements(Sort(Id, grid), grid);
  }

  /** Adding grid points never changes the sweep: every ascending grid that
      holds all samples gives the distance. */
  lemma AnyGridGivesW1(grid: seq<real>, a: seq<real>, b: seq<real>)
    requires a != [] && b != []
    requires SortedBy(Id, grid) && Holds(grid, a) && Holds(grid, b)
    ensures Sweep(grid, GapOf(a, b)) == W1(a, b)
  {
    hide Sweep, Gap;
    var F, samples := GapOf(a, b), a + b;
    assert Holds(samples, a) && Holds(samples, b) by {
      forall i | 0 <= i < |a| ensures a[i] in samples { assert samples[i] == a[i]; }
      forall i | 0 <= i < |b| ensures b[i] in samples { assert samples[|a| + i] == b[i]; }
    }
    GapSteps(a, b, samples);
    assert a[0] in grid;
    SweepRefine(samples, grid, F, samples);
    SweepRefine(grid, samples, F, samples);
    SortOfPermutation(samples + grid, grid + samples);
    SortOfSorted(Id, grid);
  }
}
