/**
  A transport plan that costs exactly the distance of `_wasserstein_1d`, for
  samples of any two sizes: cut the samples into equal parts, match the parts
  in sorted order, and send along every match. With `NoPlanIsCheaper`, the
  distance is the least cost of any plan.
*/
module TransportPlan {
  import opened Basics
  import opened RealSums
  import opened Sorting
  import opened Transport
  import opened Wasserstein
  import opened WassersteinLaws

  /** A part of a sample, with the index it was cut from. */
  datatype Part = Part(value: real, owner: int)

  function ValueOf(p: Part): real { p.value }

  function OwnerIs(i: int): Part -> real { (p: Part) => if p.owner == i then 1.0 else 0.0 }

  function Tagged(s: seq<real>): (r: seq<Part>)
    ensures |r| == |s|
  {
    seq(|s|, i requires 0 <= i < |s| => Part(s[i], i))
  }

  function TaggedParts(s: seq<real>, k: nat): seq<Part> {
    if k == 0 then [] else TaggedParts(s, k - 1) + Tagged(s)
  }

  ghost predicate Owned(s: seq<real>, parts: seq<Part>) {
    forall p :: p in parts ==> 0 <= p.owner < |s| && p.value == s[p.owner]
  }

  // ----- Counting parts by owner ------------------------------------------------------------

  lemma {:induction false} SumByConcat<T>(s: seq<T>, t: seq<T>, f: T -> real)
    ensures SumBy(s + t, f) == SumBy(s, f) + SumBy(t, f)
  {
    if t == [] {
      assert s + t == s;
    } else {
      SumByConcat(s, t[..|t| - 1], f);
      assert (s + t)[..|s + t| - 1] == s + t[..|t| - 1];
    }
  }

  lemma {:induction false} SumByInsert<T>(key: T -> real, s: seq<T>, x: T, f: T -> real)
    ensures SumBy(Insert(key, s, x), f) == SumBy(s, f) + f(x)
  {
    assert SumBy([x], f) == f(x) by { assert [x][..0] == []; }
    if s == [] || key(x) < key(s[0]) {
      SumByConcat([x], s, f);
    } else {
      SumByInsert(key, s[1..], x, f);
      SumByConcat([s[0]], s[1..], f);
      SumByConcat([s[0]], Insert(key, s[1..], x), f);
      assert s == [s[0]] + s[1..];
    }
  }

  lemma {:induction false} SumByOfSort<T>(key: T -> real, s: seq<T>, f: T -> real)
    ensures SumBy(Sort(key, s), f) == SumBy(s, f)
  {
    if s == [] {
    } else {
      SumByOfSort(key, s[..|s| - 1], f);
      SumByInsert(key, Sort(key, s[..|s| - 1]), s[|s| - 1], f);
    }
  }

  lemma {:induction false} OwnersOfPrefix(s: seq<real>, n: nat, i: int)
    requires n <= |s|
    ensures SumBy(Tagged(s)[..n], OwnerIs(i)) == if 0 <= i < n then 1.0 else 0.0
  {
    if n == 0 {
    } else {
      OwnersOfPrefix(s, n - 1, i);
      assert Tagged(s)[..n][..n - 1] == Tagged(s)[..n - 1];
    }
  }

  /** Every sample owns k of the parts. */
  lemma {:induction false} OwnersOfParts(s: seq<real>, k: nat, i: int)
    requires 0 <= i < |s|
    ensures SumBy(TaggedParts(s, k), OwnerIs(i)) == k as real
  {
    if k == 0 {
    } else {
      OwnersOfParts(s, k - 1, i);
      OwnersOfPrefix(s, |s|, i);
      assert Tagged(s)[..|s|] == Tagged(s);
      SumByConcat(TaggedParts(s, k - 1), Tagged(s), OwnerIs(i));
    }
  }

  lemma {:induction false} PartsAreOwned(s: seq<real>, k: nat)
    ensures Owned(s, TaggedParts(s, k)) && Map(ValueOf, TaggedParts(s, k)) == Parts(s, k)
  {
    if k == 0 {
    } else {
      PartsAreOwned(s, k - 1);
      assert Map(ValueOf, Tagged(s)) == s;
      assert Map(ValueOf, TaggedParts(s, k)) == Map(ValueOf, TaggedParts(s, k - 1)) + Map(ValueOf, Tagged(s));
    }
  }

  /** The parts in sorted order. */
  function SortedParts(s: seq<real>, k: nat): seq<Part> { Sort(ValueOf, TaggedParts(s, k)) }

  lemma SortedPartsAre(s: seq<real>, k: nat)
    ensures Owned(s, SortedParts(s, k)) && Map(ValueOf, SortedParts(s, k)) == Sort(Id, Parts(s, k))
    ensures |SortedParts(s, k)| == |Parts(s, k)|
    ensures forall i :: 0 <= i < |s| ==> SumBy(SortedParts(s, k), OwnerIs(i)) == k as real
  {
    hide Sort, SumBy, TaggedParts, Parts;
    var parts := TaggedParts(s, k);
    PartsAreOwned(s, k);
    SortSorts(ValueOf, parts);
    SameElements(Sort(ValueOf, parts), parts);
    SortOfMap(ValueOf, Id, ValueOf, parts);
    forall i | 0 <= i < |s| ensures SumBy(SortedParts(s, k), OwnerIs(i)) == k as real {
      OwnersOfParts(s, k, i);
      SumByOfSort(ValueOf, parts, OwnerIs(i));
    }
  }

  // ----- The plan of a matching ----------------------------------------------------------------

  /** The plan that moves one unit from the owner of p to the owner of q. */
  function Pulse(p: Part, q: Part): Plan { (i, j) => if p.owner == i && q.owner == j then 1.0 else 0.0 }

  /** How many matches lead from a part of i to a part of j. */
  function Moves(x: seq<Part>, y: seq<Part>, i: int, j: int): real
    requires |x| == |y|
  {
    if x == [] then 0.0
    else
      var n := |x| - 1;
      Moves(x[..n], y[..n], i, j) + Pulse(x[n], y[n])(i, j)
  }

  ghost function MovesOf(x: seq<Part>, y: seq<Part>): Plan
    requires |x| == |y|
  {
    (i, j) => Moves(x, y, i, j)
  }

  lemma {:induction false} MovesNonnegative(x: seq<Part>, y: seq<Part>, i: int, j: int)
    requires |x| == |y|
    ensures 0.0 <= Moves(x, y, i, j) == Moves(y, x, j, i)
  {
    if x == [] {
    } else {
      var n := |x| - 1;
      MovesNonnegative(x[..n], y[..n], i, j);
    }
  }

  /** Summed over all receivers, the moves from i are its parts. */
  lemma {:induction false} MovesFrom(x: seq<Part>, y: seq<Part>, b: seq<real>, i: int)
    requires |x| == |y| && Owned(b, y)
    ensures Sum(|b|, Row(MovesOf(x, y), i)) == SumBy(x, OwnerIs(i))
  {
    var n, zero := |b|, (j: int) => 0.0;
    if x == [] {
      SumAdd(n, zero, zero, zero);
      SumSame(n, Row(MovesOf(x, y), i), zero);
    } else {
      var l := |x| - 1;
      var p, q := x[l], y[l];
      assert Owned(b, y[..l]) && q in y;
      MovesFrom(x[..l], y[..l], b, i);
      SumOfOne(n, q.owner, Row(Pulse(p, q), i));
      SumAdd(n, Row(MovesOf(x[..l], y[..l]), i), Row(Pulse(p, q), i), Row(MovesOf(x, y), i));
    }
  }

  lemma PulseTerm(p: Part, q: Part, a: seq<real>, b: seq<real>, i: int, j: int)
    ensures CostTerms(Pulse(p, q), a, b)(i, j)
         == if p.owner == i && q.owner == j then Abs(At(a, i) - At(b, j)) else 0.0
  {
  }

  lemma PulseCost(p: Part, q: Part, a: seq<real>, b: seq<real>)
    requires 0 <= p.owner < |a| && p.value == a[p.owner] && 0 <= q.owner < |b| && q.value == b[q.owner]
    ensures Sum2(|a|, |b|, CostTerms(Pulse(p, q), a, b)) == Abs(p.value - q.value)
  {
    hide Sum, CostTerms, Pulse;
    var terms := CostTerms(Pulse(p, q), a, b);
    forall i, j ensures terms(i, j) == if p.owner == i && q.owner == j then Abs(At(a, i) - At(b, j)) else 0.0 {
      PulseTerm(p, q, a, b, i, j);
    }
    forall i | 0 <= i < |a| ensures RowSums(|b|, terms)(i) == terms(i, q.owner) {
      SumOfOne(|b|, q.owner, Row(terms, i));
    }
    SumOfOne(|a|, p.owner, RowSums(|b|, terms));
  }

  lemma MoveTerm(x: seq<Part>, y: seq<Part>, a: seq<real>, b: seq<real>, i: int, j: int)
    requires |x| == |y| && x != []
    ensures var l := |x| - 1;
            CostTerms(MovesOf(x, y), a, b)(i, j)
            == CostTerms(MovesOf(x[..l], y[..l]), a, b)(i, j) + CostTerms(Pulse(x[l], y[l]), a, b)(i, j)
  {
    var l := |x| - 1;
    AddCost(Moves(x[..l], y[..l], i, j), Pulse(x[l], y[l])(i, j), Abs(At(a, i) - At(b, j)));
  }

  lemma AddCost(u: real, v: real, c: real)
    ensures (u + v) * c == u * c + v * c
  {
  }

  lemma NoMovesCostNothing(x: seq<Part>, y: seq<Part>, a: seq<real>, b: seq<real>)
    requires |x| == |y| == 0
    ensures Sum2(|a|, |b|, CostTerms(MovesOf(x, y), a, b)) == 0.0
  {
    hide Sum2;
    var terms := CostTerms(MovesOf(x, y), a, b);
    forall i, j ensures terms(i, j) == 0.0 * terms(i, j) {
      assert MovesOf(x, y)(i, j) == 0.0;
    }
    Sum2Scale(|a|, |b|, 0.0, terms, terms);
  }

  /** The moves cost what the matching costs. */
  lemma {:induction false} MovesCost(x: seq<Part>, y: seq<Part>, a: seq<real>, b: seq<real>)
    requires |x| == |y| && Owned(a, x) && Owned(b, y)
    ensures Sum2(|a|, |b|, CostTerms(MovesOf(x, y), a, b)) == PairCost(Map(ValueOf, x), Map(ValueOf, y))
  {
    hide Sum2, SumBy, CostTerms, MovesOf, Pulse;
    if x == [] {
      NoMovesCostNothing(x, y, a, b);
    } else {
      var l := |x| - 1;
      assert x[l] in x && y[l] in y && Owned(a, x[..l]) && Owned(b, y[..l]);
      MovesCost(x[..l], y[..l], a, b);
      PulseCost(x[l], y[l], a, b);
      forall i, j
        ensures CostTerms(MovesOf(x, y), a, b)(i, j)
             == CostTerms(MovesOf(x[..l], y[..l]), a, b)(i, j) + CostTerms(Pulse(x[l], y[l]), a, b)(i, j)
      {
        MoveTerm(x, y, a, b, i, j);
      }
      Sum2Add(|a|, |b|, CostTerms(MovesOf(x[..l], y[..l]), a, b), CostTerms(Pulse(x[l], y[l]), a, b),
              CostTerms(MovesOf(x, y), a, b));
      assert Map(ValueOf, x)[..l] == Map(ValueOf, x[..l]) && Map(ValueOf, y)[..l] == Map(ValueOf, y[..l]);
    }
  }

  // ----- The cheapest plan -----------------------------------------------------------------------

  /** Every match moves the fraction f of the mass. */
  ghost function Spread(f: real, x: seq<Part>, y: seq<Part>): Plan
    requires |x| == |y|
  {
    (i, j) => f * Moves(x, y, i, j)
  }

  /** Each match moves one part, a fraction 1/(|a||b|) of the mass. */
  ghost function CheapestPlan(a: seq<real>, b: seq<real>): Plan
    requires a != [] && b != [] && |SortedParts(a, |b|)| == |SortedParts(b, |a|)|
  {
    Spread(Fraction(|a|, |b|), SortedParts(a, |b|), SortedParts(b, |a|))
  }

  function Fraction(m: nat, n: nat): real
    requires m > 0 && n > 0
  {
    1.0 / (m as real * n as real)
  }

  lemma FractionOf(m: nat, n: nat)
    requires m > 0 && n > 0
    ensures Fraction(m, n) > 0.0 && Fraction(m, n) == Fraction(n, m)
    ensures Fraction(m, n) * n as real == Over(1.0, m)
    ensures Fraction(m, n) * Product(m, n) as real == 1.0
  {
    var x, y := m as real, n as real;
    ProductAsReal(m, n);
    assert x * y > 0.0;
    assert Fraction(m, n) * (x * y) == 1.0;
    Regroup(Fraction(m, n), x, y);
  }

  lemma Regroup(f: real, x: real, y: real)
    requires f * (x * y) == 1.0 && x > 0.0
    ensures f * y == 1.0 / x
  {
    assert (f * y) * x == 1.0;
  }

  lemma EqualParts(a: seq<real>, b: seq<real>)
    requires a != [] && b != []
    ensures |Parts(a, |b|)| == |Parts(b, |a|)| == Product(|a|, |b|)
    ensures |SortedParts(a, |b|)| == |SortedParts(b, |a|)|
  {
    hide SortedParts, Parts;
    PartsCount(a, |b|, 0.0);
    PartsCount(b, |a|, 0.0);
    SortedPartsAre(a, |b|);
    SortedPartsAre(b, |a|);
    assert Product(|b|, |a|) == Product(|a|, |b|);
  }

  lemma GivesAll(a: seq<real>, b: seq<real>, x: seq<Part>, y: seq<Part>, i: int)
    requires a != [] && b != [] && |x| == |y| && Owned(b, y) && SumBy(x, OwnerIs(i)) == |b| as real
    ensures Sum(|b|, Row(Spread(Fraction(|a|, |b|), x, y), i)) == Over(1.0, |a|)
  {
    hide Sum, SumBy, Moves, Fraction, Owned;
    FractionOf(|a|, |b|);
    MovesFrom(x, y, b, i);
    SumScale(|b|, Fraction(|a|, |b|), Row(MovesOf(x, y), i), Row(Spread(Fraction(|a|, |b|), x, y), i));
  }

  lemma FlippedSpread(f: real, x: seq<Part>, y: seq<Part>, n: nat, j: int)
    requires |x| == |y|
    ensures Sum(n, Row(Flip(Spread(f, x, y)), j)) == Sum(n, Row(Spread(f, y, x), j))
  {
    hide Moves;
    forall i ensures Row(Flip(Spread(f, x, y)), j)(i) == Row(Spread(f, y, x), j)(i) {
      MovesNonnegative(x, y, i, j);
    }
    SumSame(n, Row(Flip(Spread(f, x, y)), j), Row(Spread(f, y, x), j));
  }

  lemma CheapestIsPlan(a: seq<real>, b: seq<real>)
    requires a != [] && b != []
    ensures |SortedParts(a, |b|)| == |SortedParts(b, |a|)| && IsPlan(CheapestPlan(a, b), |a|, |b|)
  {
    hide SortedParts, Sum, SumBy, Moves, Fraction, Owned;
    EqualParts(a, b);
    var x, y, f := SortedParts(a, |b|), SortedParts(b, |a|), Fraction(|a|, |b|);
    SortedPartsAre(a, |b|);
    SortedPartsAre(b, |a|);
    FractionOf(|a|, |b|);
    forall i, j ensures 0.0 <= Spread(f, x, y)(i, j) {
      MovesNonnegative(x, y, i, j);
      ProductNonnegative(f, Moves(x, y, i, j));
    }
    forall i | 0 <= i < |a| ensures Sum(|b|, Row(CheapestPlan(a, b), i)) == Over(1.0, |a|) {
      GivesAll(a, b, x, y, i);
    }
    forall j | 0 <= j < |b| ensures Sum(|a|, Row(Flip(CheapestPlan(a, b)), j)) == Over(1.0, |b|) {
      GivesAll(b, a, y, x, j);
      FlippedSpread(f, x, y, |a|, j);
    }
  }

  lemma CheapestCostsW1(a: seq<real>, b: seq<real>)
    requires a != [] && b != []
    ensures |SortedParts(a, |b|)| == |SortedParts(b, |a|)| && PlanCost(CheapestPlan(a, b), a, b) == W1(a, b)
  {
    hide SortedParts, Sum2, Moves, Fraction, W1, PairCost, Sort, Parts, Times, Product, Owned, SumBy;
    EqualParts(a, b);
    var x, y, f := SortedParts(a, |b|), SortedParts(b, |a|), Fraction(|a|, |b|);
    SortedPartsAre(a, |b|);
    SortedPartsAre(b, |a|);
    MovesCost(x, y, a, b);
    forall i, j ensures CostTerms(Spread(f, x, y), a, b)(i, j) == f * CostTerms(MovesOf(x, y), a, b)(i, j) {
      Associate(f, Moves(x, y, i, j), Abs(At(a, i) - At(b, j)));
    }
    Sum2Scale(|a|, |b|, f, CostTerms(MovesOf(x, y), a, b), CostTerms(Spread(f, x, y), a, b));
    W1IsCheapestMatching(a, b, Parts(a, |b|), Parts(b, |a|));
    TimesIsProduct(Product(|a|, |b|), W1(a, b));
    FractionOf(|a|, |b|);
    Associate(f, Product(|a|, |b|) as real, W1(a, b));
  }

  lemma Associate(f: real, x: real, y: real)
    ensures (f * x) * y == f * (x * y)
  {
  }

  /** The distance is the least cost of moving one sample's mass onto the other: some plan costs exactly
      that much, and no plan costs less. */
  lemma W1IsLeastPlanCost(a: seq<real>, b: seq<real>)
    requires a != [] && b != []
    ensures exists P :: IsPlan(P, |a|, |b|) && PlanCost(P, a, b) == W1(a, b)
    ensures forall P :: IsPlan(P, |a|, |b|) ==> W1(a, b) <= PlanCost(P, a, b)
  {
    hide IsPlan, PlanCost, W1, SortedParts;
    CheapestIsPlan(a, b);
    CheapestCostsW1(a, b);
    assert IsPlan(CheapestPlan(a, b), |a|, |b|);
    forall P | IsPlan(P, |a|, |b|) ensures W1(a, b) <= PlanCost(P, a, b) {
      NoPlanIsCheaper(P, a, b);
    }
  }

  // ----- Scale --------------------------------------------------------------------------------

  function Scale(c: real, s: seq<real>): (r: seq<real>)
    ensures |r| == |s|
  {
    seq(|s|, i requires 0 <= i < |s| => c * s[i])
  }

  lemma ScaledCost(c: real, P: Plan, a: seq<real>, b: seq<real>)
    ensures PlanCost(P, Scale(c, a), Scale(c, b)) == Abs(c) * PlanCost(P, a, b)
  {
    hide Sum2;
    forall i, j | 0 <= i < |a| && 0 <= j < |b|
      ensures CostTerms(P, Scale(c, a), Scale(c, b))(i, j) == Abs(c) * CostTerms(P, a, b)(i, j)
    {
      ScaledTerm(P(i, j), c, a[i], b[j]);
    }
    Sum2Scale(|a|, |b|, Abs(c), CostTerms(P, a, b), CostTerms(P, Scale(c, a), Scale(c, b)));
  }

  lemma ScaledTerm(p: real, c: real, x: real, y: real)
    ensures p * Abs(c * x - c * y) == Abs(c) * (p * Abs(x - y))
  {
    assert c * x - c * y == c * (x - y);
    AbsOfProduct(c, x - y);
    assert p * (Abs(c) * Abs(x - y)) == Abs(c) * (p * Abs(x - y));
  }

  lemma AbsOfProduct(c: real, z: real)
    ensures Abs(c * z) == Abs(c) * Abs(z)
  {
    if c >= 0.0 && z >= 0.0 {
      ProductNonnegative(c, z);
    } else if c >= 0.0 {
      ProductNonnegative(c, -z);
      assert c * -z == -(c * z);
    } else if z >= 0.0 {
      ProductNonnegative(-c, z);
      assert -c * z == -(c * z);
    } else {
      ProductNonnegative(-c, -z);
      assert -c * -z == c * z;
    }
  }

  lemma ScaledAtMost(c: real, a: seq<real>, b: seq<real>)
    requires a != [] && b != []
    ensures W1(Scale(c, a), Scale(c, b)) <= Abs(c) * W1(a, b)
  {
    hide IsPlan, PlanCost, W1;
    W1IsLeastPlanCost(a, b);
    var P :| IsPlan(P, |a|, |b|) && PlanCost(P, a, b) == W1(a, b);
    ScaledCost(c, P, a, b);
    W1IsLeastPlanCost(Scale(c, a), Scale(c, b));
  }

  lemma ScaleBack(c: real, s: seq<real>)
    requires c != 0.0
    ensures Scale(1.0 / c, Scale(c, s)) == s
  {
    forall i | 0 <= i < |s| ensures Scale(1.0 / c, Scale(c, s))[i] == s[i] {
      Cancel(c, s[i]);
    }
  }

  lemma Cancel(c: real, x: real)
    requires c != 0.0
    ensures 1.0 / c * (c * x) == x
  {
    assert 1.0 / c * c == 1.0;
    assert 1.0 / c * (c * x) == (1.0 / c * c) * x;
  }

  /** Scaling both samples by c scales the distance by its absolute value. */
  lemma W1Scales(c: real, a: seq<real>, b: seq<real>)
    requires a != [] && b != []
    ensures W1(Scale(c, a), Scale(c, b)) == Abs(c) * W1(a, b)
  {
    hide W1, Scale;
    ScaledAtMost(c, a, b);
    if c == 0.0 {
      W1Zero(Scale(c, a), Scale(c, b));
    } else {
      ScaledAtMost(1.0 / c, Scale(c, a), Scale(c, b));
      ScaleBack(c, a);
      ScaleBack(c, b);
      InverseFactor(c, W1(Scale(c, a), Scale(c, b)), W1(a, b));
    }
  }

  lemma InverseFactor(c: real, w: real, v: real)
    requires c != 0.0 && v <= Abs(1.0 / c) * w && w <= Abs(c) * v
    ensures w == Abs(c) * v
  {
    AbsOfProduct(c, 1.0 / c);
    assert c * (1.0 / c) == 1.0;
    var k, l := Abs(c), Abs(1.0 / c);
    assert k * l == 1.0 && k > 0.0;
    ProductNonnegative(k, l * w - v);
    assert k * (l * w - v) == (k * l) * w - k * v;
  }
}
