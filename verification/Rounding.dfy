/** Python's `round(x, 6)` on exact reals: half-way cases go to the even digit. */
module Rounding {
  const SCALE := 1000000.0

  function RoundHalfEven(y: real): int {
    var f := y.Floor;
    var d := y - f as real;
    if d < 0.5 then f else if d > 0.5 then f + 1 else if f % 2 == 0 then f else f + 1
  }

  function Round6(x: real): real { RoundHalfEven(x * SCALE) as real / SCALE }

  /** `round(x, 4)` */
  function Round4(x: real): real { RoundHalfEven(x * 10000.0) as real / 10000.0 }

  /** Values with at most six decimals. */
  ghost predicate OnGrid(x: real) { exists k: int :: IsMicros(x, k) }

  predicate IsMicros(x: real, k: int) { x * SCALE == k as real }

  lemma RoundOnGrid(x: real)
    ensures OnGrid(Round6(x))
  {
    assert IsMicros(Round6(x), RoundHalfEven(x * SCALE));
  }

  lemma RoundKeepsGrid(x: real)
    requires OnGrid(x)
    ensures Round6(x) == x
  {
  }

  lemma RoundMonotone(x: real, y: real)
    requires x <= y
    ensures Round6(x) <= Round6(y)
  {
    HalfEvenMonotone(x * SCALE, y * SCALE);
  }

  lemma HalfEvenMonotone(x: real, y: real)
    requires x <= y
    ensures RoundHalfEven(x) <= RoundHalfEven(y)
  {
  }

  lemma UnitOnGrid()
    ensures OnGrid(0.0) && OnGrid(1.0)
  {
    assert IsMicros(0.0, 0) && IsMicros(1.0, 1000000);
  }

  /** The nearest integer, and between two the even one. */
  lemma HalfEvenIsNearest(y: real)
    ensures -0.5 <= RoundHalfEven(y) as real - y <= 0.5
    ensures y - y.Floor as real == 0.5 ==> RoundHalfEven(y) % 2 == 0
  {
  }

  lemma RoundIsNearest(x: real)
    ensures -0.0000005 <= Round6(x) - x <= 0.0000005
    ensures -0.00005 <= Round4(x) - x <= 0.00005
  {
    HalfEvenIsNearest(x * SCALE);
    HalfEvenIsNearest(x * 10000.0);
  }
}
