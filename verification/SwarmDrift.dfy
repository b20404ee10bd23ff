/**
  The agent-hop transition matrix of `evaluator/drift/swarm_drift.py`:
  conservation of flow at every agent, the matrix total, and the row
  normalisation used by `_matrix_entropy`.
*/
module SwarmDrift {
  import opened Basics
  import opened RealSums
  import opened Vocabulary

  /** The agents one execution trace visited, in order; empty when none were reported. */
  type Hops = seq<string>

  // ----- Specification --------------------------------------------------------

  /** How often `y` directly follows `x` in one trace. */
  function Steps(hops: Hops, x: string, y: string): nat {
    if |hops| < 2 then 0
    else Steps(hops[..|hops| - 1], x, y) + if hops[|hops| - 2] == x && hops[|hops| - 1] == y then 1 else 0
  }

  function Transitions(traces: seq<Hops>, x: string, y: string): nat {
    if traces == [] then 0 else Transitions(traces[..|traces| - 1], x, y) + Steps(traces[|traces| - 1], x, y)
  }

  function Starts(traces: seq<Hops>, x: string): nat {
    if traces == [] then 0
    else Starts(traces[..|traces| - 1], x) + StartsAt(traces[|traces| - 1], x)
  }

  function StartsAt(hops: Hops, x: string): nat { if hops != [] && hops[0] == x then 1 else 0 }

  function Ends(traces: seq<Hops>, x: string): nat {
    if traces == [] then 0
    else Ends(traces[..|traces| - 1], x) + EndsAt(traces[|traces| - 1], x)
  }

  function EndsAt(hops: Hops, x: string): nat { if hops != [] && hops[|hops| - 1] == x then 1 else 0 }

  /** Sum over the traces of max(0, len - 1). */
  function HopCount(traces: seq<Hops>): nat {
    if traces == [] then 0
    else HopCount(traces[..|traces| - 1]) + if traces[|traces| - 1] == [] then 0 else |traces[|traces| - 1]| - 1
  }

  function AllHops(traces: seq<Hops>): seq<string> {
    if traces == [] then [] else AllHops(traces[..|traces| - 1]) + traces[|traces| - 1]
  }

  ghost predicate Covers(agents: seq<string>, traces: seq<Hops>) {
    forall t :: 0 <= t < |traces| ==> CoversTrace(agents, traces[t])
  }

  ghost predicate CoversTrace(agents: seq<string>, hops: Hops) {
    forall h :: 0 <= h < |hops| ==> hops[h] in agents
  }

  function Name(agents: seq<string>, i: int): string { if 0 <= i < |agents| then agents[i] else "" }

  ghost function StepEntries(hops: Hops, agents: seq<string>): (int, int) -> real {
    (i, j) => Steps(hops, Name(agents, i), Name(agents, j)) as real
  }

  ghost function Entries(traces: seq<Hops>, agents: seq<string>): (int, int) -> real {
    (i, j) => Transitions(traces, Name(agents, i), Name(agents, j)) as real
  }

  // ----- The program ------------------------------------------------------------

  method TransitionMatrix(traces: seq<Hops>, agents: seq<string>) returns (matrix: array2<real>)
    requires AllDistinct(agents) && Covers(agents, traces)
    ensures fresh(matrix) && matrix.Length0 == matrix.Length1 == |agents|
    ensures forall i, j :: 0 <= i < |agents| && 0 <= j < |agents| ==> matrix[i, j] == Entries(traces, agents)(i, j)
    ensures forall i, j :: 0 <= i < |agents| && 0 <= j < |agents| ==>
              matrix[i, j] == Transitions(traces, agents[i], agents[j]) as real
  {
    var index := IndexOf(agents);
    matrix := new real[|agents|, |agents|]((i, j) => 0.0);
    for t := 0 to |traces|
      invariant forall i, j :: 0 <= i < |agents| && 0 <= j < |agents| ==>
                  matrix[i, j] == Entries(traces[..t], agents)(i, j)
    {
      assert traces[..t + 1][..t] == traces[..t];
      assert CoversTrace(agents, traces[t]);
      CountSteps(traces[t], agents, index, matrix, Entries(traces[..t], agents));
    }
    assert traces[..|traces|] == traces;
  }

  lemma NoSteps(first: Hops, agents: seq<string>)
    requires |first| < 2
    ensures forall i, j :: 0 <= i < |agents| && 0 <= j < |agents| ==> Steps(first, agents[i], agents[j]) == 0
  {
  }

  lemma OneStepMore(hops: Hops, k: nat, agents: seq<string>, source: nat, target: nat)
    requires AllDistinct(agents) && k + 1 < |hops| && source < |agents| && target < |agents|
    requires hops[k] == agents[source] && hops[k + 1] == agents[target]
    ensures forall i, j :: 0 <= i < |agents| && 0 <= j < |agents| ==>
              Steps(hops[..k + 2], agents[i], agents[j])
              == Steps(hops[..k + 1], agents[i], agents[j]) + if i == source && j == target then 1 else 0
  {
    assert hops[..k + 2][..k + 1] == hops[..k + 1];
    forall i, j | 0 <= i < |agents| && 0 <= j < |agents|
      ensures Steps(hops[..k + 2], agents[i], agents[j])
           == Steps(hops[..k + 1], agents[i], agents[j]) + if i == source && j == target then 1 else 0
    {
      assert agents[i] == agents[source] <==> i == source;
      assert agents[j] == agents[target] <==> j == target;
    }
  }

  /** `for source, target in zip(hops, hops[1:]): matrix[index[source], index[target]] += 1` */
  method CountSteps(hops: Hops, agents: seq<string>, index: map<string, nat>, matrix: array2<real>,
                    ghost before: (int, int) -> real)
    requires AllDistinct(agents) && CoversTrace(agents, hops)
    requires forall x :: x in index <==> x in agents
    requires forall x :: x in index ==> index[x] < |agents| && agents[index[x]] == x
    requires matrix.Length0 == matrix.Length1 == |agents|
    requires forall i, j :: 0 <= i < |agents| && 0 <= j < |agents| ==> matrix[i, j] == before(i, j)
    modifies matrix
    ensures forall i, j :: 0 <= i < |agents| && 0 <= j < |agents| ==>
              matrix[i, j] == before(i, j) + Steps(hops, agents[i], agents[j]) as real
  {
    hide Steps, AllDistinct;
    NoSteps(hops[..if 0 < |hops| then 1 else 0], agents);
    var k := 0;
    while k + 1 < |hops|
      invariant k <= |hops|
      invariant forall i, j :: 0 <= i < |agents| && 0 <= j < |agents| ==>
        matrix[i, j] == before(i, j) + Steps(hops[..if k < |hops| then k + 1 else k], agents[i], agents[j]) as real
    {
      var source, target := index[hops[k]], index[hops[k + 1]];
      OneStepMore(hops, k, agents, source, target);
      matrix[source, target] := matrix[source, target] + 1.0;
      k := k + 1;
    }
    assert hops[..|hops|] == hops;
  }

  /** The shared vocabulary of both windows, and the matrix of each: every lookup succeeds. */
  method SwarmMatrices(baseline: seq<Hops>, current: seq<Hops>)
    returns (agents: seq<string>, baselineMatrix: array2<real>, currentMatrix: array2<real>)
    ensures agents == Distinct(AllHops(baseline + current))
    ensures baselineMatrix.Length0 == baselineMatrix.Length1 == |agents|
    ensures currentMatrix.Length0 == currentMatrix.Length1 == |agents|
    ensures forall i, j :: 0 <= i < |agents| && 0 <= j < |agents| ==>
              && baselineMatrix[i, j] == Entries(baseline, agents)(i, j)
                                      == Transitions(baseline, agents[i], agents[j]) as real
              && currentMatrix[i, j] == Entries(current, agents)(i, j)
                                     == Transitions(current, agents[i], agents[j]) as real
  {
    var all := baseline + current;
    var seen: set<string> := {};
    agents := [];
    for t := 0 to |all|
      invariant agents == Distinct(AllHops(all[..t])) && seen == set x | x in agents
    {
      assert all[..t + 1][..t] == all[..t];
      agents, seen := AddNames(agents, seen, all[t], AllHops(all[..t]));
    }
    assert all[..|all|] == all;
    VocabularyCovers(all);
    forall t | 0 <= t < |baseline| ensures CoversTrace(agents, baseline[t]) { assert baseline[t] == all[t]; }
    forall t | 0 <= t < |current| ensures CoversTrace(agents, current[t]) {
      assert current[t] == all[|baseline| + t];
    }
    baselineMatrix := TransitionMatrix(baseline, agents);
    currentMatrix := TransitionMatrix(current, agents);
  }

  lemma {:induction false} HopsListed(traces: seq<Hops>, t: nat)
    requires t < |traces|
    ensures forall h :: 0 <= h < |traces[t]| ==> traces[t][h] in AllHops(traces)
  {
    var p := traces[..|traces| - 1];
    if t >= |p| {
    } else {
      HopsListed(p, t);
    }
  }

  /** Every hop is indexed. */
  lemma VocabularyCovers(traces: seq<Hops>)
    ensures Covers(Distinct(AllHops(traces)), traces)
  {
    DistinctKeepsAll(AllHops(traces));
    forall t | 0 <= t < |traces| ensures CoversTrace(Distinct(AllHops(traces)), traces[t]) {
      HopsListed(traces, t);
    }
  }

  // ----- Conservation -----------------------------------------------------------

  ghost function Indicator(agents: seq<string>, y: string): int -> real {
    j => if Name(agents, j) == y then 1.0 else 0.0
  }

  lemma OneMatch(agents: seq<string>, y: string)
    requires AllDistinct(agents) && y in agents
    ensures Sum(|agents|, Indicator(agents, y)) == 1.0
  {
    var k :| 0 <= k < |agents| && agents[k] == y;
    forall i | 0 <= i < |agents| && i != k ensures Indicator(agents, y)(i) == 0.0 {
      assert agents[i] != agents[k];
    }
    SumOfOne(|agents|, k, Indicator(agents, y));
  }

  /** Steps out of `x`, and into `x`, within one trace. */
  ghost function StepsFrom(hops: Hops, agents: seq<string>, x: string): int -> real {
    j => Steps(hops, x, Name(agents, j)) as real
  }

  ghost function StepsInto(hops: Hops, agents: seq<string>, x: string): int -> real {
    j => Steps(hops, Name(agents, j), x) as real
  }

  /** Along one trace: out - in = starts here - ends here, because the visits in between cancel. */
  lemma {:induction false} TraceBalance(hops: Hops, agents: seq<string>, x: string)
    requires AllDistinct(agents) && CoversTrace(agents, hops)
    ensures Sum(|agents|, StepsFrom(hops, agents, x)) - Sum(|agents|, StepsInto(hops, agents, x))
         == StartsAt(hops, x) as real - EndsAt(hops, x) as real
  {
    var n := |agents|;
    if |hops| < 2 {
      SumSame(n, StepsFrom(hops, agents, x), StepsInto(hops, agents, x));
    } else {
      var p, y, z := hops[..|hops| - 1], hops[|hops| - 2], hops[|hops| - 1];
      TraceBalance(p, agents, x);
      var zero := (j: int) => 0.0;
      SumAdd(n, zero, zero, zero);
      OneMatch(agents, y);
      OneMatch(agents, z);
      SumAdd(n, StepsFrom(p, agents, x), if y == x then Indicator(agents, z) else zero, StepsFrom(hops, agents, x));
      SumAdd(n, StepsInto(p, agents, x), if z == x then Indicator(agents, y) else zero, StepsInto(hops, agents, x));
    }
  }

  ghost function Outflow(traces: seq<Hops>, agents: seq<string>, x: string): int -> real {
    j => Transitions(traces, x, Name(agents, j)) as real
  }

  ghost function Inflow(traces: seq<Hops>, agents: seq<string>, x: string): int -> real {
    j => Transitions(traces, Name(agents, j), x) as real
  }

  /** Outgoing minus incoming transitions of an agent = traces starting there - traces ending there. */
  lemma {:induction false} FlowBalance(traces: seq<Hops>, agents: seq<string>, x: string)
    requires AllDistinct(agents) && Covers(agents, traces)
    ensures Sum(|agents|, Outflow(traces, agents, x)) - Sum(|agents|, Inflow(traces, agents, x))
         == Starts(traces, x) as real - Ends(traces, x) as real
  {
    var n := |agents|;
    if traces == [] {
      SumSame(n, Outflow(traces, agents, x), Inflow(traces, agents, x));
    } else {
      var p, last := traces[..|traces| - 1], traces[|traces| - 1];
      assert CoversTrace(agents, last);
      FlowBalance(p, agents, x);
      TraceBalance(last, agents, x);
      SumAdd(n, Outflow(p, agents, x), StepsFrom(last, agents, x), Outflow(traces, agents, x));
      SumAdd(n, Inflow(p, agents, x), StepsInto(last, agents, x), Inflow(traces, agents, x));
    }
  }

  ghost function Pulse(agents: seq<string>, y: string, z: string): (int, int) -> real {
    (i, j) => if Name(agents, i) == y && Name(agents, j) == z then 1.0 else 0.0
  }

  lemma OnePulse(agents: seq<string>, y: string, z: string)
    requires AllDistinct(agents) && y in agents && z in agents
    ensures Sum2(|agents|, |agents|, Pulse(agents, y, z)) == 1.0
  {
    var n, zero := |agents|, (j: int) => 0.0;
    SumAdd(n, zero, zero, zero);
    OneMatch(agents, z);
    forall i | 0 <= i < n ensures RowSums(n, Pulse(agents, y, z))(i) == Indicator(agents, y)(i) {
      SumSame(n, Row(Pulse(agents, y, z), i), if Name(agents, i) == y then Indicator(agents, z) else zero);
    }
    SumSame(n, RowSums(n, Pulse(agents, y, z)), Indicator(agents, y));
    OneMatch(agents, y);
  }

  lemma {:induction false} TraceTotal(hops: Hops, agents: seq<string>)
    requires AllDistinct(agents) && CoversTrace(agents, hops)
    ensures Sum2(|agents|, |agents|, StepEntries(hops, agents)) == if hops == [] then 0.0 else (|hops| - 1) as real
  {
    var n := |agents|;
    if |hops| < 2 {
      Sum2Add(n, n, StepEntries(hops, agents), StepEntries(hops, agents), StepEntries(hops, agents));
    } else {
      var p := hops[..|hops| - 1];
      TraceTotal(p, agents);
      var pulse := Pulse(agents, hops[|hops| - 2], hops[|hops| - 1]);
      OnePulse(agents, hops[|hops| - 2], hops[|hops| - 1]);
      Sum2Add(n, n, StepEntries(p, agents), pulse, StepEntries(hops, agents));
    }
  }

  /** The matrix total is the number of hops taken: no transition is lost or counted twice. */
  lemma {:induction false} MatrixTotal(traces: seq<Hops>, agents: seq<string>)
    requires AllDistinct(agents) && Covers(agents, traces)
    ensures Sum2(|agents|, |agents|, Entries(traces, agents)) == HopCount(traces) as real
  {
    var n := |agents|;
    if traces == [] {
      Sum2Add(n, n, Entries(traces, agents), Entries(traces, agents), Entries(traces, agents));
    } else {
      var p, last := traces[..|traces| - 1], traces[|traces| - 1];
      assert CoversTrace(agents, last);
      MatrixTotal(p, agents);
      TraceTotal(last, agents);
      Sum2Add(n, n, Entries(p, agents), StepEntries(last, agents), Entries(traces, agents));
    }
  }

  // ----- Row normalisation --------------------------------------------------------

  const CLIP := 0.000000000001

  function Clipped(x: real): real { if x < CLIP then CLIP else x }

  function Share(x: real, total: real): real { x / Clipped(total) }

  /** `matrix / np.clip(matrix.sum(axis=1), 1e-12, None)` */
  ghost function NormalizedRow(n: nat, M: (int, int) -> real, i: int): int -> real {
    j => Share(M(i, j), Sum(n, Row(M, i)))
  }

  /** A row with some transition becomes a probability vector; a row without stays zero. */
  lemma RowNormalises(traces: seq<Hops>, agents: seq<string>, i: nat)
    requires i < |agents|
    ensures var M := Entries(traces, agents);
            var total := Sum(|agents|, Row(M, i));
            if total == 0.0
            then forall j :: 0 <= j < |agents| ==> NormalizedRow(|agents|, M, i)(j) == 0.0
            else && Sum(|agents|, NormalizedRow(|agents|, M, i)) == 1.0
                 && forall j :: 0 <= j < |agents| ==> 0.0 <= NormalizedRow(|agents|, M, i)(j) <= 1.0
  {
    hide Sum, Share;
    var n, M := |agents|, Entries(traces, agents);
    var total := Sum(n, Row(M, i));
    var whole := CountsSumToWhole(n, Row(M, i), j => Transitions(traces, Name(agents, i), Name(agents, j)));
    SumNonnegative(n, Row(M, i));
    forall j | 0 <= j < n
      ensures total == 0.0 ==> NormalizedRow(n, M, i)(j) == 0.0
      ensures total != 0.0 ==> 0.0 <= NormalizedRow(n, M, i)(j) <= 1.0
    {
      assert Row(M, i)(j) <= total;
      ShareBounds(M(i, j), total);
    }
    if total != 0.0 {
      assert total >= 1.0;
      SharesSumToOne(n, Row(M, i), NormalizedRow(n, M, i));
    }
  }

  /** The probabilities are in proportion to the counts. */
  lemma SharesAreProportional(traces: seq<Hops>, agents: seq<string>, i: nat, j: nat)
    requires i < |agents| && j < |agents|
    ensures var M := Entries(traces, agents);
            var total := Sum(|agents|, Row(M, i));
            NormalizedRow(|agents|, M, i)(j) * total == M(i, j)
  {
    hide Sum, Share, Transitions;
    var M := Entries(traces, agents);
    var total := Sum(|agents|, Row(M, i));
    var whole := CountsSumToWhole(|agents|, Row(M, i), k => Transitions(traces, Name(agents, i), Name(agents, k)));
    assert 0.0 <= M(i, j) <= total by { EntryAtMostRow(|agents|, Row(M, i), j); }
    ProportionalShare(M, i, j, total);
  }

  lemma EntryAtMostRow(n: nat, row: int -> real, j: nat)
    requires j < n && forall k :: 0 <= k < n ==> 0.0 <= row(k)
    ensures 0.0 <= row(j) <= Sum(n, row)
  {
    SumNonnegative(n, row);
  }

  lemma ProportionalShare(M: (int, int) -> real, i: int, j: int, total: real)
    requires 0.0 <= M(i, j) <= total && (total == 0.0 || 1.0 <= total)
    ensures Share(M(i, j), total) * total == M(i, j)
  {
    ShareBounds(M(i, j), total);
  }

  lemma ShareBounds(x: real, total: real)
    requires 0.0 <= x <= total && (total == 0.0 || 1.0 <= total)
    ensures total == 0.0 ==> Share(x, total) == 0.0
    ensures 0.0 <= Share(x, total) <= 1.0
    ensures Share(x, total) * total == x
  {
  }

  lemma SharesSumToOne(n: nat, row: int -> real, shares: int -> real)
    requires 1.0 <= Sum(n, row)
    requires forall j :: 0 <= j < n ==> shares(j) == Share(row(j), Sum(n, row))
    ensures Sum(n, shares) == 1.0
  {
    hide Sum, Share;
    var total := Sum(n, row);
    var c := Share(1.0, total);
    forall j | 0 <= j < n ensures shares(j) == c * row(j) {
      ShareScales(row(j), total);
    }
    SumScale(n, c, row, shares);
    ShareScales(total, total);
  }

  lemma ShareScales(x: real, total: real)
    requires 1.0 <= total
    ensures Share(x, total) == Share(1.0, total) * x
    ensures Share(total, total) == 1.0
  {
  }

  // ----- What is counted ----------------------------------------------------------------------

  ghost predicate Follows(hops: Hops, k: int, x: string, y: string) {
    0 <= k < |hops| - 1 && hops[k] == x && hops[k + 1] == y
  }

  ghost function FollowCount(hops: Hops, x: string, y: string): nat {
    |set k | 0 <= k < |hops| && Follows(hops, k, x, y)|
  }

  lemma FollowCountSnoc(hops: Hops, x: string, y: string)
    requires |hops| >= 2
    ensures var n := |hops| - 1;
            FollowCount(hops, x, y) == FollowCount(hops[..n], x, y) + if hops[n - 1] == x && hops[n] == y then 1 else 0
  {
    var n := |hops| - 1;
    var q := hops[..n];
    forall k ensures Follows(q, k, x, y) <==> k < n - 1 && Follows(hops, k, x, y) {
      if 0 <= k < n - 1 { assert q[k] == hops[k] && q[k + 1] == hops[k + 1]; }
    }
    hide Follows;
    assert Follows(hops, n - 1, x, y) <==> hops[n - 1] == x && hops[n] == y by { LastFollows(hops, x, y); }
    assert !Follows(hops, n, x, y) by { NothingFollowsLast(hops, x, y); }
    assert (set k | 0 <= k < |hops| && Follows(hops, k, x, y))
        == (set k | 0 <= k < |q| && Follows(q, k, x, y)) + if Follows(hops, n - 1, x, y) then {n - 1} else {};
  }

  lemma LastFollows(hops: Hops, x: string, y: string)
    requires |hops| >= 2
    ensures Follows(hops, |hops| - 2, x, y) <==> hops[|hops| - 2] == x && hops[|hops| - 1] == y
  {
  }

  lemma NothingFollowsLast(hops: Hops, x: string, y: string)
    ensures !Follows(hops, |hops| - 1, x, y)
  {
  }

  /** Steps counts the positions at which y directly follows x. */
  lemma {:induction false} StepsAre(hops: Hops, x: string, y: string)
    ensures Steps(hops, x, y) == FollowCount(hops, x, y)
  {
    if |hops| < 2 {
      assert (set k | 0 <= k < |hops| && Follows(hops, k, x, y)) == {};
    } else {
      hide FollowCount;
      StepsAre(hops[..|hops| - 1], x, y);
      FollowCountSnoc(hops, x, y);
    }
  }

  ghost function FollowCounts(traces: seq<Hops>, x: string, y: string): int -> real {
    t => if 0 <= t < |traces| then FollowCount(traces[t], x, y) as real else 0.0
  }

  /** Over several traces the counts add up. */
  lemma {:induction false} TransitionsAre(traces: seq<Hops>, x: string, y: string)
    ensures Transitions(traces, x, y) as real == Sum(|traces|, FollowCounts(traces, x, y))
  {
    hide FollowCount;
    if traces == [] {
    } else {
      var n := |traces| - 1;
      TransitionsAre(traces[..n], x, y);
      StepsAre(traces[n], x, y);
      SumSame(n, FollowCounts(traces[..n], x, y), FollowCounts(traces, x, y));
    }
  }
}
