/** `evaluator/causal/fusion.py`: drift scores raise the failure priors of causal nodes. */
module CausalFusion {
  import opened Basics
  import opened Options
  import opened Rounding

  datatype LatentDriftResult = LatentDriftResult(driftScore: real, track: string, breakdown: map<string, real>)

  datatype NodeState = NodeState(id: string, nodeType: string, prior: real)

  class CausalNode {
    const id: string
    const nodeType: string
    var prior: real

    constructor (id: string, nodeType: string, prior: real)
      ensures Now() == NodeState(id, nodeType, prior)
    {
      this.id, this.nodeType, this.prior := id, nodeType, prior;
    }

    function Now(): NodeState
      reads this
    {
      NodeState(id, nodeType, prior)
    }
  }

  function StatesOf(nodes: seq<CausalNode>): (r: seq<NodeState>)
    reads nodes
    ensures |r| == |nodes| && forall i :: 0 <= i < |r| ==> r[i] == nodes[i].Now()
  {
    seq(|nodes|, i requires 0 <= i < |nodes| reads nodes => nodes[i].Now())
  }

  // ----- Specification --------------------------------------------------------

  function FailureProb(score: real, sensitivity: real): real {
    var p := score * sensitivity;
    var low := if p < 0.0 then 0.0 else p;
    if low < 1.0 then low else 1.0
  }

  /** The breakdown if there is one, else the single score of the result's track. */
  function TrackScores(r: LatentDriftResult): map<string, real> {
    if r.breakdown != map[] then r.breakdown else map[r.track := r.driftScore]
  }

  function Raised(prior: real, prob: real): real { if prob > prior then Round6(prob) else prior }

  function FusedPrior(n: NodeState, scores: map<string, real>, sensitivity: real): real {
    if n.nodeType in scores then Raised(n.prior, FailureProb(scores[n.nodeType], sensitivity)) else n.prior
  }

  function Fused(nodes: seq<NodeState>, scores: map<string, real>, sensitivity: real): (r: seq<NodeState>)
    ensures |r| == |nodes|
  {
    seq(|nodes|, i requires 0 <= i < |nodes| => nodes[i].(prior := FusedPrior(nodes[i], scores, sensitivity)))
  }

  function DualScores(retrieval: Option<LatentDriftResult>, generation: Option<LatentDriftResult>): map<string, real> {
    (if retrieval.Some? then map["retrieval" := retrieval.value.driftScore] else map[])
    + (if generation.Some? then map["generation" := generation.value.driftScore] else map[])
  }

  // ----- The program ------------------------------------------------------------

  method CopyNodes(nodes: seq<CausalNode>) returns (copies: seq<CausalNode>)
    ensures AllDistinct(copies) && StatesOf(copies) == StatesOf(nodes)
    ensures forall i :: 0 <= i < |copies| ==> fresh(copies[i])
  {
    copies := [];
    for k := 0 to |nodes|
      invariant |copies| == k && AllDistinct(copies)
      invariant forall i :: 0 <= i < k ==> fresh(copies[i]) && copies[i].Now() == nodes[i].Now()
    {
      var copy := new CausalNode(nodes[k].id, nodes[k].nodeType, nodes[k].prior);
      copies := copies + [copy];
    }
  }

  /** `for node in nodes_by_type.get(track, []): if prob > prior: prior = round(prob, 6)` */
  method RaiseTrack(nodes: seq<CausalNode>, track: string, prob: real)
    requires AllDistinct(nodes)
    modifies nodes
    ensures forall i :: 0 <= i < |nodes| ==>
              nodes[i].prior == if nodes[i].nodeType == track then Raised(old(nodes[i].prior), prob)
                                else old(nodes[i].prior)
  {
    for k := 0 to |nodes|
      invariant forall i :: k <= i < |nodes| ==> nodes[i].prior == old(nodes[i].prior)
      invariant forall i :: 0 <= i < k ==>
        nodes[i].prior == if nodes[i].nodeType == track then Raised(old(nodes[i].prior), prob) else old(nodes[i].prior)
    {
      if nodes[k].nodeType == track && prob > nodes[k].prior {
        nodes[k].prior := Round6(prob);
      }
    }
  }

  /** The tracks of a result, in whatever order the dict yields them. */
  method FuseDriftIntoCausalGraph(result: LatentDriftResult, nodes: seq<CausalNode>, sensitivity: real)
    returns (updated: seq<CausalNode>)
    ensures AllDistinct(updated) && StatesOf(updated) == Fused(StatesOf(nodes), TrackScores(result), sensitivity)
    ensures forall i :: 0 <= i < |updated| ==> fresh(updated[i])
  {
    hide Round6, FailureProb;
    updated := CopyNodes(nodes);
    ghost var before := StatesOf(nodes);
    var scores := TrackScores(result);
    var todo := scores.Keys;
    while todo != {}
      invariant todo <= scores.Keys
      invariant forall i :: 0 <= i < |updated| ==>
        updated[i].nodeType == before[i].nodeType && updated[i].id == before[i].id
      invariant forall i :: 0 <= i < |updated| ==>
        updated[i].prior == if updated[i].nodeType in todo then before[i].prior
                            else FusedPrior(before[i], scores, sensitivity)
      decreases todo
    {
      var track :| track in todo;
      RaiseTrack(updated, track, FailureProb(scores[track], sensitivity));
      todo := todo - {track};
    }
  }

  method FuseDualTrack(retrieval: Option<LatentDriftResult>, generation: Option<LatentDriftResult>,
                       nodes: seq<CausalNode>, sensitivity: real)
    returns (updated: seq<CausalNode>)
    ensures AllDistinct(updated)
        && StatesOf(updated) == Fused(StatesOf(nodes), DualScores(retrieval, generation), sensitivity)
    ensures forall i :: 0 <= i < |updated| ==> fresh(updated[i])
  {
    hide Round6, FailureProb, Raised, DualScores, FusedPrior;
    updated := CopyNodes(nodes);
    forall i | 0 <= i < |nodes| {
      DualPrior(nodes[i].Now(), retrieval, generation, sensitivity);
    }
    if retrieval.Some? {
      RaiseTrack(updated, "retrieval", FailureProb(retrieval.value.driftScore, sensitivity));
    }
    if generation.Some? {
      RaiseTrack(updated, "generation", FailureProb(generation.value.driftScore, sensitivity));
    }
  }

  function RaisedOn(prior: real, node: string, track: string, score: real, sensitivity: real): real {
    if node == track then Raised(prior, FailureProb(score, sensitivity)) else prior
  }

  lemma DualPrior(n: NodeState, retrieval: Option<LatentDriftResult>, generation: Option<LatentDriftResult>,
      sensitivity: real)
    ensures var p := if retrieval.Some?
                     then RaisedOn(n.prior, n.nodeType, "retrieval", retrieval.value.driftScore, sensitivity)
                     else n.prior;
            FusedPrior(n, DualScores(retrieval, generation), sensitivity)
            == if generation.Some?
                then RaisedOn(p, n.nodeType, "generation", generation.value.driftScore, sensitivity) else p
  {
    hide Raised, FailureProb;
    TracksDiffer();
  }

  lemma TracksDiffer()
    ensures "retrieval" != "generation"
  {
  }

  // ----- Fusing is a maximum ----------------------------------------------------------

  function Max(x: real, y: real): real { if x < y then y else x }

  ghost predicate GoodPrior(x: real) { 0.0 <= x <= 1.0 && OnGrid(x) }

  /** On the six-decimal grid, raising a prior is taking the larger of it and the rounded probability. */
  lemma RaisedIsMax(prior: real, prob: real)
    requires OnGrid(prior)
    ensures Raised(prior, prob) == Max(prior, Round6(prob)) && OnGrid(Raised(prior, prob))
  {
    hide OnGrid, Round6;
    RoundKeepsGrid(prior);
    RoundOnGrid(prob);
    if prob > prior {
      RoundMonotone(prior, prob);
    } else {
      RoundMonotone(prob, prior);
    }
  }

  /** How far a value lies above the last grid point, in units of the sixth decimal. */
  function Excess(x: real): real { x * SCALE - (x * SCALE).Floor as real }

  /** A prior that no probability can make fall is one on the grid, or at least half way to the
      next grid point; any other prior falls when a slightly larger probability arrives. */
  lemma PriorNeverFallsIff(prior: real)
    requires 0.0 <= prior <= 1.0
    ensures (forall prob :: 0.0 <= prob <= 1.0 ==> prior <= Raised(prior, prob))
            <==> Excess(prior) == 0.0 || Excess(prior) >= 0.5
  {
    hide Raised;
    if Excess(prior) == 0.0 || Excess(prior) >= 0.5 {
      forall prob | 0.0 <= prob <= 1.0 ensures prior <= Raised(prior, prob) {
        RoundUpKeeps(prior, prob);
      }
    } else {
      var prob := JustAbove(prior);
      assert prior > Raised(prior, prob);
    }
  }

  lemma RoundUpKeeps(prior: real, prob: real)
    requires Excess(prior) == 0.0 || Excess(prior) >= 0.5
    ensures prior <= Raised(prior, prob)
  {
    if prob > prior {
      assert (prior * SCALE).Floor <= (prob * SCALE).Floor;
    }
  }

  lemma JustAbove(prior: real) returns (prob: real)
    requires 0.0 <= prior <= 1.0 && 0.0 < Excess(prior) < 0.5
    ensures 0.0 <= prob <= 1.0 && Raised(prior, prob) < prior
  {
    var k := (prior * SCALE).Floor;
    prob := (prior + (k as real + 0.5) / SCALE) / 2.0;
    assert k < 1000000;
    assert k as real < prob * SCALE < k as real + 0.5;
    assert (prob * SCALE).Floor == k;
    assert Round6(prob) == k as real / SCALE;
  }

  /** For instance, 0.1234564 meets 0.12345645 and becomes 0.123456. */
  lemma OffGridPriorCanFall()
    ensures Raised(0.1234564, 0.12345645) == 0.123456
  {
  }

  /** What one result asks of nodes of a type, already rounded. */
  function Contribution(r: LatentDriftResult, nodeType: string, sensitivity: real): Option<real> {
    if nodeType in TrackScores(r) then Some(Round6(FailureProb(TrackScores(r)[nodeType], sensitivity))) else None
  }

  lemma ContributionGood(r: LatentDriftResult, nodeType: string, sensitivity: real)
    ensures Contribution(r, nodeType, sensitivity).Some? ==> GoodPrior(Contribution(r, nodeType, sensitivity).value)
  {
    hide OnGrid, Round6;
    if nodeType in TrackScores(r) {
      var p := FailureProb(TrackScores(r)[nodeType], sensitivity);
      RoundOnGrid(p);
      UnitOnGrid();
      RoundKeepsGrid(0.0);
      RoundKeepsGrid(1.0);
      RoundMonotone(0.0, p);
      RoundMonotone(p, 1.0);
    }
  }

  /** A node after a list of results, one fusion after the other. */
  function FusedAll(n: NodeState, results: seq<LatentDriftResult>, sensitivity: real): NodeState {
    if results == [] then n
    else
      var earlier := FusedAll(n, results[..|results| - 1], sensitivity);
      earlier.(prior := FusedPrior(earlier, TrackScores(results[|results| - 1]), sensitivity))
  }

  ghost predicate Asked(results: seq<LatentDriftResult>, nodeType: string, sensitivity: real, x: real) {
    exists r :: r in results && Contribution(r, nodeType, sensitivity) == Some(x)
  }

  /** The final prior is the least value that is at least the initial one and at
      least everything the results ask for; so priors never fall and stay in [0, 1]. */
  lemma {:induction false} FusedAllIsSupremum(n: NodeState, results: seq<LatentDriftResult>, sensitivity: real)
    requires GoodPrior(n.prior)
    ensures var f := FusedAll(n, results, sensitivity);
            && f == n.(prior := f.prior) && GoodPrior(f.prior) && n.prior <= f.prior
            && (forall r :: r in results && Contribution(r, n.nodeType, sensitivity).Some? ==>
                  Contribution(r, n.nodeType, sensitivity).value <= f.prior)
            && (f.prior == n.prior || Asked(results, n.nodeType, sensitivity, f.prior))
  {
    hide OnGrid, Round6, FailureProb, TrackScores;
    if results == [] {
    } else {
      var earlier, last := results[..|results| - 1], results[|results| - 1];
      assert results == earlier + [last];
      FusedAllIsSupremum(n, earlier, sensitivity);
      var before := FusedAll(n, earlier, sensitivity);
      ContributionGood(last, n.nodeType, sensitivity);
      if n.nodeType in TrackScores(last) {
        RaisedIsMax(before.prior, FailureProb(TrackScores(last)[n.nodeType], sensitivity));
      }
      var f := FusedAll(n, results, sensitivity);
      if f.prior != n.prior {
        if f.prior == before.prior {
          var r :| r in earlier && Contribution(r, n.nodeType, sensitivity) == Some(f.prior);
          assert r in results;
        } else {
          assert last in results && Contribution(last, n.nodeType, sensitivity) == Some(f.prior);
        }
      }
    }
  }

  /** Any order and any repetition of the same results gives the same node. */
  lemma OrderAndRepetitionIrrelevant(n: NodeState, xs: seq<LatentDriftResult>, ys: seq<LatentDriftResult>,
      sensitivity: real)
    requires GoodPrior(n.prior) && forall r :: r in xs <==> r in ys
    ensures FusedAll(n, xs, sensitivity) == FusedAll(n, ys, sensitivity)
  {
    hide GoodPrior, Contribution, FusedAll;
    FusedAllIsSupremum(n, xs, sensitivity);
    FusedAllIsSupremum(n, ys, sensitivity);
  }

  /** The graph after a list of results, one fusion after the other. */
  function FusedInTurn(nodes: seq<NodeState>, results: seq<LatentDriftResult>, sensitivity: real): (r: seq<NodeState>)
    ensures |r| == |nodes|
  {
    if results == [] then nodes
    else Fused(FusedInTurn(nodes, results[..|results| - 1], sensitivity), TrackScores(results[|results| - 1]),
        sensitivity)
  }

  /** Whole graphs behave node by node, so the two laws above carry over to them. */
  lemma {:induction false} FusedInTurnNodewise(nodes: seq<NodeState>, results: seq<LatentDriftResult>,
      sensitivity: real, i: nat)
    requires i < |nodes|
    ensures FusedInTurn(nodes, results, sensitivity)[i] == FusedAll(nodes[i], results, sensitivity)
  {
    hide FusedPrior, TrackScores;
    if results == [] {
    } else {
      FusedInTurnNodewise(nodes, results[..|results| - 1], sensitivity, i);
    }
  }

  /** `fuse_dual_track` agrees with fusing one result whose breakdown has the given tracks, and
      with fusing the two results one after the other, in either order. */
  lemma DualTrackIsBreakdown(nodes: seq<NodeState>, retrieval: Option<LatentDriftResult>,
      generation: Option<LatentDriftResult>,
                             sensitivity: real, score: real, track: string)
    ensures var both := DualScores(retrieval, generation);
            if both == map[] then Fused(nodes, both, sensitivity) == nodes
            else
              var single := LatentDriftResult(score, track, both);
              Fused(nodes, both, sensitivity) == Fused(nodes, TrackScores(single), sensitivity)
    ensures var r, g := DualScores(retrieval, None), DualScores(None, generation);
            && Fused(nodes, DualScores(retrieval, generation), sensitivity)
                == Fused(Fused(nodes, r, sensitivity), g, sensitivity)
            && Fused(nodes, DualScores(retrieval, generation), sensitivity)
                == Fused(Fused(nodes, g, sensitivity), r, sensitivity)
  {
  }

  // ----- Scores and tracks ------------------------------------------------------------------------

  /** The probability is the score times the sensitivity, held in [0, 1]. */
  lemma FailureProbIs(score: real, sensitivity: real)
    ensures var x, p := score * sensitivity, FailureProb(score, sensitivity);
            (0.0 <= x <= 1.0 ==> p == x) && (x < 0.0 ==> p == 0.0) && (1.0 < x ==> p == 1.0)
  {
  }

  /** A result without a breakdown speaks of its own track only, with its score; one with a breakdown of the
      breakdown's tracks, and its own score counts for nothing. */
  lemma TracksOf(r: LatentDriftResult, track: string)
    ensures r.breakdown == map[] ==>
              (track in TrackScores(r) <==> track == r.track) && TrackScores(r)[r.track] == r.driftScore
    ensures r.breakdown != map[] ==>
              (track in TrackScores(r) <==> track in r.breakdown)
              && (track in r.breakdown ==> TrackScores(r)[track] == r.breakdown[track])
  {
  }

  /** A node after one result: its prior is at least the rounded probability of its own type's track, is one of
      the two, and stays if there is no such track. Nothing else of the node changes. */
  lemma FusedNodeIs(nodes: seq<NodeState>, r: LatentDriftResult, sensitivity: real, i: nat)
    requires i < |nodes| && GoodPrior(nodes[i].prior)
    ensures var n, f := nodes[i], Fused(nodes, TrackScores(r), sensitivity)[i];
            && f == n.(prior := f.prior)
            && (n.nodeType !in TrackScores(r) ==> f.prior == n.prior)
            && (n.nodeType in TrackScores(r) ==>
                  f.prior == Max(n.prior, Round6(FailureProb(TrackScores(r)[n.nodeType], sensitivity))))
  {
    hide Round6, FailureProb, OnGrid, TrackScores;
    if nodes[i].nodeType in TrackScores(r) {
      RaisedIsMax(nodes[i].prior, FailureProb(TrackScores(r)[nodes[i].nodeType], sensitivity));
    }
  }

  /** Of the two results, retrieval nodes follow the first and generation nodes the second; others stay. */
  lemma DualNodeIs(n: NodeState, retrieval: Option<LatentDriftResult>, generation: Option<LatentDriftResult>,
      sensitivity: real)
    requires GoodPrior(n.prior)
    ensures var p := FusedPrior(n, DualScores(retrieval, generation), sensitivity);
            && (n.nodeType == "retrieval" && retrieval.Some? ==>
                  p == Max(n.prior, Round6(FailureProb(retrieval.value.driftScore, sensitivity))))
            && (n.nodeType == "generation" && generation.Some? ==>
                  p == Max(n.prior, Round6(FailureProb(generation.value.driftScore, sensitivity))))
            && (!(n.nodeType == "retrieval" && retrieval.Some?) && !(n.nodeType == "generation" && generation.Some?) ==>
                  p == n.prior)
  {
    hide Round6, FailureProb, OnGrid, Raised;
    TracksDiffer();
    if retrieval.Some? { RaisedIsMax(n.prior, FailureProb(retrieval.value.driftScore, sensitivity)); }
    if generation.Some? { RaisedIsMax(n.prior, FailureProb(generation.value.driftScore, sensitivity)); }
  }
}
