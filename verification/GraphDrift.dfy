/** `_pooled_graph` and `_graph_density` of `evaluator/drift/graph_drift.py`. */
module GraphDrift {
  import opened Basics
  import opened Laplacian
  import opened Options
  import opened RealSums
  import opened Vocabulary

  /** A node dict: its "id" rendered as a string if it has one, and the rendered dict itself. */
  datatype Node = Node(id: Option<string>, rendered: string)

  /** An edge dict with its possible endpoint keys, rendered as strings. */
  datatype Edge = Edge(source: Option<string>, target: Option<string>, from: Option<string>, to: Option<string>)

  datatype Payload = Payload(nodes: seq<Node>, edges: seq<Edge>)

  type Pair = (string, string)

  // ----- Specification --------------------------------------------------------

  function NodeId(node: Node): string {
    if node.id.Some? then node.id.value else node.rendered
  }

  /** `source` falls back to `from`, `target` to `to`, and a missing value prints as "None". */
  function Endpoints(edge: Edge): Pair {
    (FirstOf(edge.source, edge.from), FirstOf(edge.target, edge.to))
  }

  function FirstOf(a: Option<string>, b: Option<string>): string {
    if a.Some? then a.value else if b.Some? then b.value else "None"
  }

  predicate Kept(p: Pair) { p.0 != "" && p.1 != "" && p.0 != p.1 }

  function NodeIds(nodes: seq<Node>): seq<string> {
    seq(|nodes|, k requires 0 <= k < |nodes| => NodeId(nodes[k]))
  }

  function AllIds(payloads: seq<Payload>): seq<string> {
    if payloads == [] then [] else AllIds(payloads[..|payloads| - 1]) + NodeIds(payloads[|payloads| - 1].nodes)
  }

  function AllEdges(payloads: seq<Payload>): seq<Edge> {
    if payloads == [] then [] else AllEdges(payloads[..|payloads| - 1]) + payloads[|payloads| - 1].edges
  }

  function KeptPairs(edges: seq<Edge>): (pairs: set<Pair>)
    ensures forall p :: p in pairs ==> Kept(p)
  {
    if edges == [] then {}
    else
      var p := Endpoints(edges[|edges| - 1]);
      KeptPairs(edges[..|edges| - 1]) + if Kept(p) then {p} else {}
  }

  function PooledNodes(payloads: seq<Payload>): seq<string> { Distinct(AllIds(payloads)) }

  function PooledPairs(payloads: seq<Payload>): set<Pair> { KeptPairs(AllEdges(payloads)) }

  /** 1 exactly when the two nodes are joined in some direction. */
  function Joined(nodes: seq<string>, pairs: set<Pair>, i: int, j: int): real {
    if 0 <= i < |nodes| && 0 <= j < |nodes| && ((nodes[i], nodes[j]) in pairs || (nodes[j], nodes[i]) in pairs)
    then 1.0 else 0.0
  }

  ghost function Adjacency(payloads: seq<Payload>): Entries {
    (i, j) => Joined(PooledNodes(payloads), PooledPairs(payloads), i, j)
  }

  function Density(numNodes: nat, numEdges: nat): real {
    if numNodes < 2 then 0.0 else numEdges as real / (numNodes * (numNodes - 1)) as real
  }

  // ----- The program ------------------------------------------------------------

  method AddEdges(known: set<Pair>, more: seq<Edge>, ghost before: seq<Edge>) returns (pairs: set<Pair>)
    requires known == KeptPairs(before)
    ensures pairs == KeptPairs(before + more)
  {
    hide KeptPairs, Endpoints, Kept;
    pairs := known;
    assert before + more[..0] == before;
    for k := 0 to |more|
      invariant pairs == KeptPairs(before + more[..k])
    {
      var pair := Endpoints(more[k]);
      assert before + more[..k + 1] == (before + more[..k]) + [more[k]];
      KeptSnoc(before + more[..k], more[k]);
      if Kept(pair) {
        pairs := pairs + {pair};
      }
    }
    assert more[..|more|] == more;
  }

  lemma KeptSnoc(edges: seq<Edge>, edge: Edge)
    ensures KeptPairs(edges + [edge]) == KeptPairs(edges) + if Kept(Endpoints(edge)) then {Endpoints(edge)} else {}
  {
  }

  method PooledGraph(payloads: seq<Payload>) returns (numNodes: nat, numEdges: nat, adjacency: array2<real>)
    ensures numNodes == |PooledNodes(payloads)| && numEdges == |PooledPairs(payloads)|
    ensures fresh(adjacency) && adjacency.Length0 == adjacency.Length1 == numNodes
    ensures forall i, j :: 0 <= i < numNodes && 0 <= j < numNodes ==>
              adjacency[i, j] == Adjacency(payloads)(i, j)
  {
    var nodes: seq<string>, pairs: set<Pair>, seen: set<string> := [], {}, {};
    for p := 0 to |payloads|
      invariant nodes == PooledNodes(payloads[..p]) && seen == set x | x in nodes
      invariant pairs == PooledPairs(payloads[..p])
    {
      assert payloads[..p + 1][..p] == payloads[..p];
      nodes, seen := AddNames(nodes, seen, NodeIds(payloads[p].nodes), AllIds(payloads[..p]));
      pairs := AddEdges(pairs, payloads[p].edges, AllEdges(payloads[..p]));
    }
    assert payloads[..|payloads|] == payloads;
    numNodes, numEdges := |nodes|, |pairs|;
    adjacency := JoinPairs(nodes, pairs);
  }

  method JoinPairs(nodes: seq<string>, pairs: set<Pair>) returns (adjacency: array2<real>)
    requires AllDistinct(nodes)
    ensures fresh(adjacency) && adjacency.Length0 == adjacency.Length1 == |nodes|
    ensures forall i, j :: 0 <= i < |nodes| && 0 <= j < |nodes| ==> adjacency[i, j] == Joined(nodes, pairs, i, j)
  {
    hide Joined;
    var index := IndexOf(nodes);
    NothingJoined(nodes);
    adjacency := new real[|nodes|, |nodes|]((i, j) => 0.0);
    var remaining, done := pairs, {};
    while remaining != {}
      invariant done + remaining == pairs
      invariant forall i, j :: 0 <= i < |nodes| && 0 <= j < |nodes| ==> adjacency[i, j] == Joined(nodes, done, i, j)
      decreases remaining
    {
      var pair :| pair in remaining;
      if pair.0 in index && pair.1 in index {
        var source, target := index[pair.0], index[pair.1];
        JoinedStep(nodes, done, source, target);
        adjacency[source, target] := 1.0;
        adjacency[target, source] := 1.0;
      } else {
        DanglingStep(nodes, done, pair);
      }
      remaining, done := remaining - {pair}, done + {pair};
    }
  }

  lemma NothingJoined(nodes: seq<string>)
    ensures forall i, j :: Joined(nodes, {}, i, j) == 0.0
  {
  }

  lemma JoinedStep(nodes: seq<string>, done: set<Pair>, source: nat, target: nat)
    requires AllDistinct(nodes)
    requires source < |nodes| && target < |nodes|
    ensures forall i, j :: Joined(nodes, done + {(nodes[source], nodes[target])}, i, j)
                        == if (i == source && j == target) || (i == target && j == source) then 1.0
                           else Joined(nodes, done, i, j)
  {
  }

  lemma DanglingStep(nodes: seq<string>, done: set<Pair>, pair: Pair)
    requires pair.0 !in nodes || pair.1 !in nodes
    ensures forall i, j :: Joined(nodes, done + {pair}, i, j) == Joined(nodes, done, i, j)
  {
  }

  // ----- Properties ---------------------------------------------------------------

  /** The pooled adjacency is symmetric, 0/1 and hollow. */
  lemma AdjacencyShape(payloads: seq<Payload>, i: int, j: int)
    ensures Adjacency(payloads)(i, j) == Adjacency(payloads)(j, i)
    ensures Adjacency(payloads)(i, j) in {0.0, 1.0}
    ensures Adjacency(payloads)(i, i) == 0.0
  {
  }

  lemma PooledShape(payloads: seq<Payload>)
    ensures Symmetric(|PooledNodes(payloads)|, Adjacency(payloads))
    ensures Nonnegative(|PooledNodes(payloads)|, Adjacency(payloads))
  {
    hide PooledNodes, PooledPairs;
    forall i, j ensures Adjacency(payloads)(i, j) == Adjacency(payloads)(j, i) && 0.0 <= Adjacency(payloads)(i, j) {
      AdjacencyShape(payloads, i, j);
    }
  }

  /** Every eigenvalue of the matrix that the program makes of a pooled graph lies in [0, 2]. */
  lemma PooledSpectrum(payloads: seq<Payload>, s: Coords, lambda: real, x: Coords)
    requires |PooledNodes(payloads)| >= 2 ==> InverseRoots(|PooledNodes(payloads)|, Adjacency(payloads), s)
    requires Eigenpair(|PooledNodes(payloads)|, LaplacianEntries(|PooledNodes(payloads)|, Adjacency(payloads), s),
        lambda, x)
    ensures 0.0 <= lambda <= 2.0 && (|PooledNodes(payloads)| == 1 ==> lambda == 0.0)
  {
    hide PooledNodes, Adjacency, InverseRoots, Eigenpair;
    PooledShape(payloads);
    SpectrumOfProgram(|PooledNodes(payloads)|, Adjacency(payloads), s, lambda, x);
  }

  /** A degree of a pooled graph is a whole number. */
  lemma DegreeIsCount(payloads: seq<Payload>, i: int) returns (degree: nat)
    ensures Degree(|PooledNodes(payloads)|, Adjacency(payloads), i) == degree as real
  {
    hide PooledNodes, PooledPairs;
    degree := CountsSumToWhole(|PooledNodes(payloads)|, Row(Adjacency(payloads), i),
                               j => if Adjacency(payloads)(i, j) == 1.0 then 1 else 0);
  }

  ghost predicate ExactAt(sqrt: real -> real, k: nat) { IsRoot(k as real, sqrt(k as real)) }

  /** Pooling and normalising together, with a square root that is exact on whole numbers: all
      eigenvalues of the resulting matrix lie in [0, 2]. */
  method PooledLaplacian(payloads: seq<Payload>, sqrt: real -> real) returns (l: array2<real>, ghost s: Coords)
    requires forall k: nat :: k > 0 ==> ExactAt(sqrt, k)
    ensures l.Length0 == l.Length1 == |PooledNodes(payloads)|
    ensures forall lambda, x :: Eigenpair(l.Length0, EntriesOf(Rows(l)), lambda, x) ==> 0.0 <= lambda <= 2.0
    ensures l.Length0 >= 2 ==> InverseRoots(l.Length0, Adjacency(payloads), s)
    ensures l.Length0 >= 2 ==> IsLaplacianOf(l.Length0, EntriesOf(Rows(l)), Adjacency(payloads), s)
    ensures l.Length0 == 1 ==> l[0, 0] == 0.0
  {
    hide PooledNodes, Eigenpair, InverseRoots, IsRoot, LaplacianEntries, Adjacency, IsLaplacianOf;
    var n, numEdges, adjacency := PooledGraph(payloads);
    ghost var A := EntriesOf(Rows(adjacency));
    RootsExact(payloads, A, sqrt);
    l, s := NormalizedLaplacian(adjacency, sqrt);
    ShapeOfSame(payloads, A);
    if n >= 2 {
      LaplacianOfSame(payloads, EntriesOf(Rows(l)), A, s);
    }
    forall lambda, x | Eigenpair(n, EntriesOf(Rows(l)), lambda, x) ensures 0.0 <= lambda <= 2.0 {
      EigenpairSame(n, EntriesOf(Rows(l)), LaplacianEntries(n, A, s), lambda, x);
      ShapeOfSame(payloads, A);
      SpectrumOfProgram(n, A, s, lambda, x);
    }
  }

  lemma LaplacianOfSame(payloads: seq<Payload>, L: Entries, A: Entries, s: Coords)
    requires var n := |PooledNodes(payloads)|;
             && n >= 2 && InverseRoots(n, A, s)
             && (forall i, j :: 0 <= i < n && 0 <= j < n ==> A(i, j) == Adjacency(payloads)(i, j))
             && (forall i, j :: 0 <= i < n && 0 <= j < n ==> L(i, j) == LaplacianEntries(n, A, s)(i, j))
    ensures InverseRoots(|PooledNodes(payloads)|, Adjacency(payloads), s)
    ensures IsLaplacianOf(|PooledNodes(payloads)|, L, Adjacency(payloads), s)
  {
    hide PooledNodes, Adjacency, InverseRoot, IsLaplacianOf, Sum, NormalizedEntry;
    var n, B := |PooledNodes(payloads)|, Adjacency(payloads);
    forall i | 0 <= i < n ensures InverseRoot(Degree(n, B, i), s(i)) {
      SumSame(n, Row(A, i), Row(B, i));
      assert InverseRoot(Degree(n, A, i), s(i));
    }
    PooledShape(payloads);
    EntriesAreLaplacian(n, L, B, s);
  }

  lemma ShapeOfSame(payloads: seq<Payload>, A: Entries)
    requires var n := |PooledNodes(payloads)|;
             forall i, j :: 0 <= i < n && 0 <= j < n ==> A(i, j) == Adjacency(payloads)(i, j)
    ensures Symmetric(|PooledNodes(payloads)|, A) && Nonnegative(|PooledNodes(payloads)|, A)
  {
    hide PooledNodes, Adjacency;
    PooledShape(payloads);
  }

  lemma RootsExact(payloads: seq<Payload>, A: Entries, sqrt: real -> real)
    requires forall k: nat :: k > 0 ==> ExactAt(sqrt, k)
    requires var n := |PooledNodes(payloads)|;
             forall i, j :: 0 <= i < n && 0 <= j < n ==> A(i, j) == Adjacency(payloads)(i, j)
    ensures var n := |PooledNodes(payloads)|;
            forall d :: 0.0 < d && (exists i :: 0 <= i < n && d == Degree(n, A, i)) ==> IsRoot(d, sqrt(d))
  {
    hide PooledNodes, Adjacency, IsRoot;
    var n := |PooledNodes(payloads)|;
    forall d | 0.0 < d && (exists i :: 0 <= i < n && d == Degree(n, A, i)) ensures IsRoot(d, sqrt(d)) {
      var i :| 0 <= i < n && d == Degree(n, A, i);
      SumSame(n, Row(A, i), Row(Adjacency(payloads), i));
      var k := DegreeIsCount(payloads, i);
      assert k > 0 && ExactAt(sqrt, k);
    }
  }

  lemma {:induction false} PairsFrom(x: string, others: set<string>)
    ensures |set y | y in others :: (x, y)| == |others|
  {
    var image := set y | y in others :: (x, y);
    if others == {} {
      assert image == {};
    } else {
      var y :| y in others;
      PairsFrom(x, others - {y});
      assert image == (set z | z in others - {y} :: (x, z)) + {(x, y)};
    }
  }

  /** The ordered pairs of different names, with the first one from `sources`. */
  function PairsOf(sources: set<string>, ids: set<string>): set<Pair> {
    set x, y | x in sources && y in ids && x != y :: (x, y)
  }

  lemma InPairsOf(sources: set<string>, ids: set<string>)
    ensures forall p: Pair :: p in PairsOf(sources, ids) <==> p.0 in sources && p.1 in ids && p.0 != p.1
  {
  }

  lemma OneSourceMore(x: string, sources: set<string>, ids: set<string>)
    requires x in sources && sources <= ids
    ensures |PairsOf(sources, ids)| == |PairsOf(sources - {x}, ids)| + |ids| - 1
  {
    hide PairsOf;
    var mine, rest := set y | y in ids - {x} :: (x, y), PairsOf(sources - {x}, ids);
    InPairsOf(sources, ids);
    InPairsOf(sources - {x}, ids);
    PairsFrom(x, ids - {x});
    forall p: Pair ensures p in PairsOf(sources, ids) <==> p in mine || p in rest {
      assert p == (p.0, p.1);
    }
    assert PairsOf(sources, ids) == mine + rest && mine !! rest;
  }

  lemma {:induction false} CountPairs(sources: set<string>, ids: set<string>)
    requires sources <= ids
    ensures |PairsOf(sources, ids)| == |sources| * (|ids| - 1)
  {
    if sources == {} {
      assert PairsOf(sources, ids) == {};
    } else {
      var x :| x in sources;
      hide PairsOf;
      CountPairs(sources - {x}, ids);
      OneSourceMore(x, sources, ids);
      OneRowLess(|sources|, |ids| - 1);
    }
  }

  lemma OneRowLess(m: int, k: int)
    ensures (m - 1) * k + k == m * k
  {
  }

  /** The kept edges with an endpoint that no payload lists as a node. */
  function Dangling(payloads: seq<Payload>): set<Pair> {
    set p | p in PooledPairs(payloads) && (p.0 !in PooledNodes(payloads) || p.1 !in PooledNodes(payloads))
  }

  /** The ordered pairs of listed nodes that no kept edge joins. */
  function Unused(payloads: seq<Payload>): set<Pair> {
    var ids := set x | x in PooledNodes(payloads);
    PairsOf(ids, ids) - PooledPairs(payloads)
  }

  /** The density is at most 1 exactly when the dangling edges are no more than the unused
      pairs; in particular whenever every kept edge joins two listed nodes. */
  lemma DensityAtMostOneIff(payloads: seq<Payload>)
    requires |PooledNodes(payloads)| >= 2
    ensures 0.0 <= Density(|PooledNodes(payloads)|, |PooledPairs(payloads)|)
    ensures Density(|PooledNodes(payloads)|, |PooledPairs(payloads)|) <= 1.0
            <==> |Dangling(payloads)| <= |Unused(payloads)|
  {
    hide Distinct, KeptPairs, Density, PairsOf;
    var nodes, pairs := PooledNodes(payloads), PooledPairs(payloads);
    var ids := set x | x in nodes;
    var all := PairsOf(ids, ids);
    DistinctSize(nodes);
    CountPairs(ids, ids);
    InPairsOf(ids, ids);
    SplitByOther(pairs, all);
    assert Dangling(payloads) == pairs - all;
    DensityBound(|nodes|, |pairs|);
  }

  /** In particular when every kept edge joins two listed nodes. */
  lemma DensityAtMostOne(payloads: seq<Payload>)
    requires Dangling(payloads) == {}
    ensures 0.0 <= Density(|PooledNodes(payloads)|, |PooledPairs(payloads)|) <= 1.0
  {
    hide PooledNodes, PooledPairs, Dangling, Unused;
    if |PooledNodes(payloads)| >= 2 {
      DensityAtMostOneIff(payloads);
    }
  }

  lemma SplitByOther(a: set<Pair>, b: set<Pair>)
    ensures |a| == |a * b| + |a - b| && |b| == |a * b| + |b - a|
  {
  }

  lemma DensityBound(n: nat, e: nat)
    requires n >= 2
    ensures 0.0 <= Density(n, e) && (Density(n, e) <= 1.0 <==> e <= n * (n - 1))
  {
    PositiveProduct(n, n - 1);
    RatioAtMostOne(e, n * (n - 1));
  }

  lemma PositiveProduct(m: int, k: int)
    requires 0 < m && 0 < k
    ensures 0 < m * k
  {
  }

  lemma RatioAtMostOne(e: int, d: int)
    requires 0 <= e && 0 < d
    ensures 0.0 <= e as real / d as real && (e as real / d as real <= 1.0 <==> e <= d)
  {
  }

  lemma NothingPooled()
    ensures Distinct([]) == [] && KeptPairs([]) == {}
  {
  }

  function Named(x: string): Node { Node(Some(x), "") }

  function Link(x: string, y: string): Edge { Edge(Some(x), Some(y), None, None) }

  lemma TwoNodes(x: string, y: string)
    requires x != y
    ensures |Distinct([x] + [y])| == 2
  {
    hide Distinct;
    NothingPooled();
    DistinctSnoc([], x);
    DistinctSnoc([x], y);
    assert [] + [x] == [x];
  }

  lemma ThreePairs(x: string, y: string, z: string)
    requires "" !in {x, y, z} && x != y && y != z && x != z
    ensures |KeptPairs([Link(x, y)] + [Link(y, x)] + [Link(x, z)])| == 3
  {
    hide KeptPairs;
    NothingPooled();
    KeptSnoc([], Link(x, y));
    KeptSnoc([Link(x, y)], Link(y, x));
    KeptSnoc([Link(x, y)] + [Link(y, x)], Link(x, z));
    assert [] + [Link(x, y)] == [Link(x, y)];
    assert KeptPairs([Link(x, y)] + [Link(y, x)] + [Link(x, z)]) == {(x, y), (y, x), (x, z)};
  }

  /** So it can exceed 1: edges to an unlisted node `z` are still counted. */
  lemma DensityAboveOne(x: string, y: string, z: string)
    requires "" !in {x, y, z} && x != y && y != z && x != z
    ensures var graph := Payload([Named(x)] + [Named(y)], [Link(x, y)] + [Link(y, x)] + [Link(x, z)]);
            Density(|PooledNodes([graph])|, |PooledPairs([graph])|) == 1.5
  {
    hide Distinct, KeptPairs, Link;
    var graph := Payload([Named(x)] + [Named(y)], [Link(x, y)] + [Link(y, x)] + [Link(x, z)]);
    assert [graph][..0] == [] && AllIds([graph]) == [x] + [y] && AllEdges([graph]) == graph.edges;
    TwoNodes(x, y);
    ThreePairs(x, y, z);
  }

  // ----- What is pooled -----------------------------------------------------------------------

  /** An endpoint is read from the first key, from the second one if that is missing, and as "None" if both are. */
  ghost predicate EndsAt(first: Option<string>, second: Option<string>, x: string) {
    || first == Some(x)
    || (first == None && second == Some(x))
    || (first == None && second == None && x == "None")
  }

  ghost predicate Runs(edge: Edge, x: string, y: string) {
    EndsAt(edge.source, edge.from, x) && EndsAt(edge.target, edge.to, y)
  }

  /** A node goes by its id, or by its rendering if it has none. */
  ghost predicate GoesBy(node: Node, x: string) { node.id == Some(x) || (node.id == None && node.rendered == x) }

  ghost predicate HasNode(payload: Payload, x: string) {
    exists k :: 0 <= k < |payload.nodes| && GoesBy(payload.nodes[k], x)
  }

  ghost predicate HasEdge(payload: Payload, x: string, y: string) {
    exists k :: 0 <= k < |payload.edges| && Runs(payload.edges[k], x, y)
  }

  lemma {:induction false} KeptPairsAre(edges: seq<Edge>, x: string, y: string)
    ensures (x, y) in KeptPairs(edges)
            <==> x != "" && y != "" && x != y && exists k :: 0 <= k < |edges| && Runs(edges[k], x, y)
  {
    if edges == [] {
    } else {
      var n := |edges| - 1;
      KeptPairsAre(edges[..n], x, y);
      assert Endpoints(edges[n]) == (x, y) <==> Runs(edges[n], x, y);
      assert forall k :: 0 <= k < n ==> edges[..n][k] == edges[k];
    }
  }

  lemma {:induction false} AllEdgesAre(payloads: seq<Payload>, edge: Edge)
    ensures edge in AllEdges(payloads) <==> exists p :: 0 <= p < |payloads| && edge in payloads[p].edges
  {
    if payloads == [] {
    } else {
      var n := |payloads| - 1;
      AllEdgesAre(payloads[..n], edge);
      assert forall p :: 0 <= p < n ==> payloads[..n][p] == payloads[p];
    }
  }

  /** The pooled edges are the pairs of different, non-empty names that some edge of some payload joins. */
  lemma PooledPairsAre(payloads: seq<Payload>, x: string, y: string)
    ensures (x, y) in PooledPairs(payloads)
            <==> x != "" && y != "" && x != y && exists p :: 0 <= p < |payloads| && HasEdge(payloads[p], x, y)
  {
    hide KeptPairs, Runs;
    var edges := AllEdges(payloads);
    KeptPairsAre(edges, x, y);
    if k :| 0 <= k < |edges| && Runs(edges[k], x, y) {
      AllEdgesAre(payloads, edges[k]);
      var p :| 0 <= p < |payloads| && edges[k] in payloads[p].edges;
      assert HasEdge(payloads[p], x, y);
    }
    if p :| 0 <= p < |payloads| && HasEdge(payloads[p], x, y) {
      var k :| 0 <= k < |payloads[p].edges| && Runs(payloads[p].edges[k], x, y);
      AllEdgesAre(payloads, payloads[p].edges[k]);
      var l :| 0 <= l < |edges| && edges[l] == payloads[p].edges[k];
      assert Runs(edges[l], x, y);
    }
  }

  lemma {:induction false} AllIdsAre(payloads: seq<Payload>, x: string)
    ensures x in AllIds(payloads) <==> exists p :: 0 <= p < |payloads| && HasNode(payloads[p], x)
  {
    hide HasNode;
    if payloads == [] {
    } else {
      var n := |payloads| - 1;
      AllIdsAre(payloads[..n], x);
      NodeIdsAre(payloads[n], x);
      assert forall p :: 0 <= p < n ==> payloads[..n][p] == payloads[p];
    }
  }

  lemma NodeIdsAre(payload: Payload, x: string)
    ensures x in NodeIds(payload.nodes) <==> HasNode(payload, x)
  {
    forall k | 0 <= k < |payload.nodes| ensures NodeId(payload.nodes[k]) == x <==> GoesBy(payload.nodes[k], x) {}
    if x in NodeIds(payload.nodes) {
      var k :| 0 <= k < |payload.nodes| && NodeIds(payload.nodes)[k] == x;
      assert GoesBy(payload.nodes[k], x);
    }
    if k :| 0 <= k < |payload.nodes| && GoesBy(payload.nodes[k], x) {
      assert NodeIds(payload.nodes)[k] == x;
    }
  }

  /** The pooled nodes are the names that some node of some payload goes by, each once. */
  lemma PooledNodesAre(payloads: seq<Payload>, x: string)
    ensures x in PooledNodes(payloads) <==> exists p :: 0 <= p < |payloads| && HasNode(payloads[p], x)
    ensures AllDistinct(PooledNodes(payloads))
  {
    hide Distinct, HasNode;
    AllIdsAre(payloads, x);
    DistinctKeepsAll(AllIds(payloads));
  }

  /** Cell (i, j) is 1 exactly when the two names differ, are not empty, and an edge joins them either way. */
  lemma AdjacencyIs(payloads: seq<Payload>, i: nat, j: nat)
    requires i < |PooledNodes(payloads)| && j < |PooledNodes(payloads)|
    ensures var x, y := PooledNodes(payloads)[i], PooledNodes(payloads)[j];
            Adjacency(payloads)(i, j) == 1.0
            <==> x != "" && y != "" && x != y
                 && exists p :: 0 <= p < |payloads| && (HasEdge(payloads[p], x, y) || HasEdge(payloads[p], y, x))
  {
    hide PooledNodes, PooledPairs, HasEdge;
    PooledPairsAre(payloads, PooledNodes(payloads)[i], PooledNodes(payloads)[j]);
    PooledPairsAre(payloads, PooledNodes(payloads)[j], PooledNodes(payloads)[i]);
  }

  /** Density times the number of ordered pairs is the number of edges; fewer than two nodes have density 0. */
  lemma DensityIs(n: nat, e: nat)
    ensures n < 2 ==> Density(n, e) == 0.0
    ensures n >= 2 ==> Density(n, e) * (n as real * (n - 1) as real) == e as real
  {
    if n >= 2 {
      PositiveProduct(n, n - 1);
      assert (n * (n - 1)) as real == n as real * (n - 1) as real;
    }
  }
}
