# A Dafny model of the drift engine's algorithms and protocols

The system watches a RAG pipeline for drift: it compares embedding windows, pools retrieval
graphs and agent traces, keeps a history of evaluation runs, explains shifts by system changes,
simulates "what if that change had not happened", and runs guarded optimisation actions. Telemetry
reaches it through two ingestion buffers and a rate-limited API. This project models the algorithms
and state machines at the centre of that system and proves what they keep, conserve and promise.

How the model is organised:

- One module per source file or component. Where the source loops or updates state, there is an
  imperative method or class, proved equal to a specification function; the laws are lemmas about
  those functions, or about whole runs of steps.
- Floating-point numbers are exact reals (only `round` to six and to four decimals is modelled as rounding). Stable sorts
  are a stable insertion sort. Random directions, square roots, clocks, database outcomes and detector
  scores are parameters.
- The two ingestion buffers and the drift monitor are step protocols: control changes hands only at
  awaits, at server commands, or at a crash, and the theorems hold for every interleaving.

Modules: `Wasserstein`, `WassersteinLaws`, `Transport`, `TransportPlan`, `SlicedWasserstein` (distance);
`Laplacian`, `GraphDrift`, `SwarmDrift` (structure drift); `History`, `ChangeExtractor`, `Simulator`, `SimulatorLaws`,
`RemovalOrder`, `Estimator`, `EstimatorLaws` (counterfactuals); `DriftDetection`, `CausalFusion`, `Rounding`,
`DriftMonitor` (events, priors, thresholds); `RedisStream`, `RedisLoss`, `RedisStop`, `RedisLiveness`, `RedisBuffer`,
`IngestionQueue` (ingestion); `Guardrails`, `OptimizationRunner`, `RateLimit` (control). `Sorting`, `RealSums`,
`Vocabulary`, `Basics` and `Options` are shared.

Where the code does not do what its documentation or a reader would expect, the model follows the code:

- `ingestion/redis_queue.py:20-28` promises at-least-once delivery without frame loss. Frames are lost in two
  ways: those appended before the consumer group exists are never delivered, even in a run without any failure
  (`RedisLoss.EarlyFrameIsLost`), and workers read only new entries, so a frame of a failed store, of a lost reply,
  or in the hands of a worker that dies before its store succeeded is never looked at again
  (`RedisStream.FailedStoreLosesFrame`, `RedisStream.AbandonedForever`). These are all: once everything is delivered
  and no batch is in hand, every frame is in the database if and only if no frame came before the group and no
  step of the run dropped one (`RedisLoss.NoFrameLossIff`). Entries staying pending is a different matter, since a
  worker that dies between its store and its acknowledgement leaves persisted ones behind; that happens exactly
  when a step drops delivered entries of any kind (`RedisStream.NothingPendingIffNoDrop`).
- `ingestion/redis_queue.py:207` promises to drain remaining messages on stop. The stop flag is tested between
  reads, so at most the read in flight at the call still delivers (`RedisStop.AtMostTheReadInFlight`), and, with
  no other worker reading, none of the waiting entries stays undelivered exactly when there were none, or that read
  was executed and they fitted into its batch (`RedisStop.StopDrainsIff`, with `RedisStop.StopLeavesBacklog` as an instance that fails).
- `evaluator/counterfactual/simulator.py:44-47` says a removal restores the pre-change values. As the extractor
  compares, with null and absent equal, it does so exactly when `system_info` is restorable
  (`SimulatorLaws.InfoRestorable`, `SimulatorLaws.RevertUndoesChange`); a `system_info` that is new in a run is never
  removed again (`RemovalOrder.AddedInfoInstance`). To the letter it restores version and metadata exactly under the
  condition of `RemovalOrder.RevertRestoresIff`: a key that is new in a run stays behind as null
  (`RemovalOrder.AddedKeyStaysAsNull`).
- Two removals commute, while reverts restore `system_info`, if and only if they are not neighbours
  (`RemovalOrder.RemovalsCommuteIff`). In general neighbours commute exactly under the condition of
  `RemovalOrder.NeighboursCommuteIff`; `RemovalOrder.AddedInfoNeighboursCommute` is a family that does.
- No scenario can move the counterfactual metric it is evaluated with, because interventions touch only
  versions and metadata and the estimator reads only times and metrics (`SimulatorLaws.ScenarioKeepsEstimate`).
- A blocked action enters the history without a timestamp and counts as age zero forever. With a positive
  cooldown its signature is never approved later, and once a target's stamped actions have expired, the flapping rule
  lets another one through if and only if its unstamped ones are fewer than the maximum
  (`OptimizationRunner.TargetReopensIff`): blocked attempts never expire.
- Two different actions can share a cooldown signature as soon as some part of one holds a colon.
- Waiting as long as `Retry-After` says is not always enough (`RateLimit.RetryAfterTooShort`); one more second always is.
- Graph density can exceed 1, because edges to unlisted nodes are counted.
- Fusing never lowers a prior only if the prior is on the six-decimal grid or at least halfway to the next grid point.
- A dynamic evaluation that lacks a threshold falls back to the static field, not to an earlier static
  calibration (`DriftMonitor.CalibrationForgotten`), and the per-component KL threshold it installs has no influence on the verdict.
- `evaluator/latent_drift/distance.py:164-165` speaks of the trapezoidal rule on unique values; the code takes
  the left-endpoint sum over all values, which is the exact integral of a step function.

## Model

| member | source | states |
|---|---|---|
| Wasserstein.SearchSortedRight | evaluator/latent_drift/distance.py:161-162 | the insertion point splits a sorted array into the values at or below the probe and those above it |
| Wasserstein.SortInPlace | evaluator/latent_drift/distance.py:158 | the array ends as the sorted arrangement of its old contents |
| Wasserstein.CdfOnGrid | evaluator/latent_drift/distance.py:161-162 | searching the sorted sample gives, at each grid point, the share of samples at or below it |
| Wasserstein.CdfGaps | evaluator/latent_drift/distance.py:161-167 | the pointwise absolute difference of the two empirical CDFs |
| Wasserstein.SumDeltas | evaluator/latent_drift/distance.py:166-169 | the loop over grid steps is the left-endpoint sum of the step function |
| Wasserstein.Wasserstein1D | evaluator/latent_drift/distance.py:137-169 | the program computes W1: the CDF gap integrated over the merged samples |
| Wasserstein.CountBySearch | evaluator/latent_drift/distance.py:161-162 | binary-search positions in the sorted sample count the samples of the unsorted one |
| Wasserstein.SweepRefine | evaluator/latent_drift/distance.py:156-169 | adding any points to a grid that holds all samples leaves the sweep unchanged |
| Wasserstein.AnyGridGivesW1 | evaluator/latent_drift/distance.py:156-169 | every ascending grid that holds all samples gives the same distance |
| WassersteinLaws.W1Symmetric | evaluator/latent_drift/distance.py:137-169 | the distance is symmetric, for samples of any sizes |
| WassersteinLaws.W1Triangle | evaluator/latent_drift/distance.py:137-169 | the triangle inequality, for samples of any three sizes |
| WassersteinLaws.W1Zero | evaluator/latent_drift/distance.py:137-169 | non-negative, and zero if and only if the two empirical distributions agree everywhere |
| WassersteinLaws.W1TranslationInvariant | evaluator/latent_drift/distance.py:137-169 | moving both samples by the same amount changes nothing |
| WassersteinLaws.W1OfPermutations | evaluator/latent_drift/distance.py:150-158 | the order in which samples are listed is irrelevant |
| WassersteinLaws.CountGapAtMostCrossing | evaluator/latent_drift/distance.py:161-167 | at every level, the difference in counts is at most the number of pairs that straddle it |
| WassersteinLaws.SortedCrossing | evaluator/latent_drift/distance.py:150-167 | for sorted samples of equal size the two numbers are equal, because nothing cancels |
| WassersteinLaws.W1IsCheapestPairing | evaluator/latent_drift/distance.py:138-169 | for equal sizes, n times the distance is the cost of sorted matching, and no pairing of the samples costs less: the earth mover's distance |
| WassersteinLaws.W1IsSortedMatching | evaluator/latent_drift/distance.py:150-169 | for equal sizes, the sweep equals (1/n) times the sum of the gaps between sorted samples |
| WassersteinLaws.W1ZeroEqualSizes | evaluator/latent_drift/distance.py:150-169 | for equal sizes, zero distance if and only if the samples agree as multisets |
| WassersteinLaws.W1OfShift | evaluator/latent_drift/distance.py:150-169 | a sample moved by t is at distance exactly the absolute value of t |
| Transport.W1OfParts | evaluator/latent_drift/distance.py:137-169 | cutting every sample into equal parts changes no distance |
| Transport.W1IsCheapestMatching | evaluator/latent_drift/distance.py:138-169 | for samples of any sizes, matching equal parts in sorted order costs the distance times the number of parts, and no other matching costs less |
| Transport.GapCrosses | evaluator/latent_drift/distance.py:161-167 | whatever the transport plan, at every level at least the CDF gap has to cross |
| Transport.SweepOfPlan | evaluator/latent_drift/distance.py:166-169 | summing a plan and integrating over the levels can be exchanged |
| Transport.NoPlanIsCheaper | evaluator/latent_drift/distance.py:138-169 | no transport plan between two samples of any sizes, however it splits the mass, costs less than the sweep |
| TransportPlan.SortedPartsAre | evaluator/latent_drift/distance.py:150-158 | sorting equal parts that remember their sample keeps every sample's number of parts, and their values come out sorted |
| TransportPlan.CheapestIsPlan | evaluator/latent_drift/distance.py:150-169 | sending one part along every match of the sorted parts is a transport plan |
| TransportPlan.W1IsLeastPlanCost | evaluator/latent_drift/distance.py:138-169 | for samples of any sizes some transport plan costs exactly the sweep, and none costs less: the earth mover's distance |
| SlicedWasserstein.ComputeSwd | evaluator/latent_drift/distance.py:172-213 | a dimension mismatch is reported; otherwise the number of directions times the result is the sum, over the directions, of the one-dimensional distances of the projections, each a sum of products of coordinates |
| SlicedWasserstein.SwdSymmetric | evaluator/latent_drift/distance.py:205-213 | symmetry survives the average over directions |
| SlicedWasserstein.SwdTriangle | evaluator/latent_drift/distance.py:205-213 | so does the triangle inequality |
| SlicedWasserstein.SwdUnderTranslation | evaluator/latent_drift/distance.py:205-213 | moving both point clouds by one vector changes nothing; moving one by t costs exactly the mean of the projections of t |
| SlicedWasserstein.SwdZero | evaluator/latent_drift/distance.py:205-213 | non-negative, and zero exactly when every direction sees equal projected distributions |
| SlicedWasserstein.DotIsSum | evaluator/latent_drift/distance.py:208-209 | a projection is the sum of the products of the coordinates |
| SlicedWasserstein.SwdOnAxis | evaluator/latent_drift/distance.py:205-213 | with the k-th axis as the only direction, the result is the one-dimensional distance of the k-th coordinates |
| SlicedWasserstein.SwdAlongScaled | evaluator/latent_drift/distance.py:205-213 | scaling every direction by c scales the result by the absolute value of c |
| SlicedWasserstein.DotAlongSum | evaluator/latent_drift/distance.py:208-209 | projecting is additive in the direction |
| TransportPlan.W1Scales | evaluator/latent_drift/distance.py:137-169 | scaling both samples by c scales the one-dimensional distance by the absolute value of c, negative c included |
| Laplacian.RowDegree | evaluator/drift/graph_drift.py:93 | the row sum is the node's degree |
| Laplacian.FillInverseRoots | evaluator/drift/graph_drift.py:93-96 | each entry is the inverse root of a positive degree, and 0 for an isolated node |
| Laplacian.NormalizedLaplacian | evaluator/drift/graph_drift.py:87-97 | for two nodes or more the returned array itself is the Laplacian of the symmetric weights: it is symmetric, twice its quadratic form at any x is the sum of a(i,j)(y_i - y_j)^2 plus twice the squares of the isolated coordinates, where y is x over the root degrees, and the root degrees are in its kernel; a single node gives 0 |
| Laplacian.LaplacianForms | evaluator/drift/graph_drift.py:93-97 | the quadratic forms of L and of 2I - L are sums of squares over the edges, plus the squares of the isolated coordinates |
| Laplacian.LaplacianBounds | evaluator/drift/graph_drift.py:93-97 | 0 <= x'Lx <= 2x'x for every vector x |
| Laplacian.SpectrumInZeroTwo | evaluator/drift/graph_drift.py:93-97 | every eigenvalue lies in [0, 2] |
| Laplacian.SpectrumOfProgram | evaluator/drift/graph_drift.py:87-97 | the same for the matrix the program returns, with eigenvalue 0 on a single node |
| Laplacian.RootDegreesInKernel | evaluator/drift/graph_drift.py:93-97 | the square roots of the degrees are in the kernel, and nonzero at every non-isolated node, so 0 is attained |
| GraphDrift.AddEdges | evaluator/drift/graph_drift.py:72-75 | the edge set grows by exactly the edges with two different, non-empty endpoints |
| GraphDrift.PooledGraph | evaluator/drift/graph_drift.py:55-84 | node count, edge count and adjacency of the merged payloads, with nodes in order of first appearance |
| GraphDrift.JoinPairs | evaluator/drift/graph_drift.py:77-82 | a cell is 1 exactly when an edge joins the two listed nodes in some direction, whatever order the set yields |
| GraphDrift.AdjacencyShape | evaluator/drift/graph_drift.py:77-82 | every pooled adjacency is symmetric, 0/1 and hollow |
| GraphDrift.PooledPairsAre | evaluator/drift/graph_drift.py:39-75 | a pair is pooled exactly when some edge of some payload joins two different, non-empty names, source and target each falling back to from and to |
| GraphDrift.PooledNodesAre | evaluator/drift/graph_drift.py:63-71 | the pooled nodes are the names that some node of some payload goes by, each once |
| GraphDrift.AdjacencyIs | evaluator/drift/graph_drift.py:39-82 | cell (i, j) is 1 exactly when the two names differ, are not empty, and an edge of some payload joins them either way |
| GraphDrift.PooledSpectrum | evaluator/drift/graph_drift.py:55-97 | every eigenvalue of the matrix the program makes of a pooled graph lies in [0, 2], and is 0 on a single node |
| GraphDrift.PooledLaplacian | evaluator/drift/graph_drift.py:100-106 | pooling and normalising composed: the resulting array has that quadratic form and kernel with respect to the pooled adjacency, all its eigenvalues lie in [0, 2], and a single node gives 0 |
| GraphDrift.CountPairs | evaluator/drift/graph_drift.py:52 | the denominator counts the ordered pairs of different nodes |
| GraphDrift.DensityIs | evaluator/drift/graph_drift.py:49-52 | density times the number of ordered pairs is the number of edges; with fewer than two nodes it is 0 |
| GraphDrift.DensityAtMostOneIff | evaluator/drift/graph_drift.py:49-84 | the density is at most 1 if and only if edges to unlisted nodes are no more than the unused pairs of listed nodes |
| GraphDrift.DensityAtMostOne | evaluator/drift/graph_drift.py:49-84 | in particular when no edge dangles |
| GraphDrift.DensityAboveOne | evaluator/drift/graph_drift.py:49-84 | two listed nodes with an edge to a third, unlisted one have density 1.5 |
| Vocabulary.Distinct | evaluator/drift/swarm_drift.py:79-85 | the vocabulary never repeats a name |
| Vocabulary.DistinctKeepsAll | evaluator/drift/swarm_drift.py:79-85 | it has exactly the names that occur |
| Vocabulary.AddNames | evaluator/drift/swarm_drift.py:81-85 | one more payload extends the list in order of first appearance, with the seen-set in step |
| Vocabulary.IndexOf | evaluator/drift/swarm_drift.py:42 | the index dict is the inverse of the list |
| SwarmDrift.CountSteps | evaluator/drift/swarm_drift.py:44-46 | one trace adds, in each cell, how often the target directly follows the source |
| SwarmDrift.TransitionMatrix | evaluator/drift/swarm_drift.py:40-47 | each cell is the number of positions, over all traces, at which its target directly follows its source |
| SwarmDrift.SwarmMatrices | evaluator/drift/swarm_drift.py:79-88 | both windows share one vocabulary, no lookup fails, and each matrix holds the direct successions of its own window |
| SwarmDrift.StepsAre | evaluator/drift/swarm_drift.py:44-46 | what one trace contributes to a cell is the number of positions at which the target directly follows the source |
| SwarmDrift.TransitionsAre | evaluator/drift/swarm_drift.py:43-46 | over several traces these numbers add up |
| SwarmDrift.VocabularyCovers | evaluator/drift/swarm_drift.py:79-88 | every hop is indexed |
| SwarmDrift.TraceBalance | evaluator/drift/swarm_drift.py:44-46 | along one trace, steps out of an agent minus steps into it = starts there minus ends there |
| SwarmDrift.FlowBalance | evaluator/drift/swarm_drift.py:40-47 | the same over any set of traces: flow is conserved at every agent |
| SwarmDrift.MatrixTotal | evaluator/drift/swarm_drift.py:40-47 | the matrix total is the sum of max(0, length - 1) over the traces |
| SwarmDrift.RowNormalises | evaluator/drift/swarm_drift.py:50-55 | a row with transitions becomes a probability vector, a row without stays zero, despite the clip |
| SwarmDrift.SharesAreProportional | evaluator/drift/swarm_drift.py:50-52 | each probability times the row total is the count |
| History.DeepCopy | evaluator/storage/in_memory_store.py:31-34 | new records with equal contents; two positions share a copy exactly when they shared a record |
| History.InMemoryHistoryStore.constructor | evaluator/storage/in_memory_store.py:31-34 | the store shares no record with its argument and keeps its internal sharing |
| History.InMemoryHistoryStore.Append | evaluator/storage/in_memory_store.py:40-42 | contents grow by a copy of the record, which is held nowhere else |
| History.InMemoryHistoryStore.Clone | evaluator/storage/in_memory_store.py:44-51 | equal contents, no record shared with the original: changes to the clone never show there |
| History.SortRecords | evaluator/causal/change_extractor.py:24 | the same record objects, in stable time order, a missing time counting as 0 |
| ChangeExtractor.DiffFieldsLoop | evaluator/causal/change_extractor.py:104-108 | lists exactly the keys whose values differ when a missing key reads as null |
| ChangeExtractor.DiffSignatures | evaluator/causal/change_extractor.py:59-123 | the branches build the event of the two signatures, with its type by precedence and its details by part |
| ChangeExtractor.ExtractChangeEvents | evaluator/causal/change_extractor.py:8-39 | the events between consecutive records of the time-ordered history, in order |
| ChangeExtractor.DiffIffNotEquivalent | evaluator/causal/change_extractor.py:59-123 | an event is reported if and only if the signatures differ, absent and null being equal |
| ChangeExtractor.EventIffDifferent | evaluator/causal/change_extractor.py:42-123 | in terms of the records: an event is reported if and only if the versions differ or some metadata key does, absent and null being equal |
| ChangeExtractor.EventTypeMeans | evaluator/causal/change_extractor.py:66-123 | exactly when each of the four change types is reported, and the run, time and id of the event |
| ChangeExtractor.EventDetailsMean | evaluator/causal/change_extractor.py:69-112 | which parts the details have and what they hold: the earlier and later value of the version, the pipeline name and every other key that differs |
| ChangeExtractor.InfoDetailsMean | evaluator/causal/change_extractor.py:85-100 | between two dicts, the fields of system_info that differ, with earlier and later values |
| ChangeExtractor.DiffOfEquivalent | evaluator/causal/change_extractor.py:59-123 | equivalent predecessors give the same event with the same details |
| ChangeExtractor.EventsAre | evaluator/causal/change_extractor.py:29-39 | the events of a history are exactly those of its consecutive pairs, one for each pair that differs |
| ChangeExtractor.EventsInOrder | evaluator/causal/change_extractor.py:24-39 | they come in time order |
| Simulator.FirstRun | evaluator/counterfactual/simulator.py:82-88 | the first record of the run, if there is one |
| Simulator.WriteOlds | evaluator/counterfactual/simulator.py:105-110 | writes every recorded old value and nothing else |
| Simulator.RevertChange | evaluator/counterfactual/simulator.py:94-110 | the reverted record; fails exactly when fields must be written into a system_info that is no dict |
| Simulator.ApplyModify | evaluator/counterfactual/simulator.py:113-116 | every override is set, every other key keeps its value, no key is dropped, and everything but the metadata is unchanged |
| Simulator.ScanForChange | evaluator/counterfactual/simulator.py:73-77 | the first event with the id, and none exactly when no event has it |
| Simulator.SortedClone | evaluator/counterfactual/simulator.py:64-66 | new records in time order, the store untouched |
| Simulator.ChangeFirst | evaluator/counterfactual/simulator.py:82-88 | only the first record of the run is changed |
| Simulator.Change | evaluator/counterfactual/simulator.py:83-87 | remove reverts, modify overrides, any other action leaves the record alone |
| Simulator.ApplyIntervention | evaluator/counterfactual/simulator.py:34-91 | the result is a fresh store with exactly the specified contents, or the failure; nothing that existed before is modified |
| Simulator.ApplyScenario | evaluator/counterfactual/simulator.py:119-132 | interventions compose in order on clones, the original store is only read |
| SimulatorLaws.ExtractedIsRevertible | evaluator/counterfactual/simulator.py:102-106 | reverting a record with its own extracted change never fails |
| SimulatorLaws.RevertUndoesChange | evaluator/causal/change_extractor.py:59-123 | a reverted record equals its predecessor, as the extractor compares, if and only if system_info is restorable |
| RemovalOrder.RevertRestoresIff | evaluator/counterfactual/simulator.py:94-110 | a revert restores version and metadata to the letter if and only if the later record adds no key, what it lacks was not null, and system_info comes out as it was |
| RemovalOrder.AddedKeyStaysAsNull | evaluator/counterfactual/simulator.py:108-110 | an instance: a new key is reverted to null, which the extractor takes for restored and the metadata shows |
| SimulatorLaws.EventIsFound | evaluator/counterfactual/simulator.py:71-77 | the change of a run's first record is found by its id |
| SimulatorLaws.RemoveReverts | evaluator/counterfactual/simulator.py:61-91 | removing the change at sorted position k reverts record k and nothing else |
| SimulatorLaws.ModifyOverrides | evaluator/counterfactual/simulator.py:61-116 | modifying the change at sorted position k sets the overrides in record k, which win over its own values, and changes nothing else; any other action changes nothing |
| SimulatorLaws.UnknownChangeIsIgnored | evaluator/counterfactual/simulator.py:79-80 | an intervention whose change does not occur leaves the store as it is, in its stored order |
| SimulatorLaws.RemovalFailsIff | evaluator/counterfactual/simulator.py:71-106 | a removal that finds its change fails if and only if the first record of the run has a system_info that is no dict and fields must be written into it |
| SimulatorLaws.RemoveAndReextract | evaluator/causal/change_extractor.py:29-39 | afterwards there is no change at k if and only if system_info was restorable, the same event at every position but k and k+1, and at k+1 the difference of records k-1 and k+1 |
| SimulatorLaws.SeparatedRemovalsCommute | evaluator/counterfactual/simulator.py:119-132 | removals at non-adjacent positions commute and give both reverts |
| RemovalOrder.SameRevertIff | evaluator/counterfactual/simulator.py:94-110 | reverting one record towards two predecessors gives the same record if and only if they agree outside system_info and lead to one system_info |
| RemovalOrder.EarlierFirst | evaluator/counterfactual/simulator.py:119-132 | the history after removing the earlier of two neighbouring changes first, whether or not the later one is still found |
| RemovalOrder.LaterFirst | evaluator/counterfactual/simulator.py:119-132 | the history after removing the later one first |
| RemovalOrder.NeighboursCommuteIff | evaluator/counterfactual/simulator.py:119-132 | with distinct runs, the exact condition on three records under which neighbouring removals commute |
| RemovalOrder.RemovalsCommuteIff | evaluator/counterfactual/simulator.py:119-132 | while reverts restore system_info, two removals commute if and only if they are not neighbours |
| RemovalOrder.AddedInfoNeighboursCommute | evaluator/counterfactual/simulator.py:102-106 | a change that only adds system_info is removed without effect, and then even neighbours commute |
| RemovalOrder.VersionRemovalsDiffer | evaluator/counterfactual/simulator.py:119-132 | an instance: a version x, y, z becomes x, x, x in one order and x, x, y in the other |
| RemovalOrder.AddedInfoInstance | evaluator/counterfactual/simulator.py:102-106 | an instance: a system_info that appears is reported, not undone by its revert, and the neighbouring removals commute |
| SimulatorLaws.ScenarioKeepsCores | evaluator/counterfactual/simulator.py:119-132 | every scenario preserves run ids, timestamps and metrics, in stable time order |
| SimulatorLaws.ScenarioKeepsEstimate | evaluator/counterfactual/simulator.py:167-176 | so the estimate after any scenario is the estimate on the original history |
| SimulatorLaws.DistinctRunsNeverFail | evaluator/counterfactual/simulator.py:82-106 | with distinct run ids no intervention fails, and run ids stay distinct |
| SimulatorLaws.DistinctRunsScenario | evaluator/counterfactual/simulator.py:119-132 | the same for whole scenarios |
| SimulatorLaws.LeastScore | evaluator/counterfactual/simulator.py:178-184 | the single factor score, or the least of several, or 0 |
| SimulatorLaws.ConfidenceIsLeast | evaluator/counterfactual/simulator.py:178-184 | the confidence is at most every score of the scenario, and one of them |
| SimulatorLaws.RunCounterfactualAnalysis | evaluator/counterfactual/simulator.py:162-201 | one result per scenario, failing only where a revert does; in every one the metric is the rounded trend estimate on the untouched store, the delta is the rounded original minus that estimate, and without interventions the confidence is 0 |
| SimulatorLaws.DeltaExplains | evaluator/counterfactual/simulator.py:172-190 | the reported metric and delta add up to the reported original, within the three roundings |
| Estimator.EwmaEstimate | evaluator/counterfactual/estimator.py:80-102 | the loop over time-ordered points is the exponentially weighted average |
| Estimator.CollectPoints | evaluator/counterfactual/estimator.py:45-56 | all observations of the metric, and those before the event, in time order |
| Estimator.EstimateMetric | evaluator/counterfactual/estimator.py:9-77 | the estimate on the stored records in time order, with all its fallbacks; EstimatorLaws.EstimateMeans says what that is |
| EstimatorLaws.EstimateMeans | evaluator/counterfactual/estimator.py:44-77 | trend_adjusted with three points or more is the value at the event of a line of least squared error, or the mean if the times hardly spread; mean and any other name give the mean; ewma, or fewer than three points, the weighted average; without earlier points the mean of all, without any 0 |
| EstimatorLaws.EstimateExactOnLines | evaluator/counterfactual/estimator.py:66-132 | a collinear history of at least three points is extrapolated exactly |
| EstimatorLaws.ObservationsAre | evaluator/counterfactual/estimator.py:45-54 | the points collected are exactly those of the metrics with the name, in time order, and one for each |
| EstimatorLaws.BeforeIsPrefix | evaluator/counterfactual/estimator.py:56 | those before the event are the points up to the first that is not earlier |
| EstimatorLaws.ErrorDecomposition | evaluator/counterfactual/estimator.py:105-132 | the squared error of any line is that of the fit plus an explicit penalty in slope and offset |
| EstimatorLaws.TrendIsLeastSquares | evaluator/counterfactual/estimator.py:105-132 | the fit has the least squared error of all lines and is the only such line |
| EstimatorLaws.TrendExactOnLines | evaluator/counterfactual/estimator.py:105-132 | collinear data are extrapolated exactly |
| EstimatorLaws.TrendEquivariant | evaluator/counterfactual/estimator.py:105-132 | shifting time and rescaling values shifts and rescales the estimate, degenerate or not |
| EstimatorLaws.EwmaWithinInputs | evaluator/counterfactual/estimator.py:80-102 | with alpha in [0, 1] the average stays within the inputs; with alpha 1 it is the latest value |
| EstimatorLaws.EwmaOfLater | evaluator/counterfactual/estimator.py:80-102 | a point that is not older than the others enters with weight alpha, and everything before it keeps the rest |
| DriftDetection.GetMetricSeriesWithRuns | evaluator/temporal/series.py:21-41 | the points of one metric, stably sorted by time, each with its run id |
| DriftDetection.SeriesAre | evaluator/temporal/series.py:29-41 | the series has exactly the points of the metrics with the name, in time order, and one for each |
| DriftDetection.DetectDriftEvents | evaluator/temporal/drift_detection.py:12-68 | the index-stepping loop compares exactly the consecutive full windows: a window of w points has an event if and only if its sum and the previous one are more than w thresholds apart, w times the magnitude is that distance, and there are no other events |
| DriftDetection.DetectDriftFromStore | evaluator/temporal/drift_detection.py:71-90 | the same for the stored series |
| DriftDetection.MeanIsMean | evaluator/temporal/drift_detection.py:46-47 | the number of points times the window mean is the sum of the values |
| DriftDetection.ComparedMeans | evaluator/temporal/drift_detection.py:46-64 | two windows of one size give an event exactly when their sums are that far apart, and it carries the distance, the times and the run ids |
| DriftDetection.WindowsTile | evaluator/temporal/drift_detection.py:37-42 | the windows are consecutive disjoint stretches, as many as fit |
| DriftDetection.WindowsInOrder | evaluator/temporal/drift_detection.py:37-42 | in a sorted series, each window is sorted and entirely before the next |
| DriftDetection.EventsChronological | evaluator/temporal/drift_detection.py:37-68 | events start no later than they end, and end no later than the next one starts |
| DriftDetection.StoreEventsChronological | evaluator/temporal/drift_detection.py:71-90 | for every store, in whatever order its records are kept |
| DriftDetection.ShiftIsExplained | evaluator/temporal/drift_detection.py:47-50 | the shift of the mean from first to last window is bounded by the event magnitudes plus one threshold per silent comparison |
| DriftDetection.LargeShiftForcesEvent | evaluator/temporal/drift_detection.py:31-68 | with m windows, a shift above (m - 1) times the threshold forces an event |
| Rounding.RoundKeepsGrid | evaluator/causal/fusion.py:228 | rounding is the identity on six-decimal values |
| Rounding.RoundMonotone | evaluator/causal/fusion.py:228 | and never swaps an order |
| Rounding.RoundIsNearest | evaluator/counterfactual/simulator.py:188-191 | rounding to six and to four decimals moves a value by at most half a unit of the last place |
| Rounding.HalfEvenIsNearest | evaluator/counterfactual/simulator.py:188-191 | it goes to the nearest integer, and to the even one between two |
| CausalFusion.CopyNodes | evaluator/causal/fusion.py:196-205 | new, unaliased nodes with equal priors |
| CausalFusion.RaiseTrack | evaluator/causal/fusion.py:221-228 | on nodes of the track a larger probability replaces the prior, rounded; other nodes keep theirs |
| CausalFusion.FuseDriftIntoCausalGraph | evaluator/causal/fusion.py:172-239 | fresh nodes with every track of the result applied once, in whatever order the dict yields them |
| CausalFusion.FuseDualTrack | evaluator/causal/fusion.py:241-291 | fresh nodes with the retrieval and generation scores applied |
| CausalFusion.RaisedIsMax | evaluator/causal/fusion.py:225-228 | on the grid, fusing is the maximum of the prior and the rounded probability |
| CausalFusion.FailureProbIs | evaluator/causal/fusion.py:118-124 | the probability is the score times the sensitivity where that lies in [0, 1], and the nearer bound elsewhere |
| CausalFusion.TracksOf | evaluator/causal/fusion.py:161-170 | the tracks of a result are those of a non-empty breakdown, else its own track with its score |
| CausalFusion.FusedNodeIs | evaluator/causal/fusion.py:210-228 | a node of a scored track gets the maximum of its prior and the rounded probability of its own track, any other keeps its prior, and nothing but priors changes |
| CausalFusion.DualNodeIs | evaluator/causal/fusion.py:277-291 | retrieval nodes follow the retrieval result, generation nodes the generation result, and others stay |
| CausalFusion.PriorNeverFallsIff | evaluator/causal/fusion.py:225-228 | no probability lowers a prior if and only if it is on the grid or at least half a step above it |
| CausalFusion.OffGridPriorCanFall | evaluator/causal/fusion.py:225-228 | a concrete prior that falls |
| CausalFusion.FusedAllIsSupremum | evaluator/causal/fusion.py:118-228 | after any results the prior is the least value above the initial prior and everything asked for; priors never fall and stay in [0, 1] |
| CausalFusion.OrderAndRepetitionIrrelevant | evaluator/causal/fusion.py:172-239 | any order and repetition of the same results gives the same node |
| CausalFusion.FusedInTurnNodewise | evaluator/causal/fusion.py:172-239 | fusing results into a graph one after the other acts node by node |
| CausalFusion.DualTrackIsBreakdown | evaluator/causal/fusion.py:241-291 | fuse_dual_track agrees with a two-key breakdown and with two single-track fusions in either order |
| DriftMonitor.DriftMonitor.RunAll | evaluator/drift_monitor.py:696-783 | after every interleaving nothing is saved, and all nine fields are what the static calibrations alone would give |
| DriftMonitor.DriftMonitor.RunEvaluations | evaluator/drift_monitor.py:742-748 | evaluations alone, however they overlap and whatever raises, leave all nine fields as they were |
| DriftMonitor.CallsAreIsolated | evaluator/drift_monitor.py:717-748 | each call's verdict is the one it would get alone, under its own thresholds, and it is never overwritten |
| DriftMonitor.DriftMonitor.constructor | evaluator/drift_monitor.py:48-65 | an uncalibrated monitor with nothing saved |
| DriftMonitor.DriftMonitor.ApplyCalibratedThresholds | evaluator/drift_monitor.py:645-676 | the nine fields become the effective ones and the old ones are saved; an empty dict changes nothing |
| DriftMonitor.DriftMonitor.RestoreThresholds | evaluator/drift_monitor.py:678-694 | all nine fields return to the saved values, and nothing stays saved |
| DriftMonitor.DriftMonitor.EvaluateDynamically | evaluator/drift_monitor.py:727-748 | the verdict is that under the effective thresholds, and the fields are as before, whether or not a detector raises |
| DriftMonitor.DriftMonitor.Perform | evaluator/drift_monitor.py:696-783 | the program steps of one stretch between two awaits do to settings and calls what the protocol says |
| DriftMonitor.DynamicThresholds | evaluator/drift_monitor.py:170-180 | a dynamic evaluation sees the calibrated value or else the saved static one |
| DriftMonitor.VerdictMeans | evaluator/drift_monitor.py:170-196 | under dynamic thresholds, exactly when the vector, the graph and the swarm part of the verdict report drift, each score against its own threshold, and that a raising detector raises |
| DriftMonitor.StaticVerdictMeans | evaluator/drift_monitor.py:170-196 | the same under static settings, and that an empty dict of thresholds has no effect |
| DriftMonitor.CalibrationMeans | evaluator/drift_monitor.py:156-180 | a static calibration sets the three vector thresholds and no field; before one the fields count |
| DriftMonitor.StaticAfterSnoc | evaluator/drift_monitor.py:156-161 | every calibration replaces those before it, and no other event counts |
| DriftMonitor.CallsProgress | evaluator/drift_monitor.py:717-748 | what each event does to the calls: an explicit call gets its verdict at once, a dynamic one waits for its thresholds, and no other call is touched |
| DriftMonitor.FallbackForgetsCalibration | evaluator/drift_monitor.py:659-676 | for each vector metric, that fallback equals the threshold in force before if and only if no differing static calibration was in force |
| DriftMonitor.CalibrationForgotten | evaluator/drift_monitor.py:659-676 | an instance: a monitor calibrated to 0.4 flags a score of 0.2 once only an MMD threshold is installed |
| DriftMonitor.FullCalibrationDecides | evaluator/drift_monitor.py:659-676 | with all five dynamic thresholds the verdict depends only on them and on the density and reflection thresholds |
| DriftMonitor.KlThresholdHasNoSay | evaluator/drift_monitor.py:181-196 | a non-negative KL threshold never changes the verdict, a negative one always flags |
| RedisStream.StepKeepsInv | ingestion/redis_queue.py:102-204 | every command, store outcome and crash keeps delivery, ownership and database consistent |
| RedisStream.RunKeepsInv | ingestion/redis_queue.py:102-204 | so does every run of any number of workers |
| RedisStream.EveryEntryAccountedFor | ingestion/redis_queue.py:102-204 | in every reachable state an entry is exactly one of older than the group, undelivered, pending, acknowledged; acknowledged ones were persisted or malformed; nothing is persisted twice |
| RedisStream.AbandonedForever | ingestion/redis_queue.py:127-133 | an entry let go of, or older than the group, is never persisted or acknowledged in any continuation |
| RedisStream.FatesAtRest | ingestion/redis_queue.py:149-204 | with no batch in hand, a delivered well-formed entry is persisted if and only if it was not lost |
| RedisStream.NothingPendingIffNoDrop | ingestion/redis_queue.py:121-204 | at rest everything delivered is acknowledged if and only if no store failed, no reply was lost and no worker died with work in hand |
| RedisLoss.NoFrameLossIff | ingestion/redis_queue.py:72-204 | with everything delivered and nothing in hand, every frame is in the database if and only if none was appended before the group existed and no step dropped one unpersisted |
| RedisLoss.FrameLostIff | ingestion/redis_queue.py:121-204 | over every run a frame is let go of unpersisted if and only if a store failed, a reply was lost or a worker died before its store succeeded, with a frame in hand |
| RedisLoss.EarlyEntries | ingestion/redis_queue.py:102-119 | the entries older than the group are exactly those appended before it was created |
| RedisLoss.FrameAtRest | ingestion/redis_queue.py:121-204 | at rest a frame is in the database if and only if it is not older than the group, not undelivered and not lost |
| RedisLoss.EarlyFrameIsLost | ingestion/redis_queue.py:102-108 | an instance: a frame enqueued before the first start is lost for good in a run without failures |
| RedisStream.FailedStoreLosesFrame | ingestion/redis_queue.py:190-195 | one failed store leaves a frame unpersisted and pending |
| RedisLiveness.DownOnlyByLeavingOrDying | ingestion/redis_queue.py:121-218 | a step takes a worker down if and only if it leaves or dies, and brings one up if and only if it starts it |
| RedisLiveness.DownHasReason | ingestion/redis_queue.py:121-218 | over every run, a worker that is down after being up has left or died since |
| RedisLiveness.StaysUp | ingestion/redis_queue.py:121-218 | over every run, a worker that is not told to stop and does not die stays up |
| RedisLiveness.FailureIsSurvived | ingestion/redis_queue.py:136-195 | after a failed read, a lost reply or a failed store the worker is idle and, unless told to stop, can poll again; only what it had in hand is lost and no other worker notices |
| RedisLiveness.NothingBlocks | ingestion/redis_queue.py:72-204 | in every reachable state the next step of a worker, and every append, is enabled |
| RedisLiveness.OwnStepComesBack | ingestion/redis_queue.py:121-204 | every step of a worker inside its loop, failing or not, brings it closer to the loop test |
| RedisLiveness.WhatStepsTouch | ingestion/redis_queue.py:72-204 | which commands change the stream, the group, the pending list, the acknowledgements and the database, and how |
| RedisLiveness.WhatIsHandedOn | ingestion/redis_queue.py:125-204 | what a worker holds after each of its own steps |
| RedisLiveness.OneWorkerStoresInOrder | ingestion/redis_queue.py:121-204 | in every run with a single worker the frames reach the database in stream order, each at most once |
| RedisStop.AtMostTheReadInFlight | ingestion/redis_queue.py:125-133 | after the stop flag is set a worker reads at most once more, and only if a read was in flight; without a failure it does |
| RedisStop.DeliveredAfterStop | ingestion/redis_queue.py:206-218 | what a stopping worker still gets delivered while no other worker reads: nothing, or one batch |
| RedisStop.StopDrainsIff | ingestion/redis_queue.py:206-218 | of the entries waiting at the call none stays undelivered if and only if there were none, or one last read was executed and they fitted into its batch; failures aside it is executed exactly if it was in flight |
| RedisStop.StopLeavesBacklog | ingestion/redis_queue.py:206-218 | an instance: an idle worker stopped with entries waiting leaves them all undelivered |
| RedisStop.StoppedWorkerLeaves | ingestion/redis_queue.py:125-218 | a stopping worker can always go on, and every step of its own, failing or not, brings it closer to leaving |
| RedisStop.StoppedWorkerStepsBounded | ingestion/redis_queue.py:125-218 | over every run it takes at most a known number of own steps, and after that many it has left |
| RedisBuffer.StreamServer.Perform | ingestion/redis_queue.py:121-204 | the server executes one enabled command atomically |
| RedisBuffer.RedisStreamBuffer.constructor | ingestion/redis_queue.py:30-50 | batch_size is raised to at least 1, the counter starts at 0 |
| RedisBuffer.RedisStreamBuffer.Enqueue | ingestion/redis_queue.py:72-88 | the frames are appended in order and credited; an empty list does nothing |
| RedisBuffer.RedisStreamBuffer.StartWorker | ingestion/redis_queue.py:90-119 | a running worker is left alone; otherwise the group exists afterwards, starting at the present end if it is new |
| RedisBuffer.RedisStreamBuffer.StopWorker | ingestion/redis_queue.py:206-218 | between two passes the worker leaves at once, and stream and group stay as they are |
| RedisBuffer.RedisStreamBuffer.ReadBatch | ingestion/redis_queue.py:125-143 | a poll, a read and its reply deliver up to batch_size new entries, or nothing |
| RedisBuffer.RedisStreamBuffer.Flush | ingestion/redis_queue.py:181-204 | the batch is persisted and acknowledged together, with the counter credited, or stays pending |
| RedisBuffer.RedisStreamBuffer.Pass | ingestion/redis_queue.py:121-204 | one undisturbed pass is a run of protocol commands that acknowledges malformed messages and stores and acknowledges the rest, or leaves them pending |
| RedisBuffer.PassOnEntry | ingestion/redis_queue.py:121-204 | the fate of every entry in one undisturbed pass: the delivered ones are acknowledged if malformed or stored and pending otherwise, and no other entry changes |
| RedisBuffer.PassStoresFrames | ingestion/redis_queue.py:144-199 | a pass delivers up to the batch size and stores the well-formed entries behind all others, in stream order, or none |
| RedisBuffer.InvFresh | ingestion/redis_queue.py:127-133 | in every reachable state of the protocol, whatever a read delivers next is neither pending nor acknowledged yet |
| RedisBuffer.CounterIsLargestRecentInflow | ingestion/redis_queue.py:83-200 | under every interleaving the clipped counter is the largest net inflow since some past moment, hence at least max(0, balance) |
| RedisBuffer.BalanceSnoc | ingestion/redis_queue.py:83-200 | that inflow is what came in less what was flushed |
| IngestionQueue.StepKeepsInv | ingestion/queue.py:55-112 | enqueued = taken batches followed by the queue, batches of 1 to batch_size, at every step |
| IngestionQueue.NothingLostOrReordered | ingestion/queue.py:55-112 | the same in every run |
| IngestionQueue.DrainSplits | ingestion/queue.py:80-94 | a drain splits the queued frames into the batch and the rest, in order |
| IngestionQueue.TakeIsFull | ingestion/queue.py:74-94 | a take fills its batch unless it empties the queue or meets the sentinel, and one that meets it is not full |
| IngestionQueue.NothingBlocks | ingestion/queue.py:72-112 | producers and stop calls are never blocked; the worker can take exactly when it has something to take and nothing in hand |
| IngestionQueue.PersistedIsWhatWasStored | ingestion/queue.py:98-112 | in every run the database holds exactly the batches whose store went well, in order |
| IngestionQueue.StoppedMeansFlushed | ingestion/queue.py:72-122 | a finished worker has taken exactly the frames enqueued before the first stop call, in order, and persisted the batches whose store went well: all of them if none failed |
| IngestionQueue.StopIsReached | ingestion/queue.py:72-122 | once a sentinel is queued the worker can always go on, every take brings it one closer, and producers cannot push it away |
| IngestionQueue.TakesAreBounded | ingestion/queue.py:72-122 | over every run the takes done and the takes left add up to those needed at the start, and none are left exactly when the worker has stopped |
| IngestionQueue.PutIsTakenAndQueued | ingestion/queue.py:55-122 | in every run, what was put into the queue is what was taken, the consumed sentinel, and what is queued |
| IngestionQueue.LeftInQueue | ingestion/queue.py:72-122 | a finished worker leaves exactly what was put in behind the first sentinel, and a second sentinel if and only if stop was called twice |
| IngestionQueue.AsyncIngestionBuffer.constructor | ingestion/queue.py:33-39 | batch_size is raised to at least 1, the queue is empty |
| IngestionQueue.AsyncIngestionBuffer.EnqueueFrames | ingestion/queue.py:55-60 | the frames join the queue in order |
| IngestionQueue.AsyncIngestionBuffer.RequestStop | ingestion/queue.py:119 | the sentinel goes behind everything queued |
| IngestionQueue.AsyncIngestionBuffer.TakeBatch | ingestion/queue.py:74-94 | one loop pass takes exactly the specified batch, rest and stop flag |
| IngestionQueue.AsyncIngestionBuffer.Flush | ingestion/queue.py:98-112 | a batch is stored whole, or not at all if there is no repository or it raises |
| IngestionQueue.AsyncIngestionBuffer.RunUntilStopped | ingestion/queue.py:72-96 | whatever the stores do, the loop ends, having taken what was in front of the sentinel in batches, stored the batches that succeed, and left what is behind it |
| Guardrails.PolicyEvaluator.constructor | evaluator/guardrails/policy.py:61-74 | custom bounds override the default ones, which are the four of the source |
| Guardrails.PolicyEvaluator.CheckParameterBounds | evaluator/guardrails/policy.py:117-135 | refused if and only if some numeric parameter with a bound is below its lower or above its upper one |
| Guardrails.PolicyEvaluator.CheckCooldown | evaluator/guardrails/policy.py:137-166 | allowed if and only if every past action with the same signature of type, run and change is at least the cooldown old, missing stamps counting as now |
| Guardrails.PolicyEvaluator.CheckFlapping | evaluator/guardrails/policy.py:168-203 | allowed if and only if the number of past actions on the run inside the window is below the maximum |
| Guardrails.FlapCountIsSize | evaluator/guardrails/policy.py:168-203 | the flapping count is the number of past actions on the run that are unstamped or stamped within the window |
| Guardrails.PolicyEvaluator.ValidateAction | evaluator/guardrails/policy.py:76-115 | the first violated rule, in the order bounds, cooldown, flapping |
| Guardrails.SignatureIdentifies | evaluator/guardrails/policy.py:205-208 | with no colon in types and run ids, signatures agree if and only if type, run and change do |
| Guardrails.SignatureUniqueIff | evaluator/guardrails/policy.py:205-208 | a signature belongs to one action only if and only if no part of it holds a colon |
| OptimizationRunner.Runner.constructor | evaluator/optimization/runner.py:160-162 | the runner starts from the given policy and history |
| OptimizationRunner.Runner.RunCycle | evaluator/optimization/runner.py:146-208 | no selected action leaves the history alone; otherwise it grows by that action, with type, run, change and parameters kept: approved and stamped with the time, or blocked and unstamped by the cycle |
| OptimizationRunner.Runner.RunAll | evaluator/optimization/runner.py:146-208 | successive cycles build exactly the history the run laws speak about |
| OptimizationRunner.ApprovedRespectCooldown | evaluator/guardrails/policy.py:137-166 | in every run, approved actions with one signature are at least the cooldown apart |
| OptimizationRunner.BlockedStaysBlocked | evaluator/optimization/runner.py:163-176 | with a positive cooldown, a signature once blocked is never approved later |
| OptimizationRunner.FlappingIsBounded | evaluator/guardrails/policy.py:168-203 | no window, wherever it starts, holds more than the maximum of approved actions on a target |
| OptimizationRunner.SaturatedTargetStaysBlocked | evaluator/optimization/runner.py:163-176 | a target with the maximum of blocked attempts is blocked in every later cycle |
| OptimizationRunner.TargetReopensIff | evaluator/guardrails/policy.py:168-203 | once the stamped actions on a target are older than the window, the flapping rule passes if and only if its unstamped actions, blocked ones included, are fewer than the maximum |
| OptimizationRunner.ApprovedAfterPauseIff | evaluator/optimization/runner.py:160-198 | so after such a pause an action within bounds and past its cooldown is approved if and only if they are |
| RateLimit.RateLimiter.constructor | api/middleware/rate_limit.py:16 | no client has a log |
| RateLimit.RateLimiter.Reset | api/middleware/rate_limit.py:29-31 | no client has a log afterwards |
| RateLimit.RateLimiter.Serve | api/middleware/rate_limit.py:34-62 | the purged log with or without the new time, and the header computed from the oldest kept time |
| RateLimit.LogIsRecentPast | api/middleware/rate_limit.py:45-60 | the kept list is exactly the client's accepted times of the last 60 seconds, in order |
| RateLimit.AdmitsIffRoom | api/middleware/rate_limit.py:46-60 | a request is let through if and only if fewer than the limit were in the last 60 seconds |
| RateLimit.WindowNeverOverfull | api/middleware/rate_limit.py:45-60 | no 60-second window, wherever it starts, holds more than the limit |
| RateLimit.ClientsAreIndependent | api/middleware/rate_limit.py:45-60 | what a client is granted depends on its own requests alone |
| RateLimit.WaitIsExact | api/middleware/rate_limit.py:45-60 | after a rejection, a retry succeeds if and only if it comes no sooner than the oldest kept time expires |
| RateLimit.RetryAfterVersusWait | api/middleware/rate_limit.py:51 | the header is enough if and only if the true wait is at most one second or a whole number |
| RateLimit.RetryAfterPlusOneAdmits | api/middleware/rate_limit.py:46-60 | waiting one second more than the header always frees a slot; the header alone does so exactly in that case |
| RateLimit.RetryAfterTooShort | api/middleware/rate_limit.py:46-60 | an instance: with limit 1 and requests at 0 and 0.5, a retry after the advised 59 seconds is rejected |

## Left out

- Floating-point rounding error, and wall clocks that jump: values are exact reals, clocks are monotone.
- Empty samples and zero projections in the Wasserstein distance, where the source divides by zero and yields NaN.
- Drawing and normalising random directions; the square root (a parameter assumed exact on the degrees that occur).
- Eigenvalue computation, spectral distance, entropies, Jensen-Shannon, MMD, KL, PCA and bootstrap calibration: library
  numerics. Their scores enter `DriftMonitor` as given values, and the code around them only through the comparisons.
- `uuid5` is taken to be injective on run id, timestamp and change type; action ids, drift-event ids and metadata are not modelled.
- Metadata values are null, opaque atoms or string-keyed dicts; in-place sharing of nested values is not modelled, since every
  store copies deeply before an intervention writes.
- `JSONHistoryStore`, `to_in_memory` and file persistence; a store is always the in-memory one.
- SimulatorLaws.RunCounterfactualAnalysis: how scenarios are built from an attribution is not modelled; the scenarios, with their factor scores, are a parameter.
- Simulator.ApplyIntervention: interventions are modelled on stores that hold no record twice; `load_all` hands out the live list, and callers that mutate it are not modelled.
- RedisBuffer.RedisStreamBuffer.Pass: one undisturbed pass is one schedule of the protocol, whose laws cover failed reads, lost replies, crashes and interleaved workers; sleeping, blocking times, connection handling and metrics are not modelled.
- RedisStop.StopDrainsIff: stated for runs in which no other worker reads; other workers of the group may deliver more.
- IngestionQueue.AsyncIngestionBuffer.RunUntilStopped: producers do not interleave with this loop; the protocol laws cover every interleaving.
- Administrative commands on the stream (trimming, claiming, deleting the group) and a second consumer group.
- IngestionQueue.StopIsReached: a timeout that cancels a `get` in flight, a stop call while no worker runs, and restarting a worker are not modelled.
- RateLimit.RateLimiter.Serve: requires a limit of at least 1; with a limit of 0 the source fails on an empty list.
- DriftDetection.DetectDriftEvents: requires a window size of at least 1; the source fails on a step of 0.
- OptimizationRunner.Runner.RunCycle: how an action is selected, and what it does once approved, are not modelled; the selected action is a parameter.
- OptimizationRunner.ApprovedRespectCooldown: stated for the actions of the run; stamps in an initial history may be arbitrary.
- CausalFusion.FuseDriftIntoCausalGraph: the default graph, edges and graph metadata are copied unchanged in the source and not modelled.
- Per-run reflection averages, drift-event metadata, logging, alert payloads, Prometheus and OpenTelemetry.
- HTTP routes, authentication, client identification, dashboards, command lines, Postgres, caches, LLM calls and RAG pipelines: input, output and glue.
- `StreamingDriftBuffer`, `AdaptiveThresholdManager`, attribution scores and action ranking: simple bounds and sorting.
