/**
  What interventions do to a history: reverting a change undoes exactly that
  change, reverts of separated changes commute, and no scenario can move the
  estimate it is evaluated with.
*/
module SimulatorLaws {
  import opened ChangeExtractor
  import opened Estimator
  import opened History
  import opened Options
  import opened Rounding
  import opened Simulator
  import opened Sorting

  // ----- Reverting one record -----------------------------------------------------

  function InfoOf(s: Snapshot): Option<Value> { Lookup(s.metadata, SYSTEM_INFO) }

  /** When writing the recorded old fields back restores `system_info` exactly: it did
      not change, or both are dicts, the later one adds no key, and every key
      it lacks held a value other than null; or an empty dict was dropped. */
  ghost predicate InfoRestorable(prev: Option<Value>, curr: Option<Value>) {
    || OrNull(prev) == OrNull(curr)
    || (&& OrNull(prev).Dict? && OrNull(curr).Dict?
        && (forall k :: k in curr.value.fields ==> k in prev.value.fields)
        && (forall k :: k in prev.value.fields && k !in curr.value.fields ==> prev.value.fields[k] != Null))
    || (prev == Some(Dict(map[])) && curr == None)
  }

  lemma RevertedInfo(prev: Option<Value>, curr: Option<Value>, metadata: Fields)
    requires OrNull(prev) != OrNull(curr) && curr == Lookup(metadata, SYSTEM_INFO)
    ensures var diffs := InfoDiffs(OrNull(prev), OrNull(curr));
            OrNull(Lookup(InfoReverted(metadata, diffs), SYSTEM_INFO)) == OrNull(prev) <==> InfoRestorable(prev, curr)
  {
  }

  /** The parts of the signature of a reverted record that do not depend on `system_info`. */
  lemma RevertedRest(prev: Snapshot, curr: Snapshot)
    ensures var r := Sig(Reverted(curr, DetailsOf(Sig(prev), Sig(curr))));
            && r.version == prev.version
            && OrNull(r.pipeline) == OrNull(Sig(prev).pipeline)
            && SameFields(r.rest, Sig(prev).rest)
  {
    hide InfoReverted;
    KeysDiffer();
    var d := DetailsOf(Sig(prev), Sig(curr));
    if d.info.Some? {
      var m := PipelineReverted(curr.metadata, d);
      InfoRevertedElsewhere(m, d.info.value);
    }
    forall k ensures Get(Sig(Reverted(curr, d)).rest, k) == Get(Sig(prev).rest, k) {
      RestEntry(prev, curr, k);
    }
  }

  lemma InfoRevertedElsewhere(m: Fields, diffs: Diffs)
    ensures forall k :: k != SYSTEM_INFO ==> (k in InfoReverted(m, diffs) <==> k in m)
    ensures forall k :: k != SYSTEM_INFO && k in m ==> InfoReverted(m, diffs)[k] == m[k]
  {
  }

  lemma RestEntry(prev: Snapshot, curr: Snapshot, k: string)
    ensures Get(Sig(Reverted(curr, DetailsOf(Sig(prev), Sig(curr)))).rest, k) == Get(Sig(prev).rest, k)
  {
    hide MetadataReverted, DiffFields;
    var p, c, d := Sig(prev), Sig(curr), DetailsOf(Sig(prev), Sig(curr));
    RestOf(prev, k);
    RestOf(curr, k);
    RestOf(Reverted(curr, d), k);
    DiffFieldsKeys(p.rest, c.rest);
    assert k in DiffFields(p.rest, c.rest) <==> Get(p.rest, k) != Get(c.rest, k);
    if k != SYSTEM_INFO && k != PIPELINE_NAME {
      RevertedEntry(curr.metadata, d, k);
      if k in DiffFields(p.rest, c.rest) {
        DiffEntry(p.rest, c.rest, k);
      }
    }
  }

  lemma RestOf(s: Snapshot, k: string)
    ensures Get(Sig(s).rest, k) == if k == SYSTEM_INFO || k == PIPELINE_NAME then Null else Get(s.metadata, k)
  {
  }

  lemma DiffEntry(a: Fields, b: Fields, k: string)
    requires k in DiffFields(a, b)
    ensures DiffFields(a, b)[k].oldValue == Get(a, k)
  {
  }

  lemma RevertedEntry(m: Fields, d: Details, k: string)
    requires k != SYSTEM_INFO && k != PIPELINE_NAME
    ensures Get(MetadataReverted(m, d), k)
         == if d.metadata.Some? && k in d.metadata.value then d.metadata.value[k].oldValue else Get(m, k)
  {
    hide InfoReverted;
    if d.info.Some? {
      InfoRevertedElsewhere(PipelineReverted(m, d), d.info.value);
    }
  }

  lemma RevertedInfoPart(prev: Snapshot, curr: Snapshot)
    ensures OrNull(Sig(Reverted(curr, DetailsOf(Sig(prev), Sig(curr)))).info) == OrNull(Sig(prev).info)
            <==> InfoRestorable(InfoOf(prev), InfoOf(curr))
  {
    hide InfoReverted, InfoRestorable;
    KeysDiffer();
    var p, c, d := Sig(prev), Sig(curr), DetailsOf(Sig(prev), Sig(curr));
    var m1 := PipelineReverted(curr.metadata, d);
    assert Lookup(m1, SYSTEM_INFO) == c.info;
    if d.info.Some? {
      RevertedInfo(p.info, c.info, m1);
    } else {
      UnchangedRestorable(p.info, c.info);
    }
  }

  lemma UnchangedRestorable(prev: Option<Value>, curr: Option<Value>)
    requires OrNull(prev) == OrNull(curr)
    ensures InfoRestorable(prev, curr)
  {
  }

  /** A reverted record counts as equal to its predecessor exactly when `system_info` is restorable. */
  lemma RevertUndoesChange(prev: Snapshot, curr: Snapshot)
    ensures Equivalent(Sig(Reverted(curr, DetailsOf(Sig(prev), Sig(curr)))), Sig(prev))
            <==> InfoRestorable(InfoOf(prev), InfoOf(curr))
  {
    hide Sig, Reverted, DetailsOf, InfoRestorable, InfoOf, SameFields;
    RevertedRest(prev, curr);
    RevertedInfoPart(prev, curr);
    assert Sig(prev).version == prev.version by { SigVersion(prev); }
  }

  lemma SigVersion(s: Snapshot)
    ensures Sig(s).version == s.version && Sig(s).runId == s.runId && Sig(s).timestamp == Time(s)
  {
  }

  /** Extraction never lists fields of a `system_info` that is not a dict, so the revert does not fail. */
  lemma ExtractedIsRevertible(prev: Snapshot, curr: Snapshot)
    ensures Revertible(curr, DetailsOf(Sig(prev), Sig(curr)))
  {
  }

  // ----- Removing the change at one position ----------------------------------------

  ghost predicate FirstOfRun(s: seq<Snapshot>, k: nat)
    requires k < |s|
  {
    forall j :: 0 <= j < k ==> s[j].runId != s[k].runId
  }

  lemma DiffCarriesRun(prev: Signature, curr: Signature)
    ensures Diff(prev, curr).Some? ==>
      var e := Diff(prev, curr).value;
      e.id.runId == curr.runId && e.runId == curr.runId && e.details == DetailsOf(prev, curr)
  {
  }

  lemma {:induction false} NoEarlierEvent(s: seq<Snapshot>, id: ChangeId)
    requires forall j :: 0 <= j < |s| ==> s[j].runId != id.runId
    ensures FindChange(Events(s), id) == None
  {
    if |s| < 2 {
    } else {
      NoEarlierEvent(s[..|s| - 1], id);
      FindSnoc(Events(s[..|s| - 1]), DiffAt(s, |s| - 1), id);
      DiffCarriesRun(Sig(s[|s| - 2]), Sig(s[|s| - 1]));
      SigVersion(s[|s| - 1]);
    }
  }

  lemma FindSnoc(events: seq<ChangeEvent>, last: Option<ChangeEvent>, id: ChangeId)
    ensures FindChange(events + Listed(last), id)
         == if FindChange(events, id).Some? then FindChange(events, id)
            else if last.Some? && last.value.id == id then last else None
  {
    if last.Some? {
      assert (events + [last.value])[..|events|] == events;
    } else {
      assert events + [] == events;
    }
  }

  /** The change of a run's first record is found by its id. */
  lemma {:induction false} EventIsFound(s: seq<Snapshot>, k: nat)
    requires 1 <= k < |s| && FirstOfRun(s, k) && DiffAt(s, k).Some?
    ensures FindChange(Events(s), DiffAt(s, k).value.id) == DiffAt(s, k)
  {
    hide Diff, Sig;
    var p, id := s[..|s| - 1], DiffAt(s, k).value.id;
    DiffCarriesRun(Sig(s[k - 1]), Sig(s[k]));
    SigVersion(s[k]);
    FindSnoc(Events(p), DiffAt(s, |s| - 1), id);
    if k == |s| - 1 {
      NoEarlierEvent(p, id);
    } else {
      EventIsFound(p, k);
    }
  }

  function WithRecord(s: seq<Snapshot>, k: nat): seq<Snapshot>
    requires 1 <= k < |s|
  {
    s[k := Reverted(s[k], DetailsOf(Sig(s[k - 1]), Sig(s[k])))]
  }

  /** Removing the change at sorted position k reverts record k, and nothing else. */
  lemma RemoveReverts(contents: seq<Snapshot>, s: seq<Snapshot>, k: nat, iv: Intervention)
    requires s == Sort(Time, contents) && 1 <= k < |s| && FirstOfRun(s, k)
    requires DiffAt(s, k).Some? && iv.action == Remove && iv.changeId == DiffAt(s, k).value.id
    ensures Intervene(contents, iv) == Some(WithRecord(s, k))
    ensures Sort(Time, WithRecord(s, k)) == WithRecord(s, k)
  {
    hide Sort, Events, FindChange, Diff, Sig, Revertible, Reverted;
    SortSorts(Time, contents);
    EventIsFound(s, k);
    DiffCarriesRun(Sig(s[k - 1]), Sig(s[k]));
    SigVersion(s[k]);
    FirstRunIs(s, s[k].runId, k);
    ExtractedIsRevertible(s[k - 1], s[k]);
    KeepsTime(s, k);
    SortOfSorted(Time, WithRecord(s, k));
  }

  lemma KeepsTime(s: seq<Snapshot>, k: nat)
    requires SortedBy(Time, s) && 1 <= k < |s|
    ensures SortedBy(Time, WithRecord(s, k))
  {
  }

  /** Re-extraction after removing the change at position k:
      no change at k exactly when `system_info` was restorable, the same event
      at every position other than k and k+1, and at k+1 the event that record
      k+1 shows against record k-1, if it shows one. */
  lemma RemoveAndReextract(s: seq<Snapshot>, k: nat, j: nat)
    requires 1 <= k < |s| && 1 <= j < |s|
    ensures DiffAt(WithRecord(s, k), k) == None <==> InfoRestorable(InfoOf(s[k - 1]), InfoOf(s[k]))
    ensures j != k && j != k + 1 ==> DiffAt(WithRecord(s, k), j) == DiffAt(s, j)
    ensures k + 1 < |s| && InfoRestorable(InfoOf(s[k - 1]), InfoOf(s[k])) ==>
              DiffAt(WithRecord(s, k), k + 1) == Diff(Sig(s[k - 1]), Sig(s[k + 1]))
  {
    hide Sig, Diff, Reverted, DetailsOf, InfoRestorable, InfoOf;
    var r := Sig(WithRecord(s, k)[k]);
    RevertUndoesChange(s[k - 1], s[k]);
    DiffIffNotEquivalent(Sig(s[k - 1]), r);
    EquivalentSymmetric(r, Sig(s[k - 1]));
    if k + 1 < |s| && InfoRestorable(InfoOf(s[k - 1]), InfoOf(s[k])) {
      DiffOfEquivalent(r, Sig(s[k - 1]), Sig(s[k + 1]));
    }
  }

  lemma EquivalentSymmetric(p: Signature, q: Signature)
    ensures Equivalent(p, q) <==> Equivalent(q, p)
  {
  }

  /** Removals at two positions that are not neighbours commute: the second
      change keeps its id and its details whichever comes first. */
  lemma SeparatedRemovalsCommute(contents: seq<Snapshot>, s: seq<Snapshot>, i: nat, j: nat,
                                 first: Intervention, second: Intervention)
    requires s == Sort(Time, contents)
    requires 1 <= i && i + 2 <= j < |s| && FirstOfRun(s, i) && FirstOfRun(s, j)
    requires DiffAt(s, i).Some? && first.action == Remove && first.changeId == DiffAt(s, i).value.id
    requires DiffAt(s, j).Some? && second.action == Remove && second.changeId == DiffAt(s, j).value.id
    ensures Scenario(contents, [first, second]) == Scenario(contents, [second, first])
    ensures Scenario(contents, [first, second]) == Some(WithRecord(WithRecord(s, i), j))
  {
    hide Sort, Intervene, Diff, Sig, DetailsOf, Reverted, InfoRestorable;
    var si, sj := WithRecord(s, i), WithRecord(s, j);
    RemoveReverts(contents, s, i, first);
    RemoveReverts(contents, s, j, second);
    RemoveAndReextract(s, i, j);
    RemoveAndReextract(s, j, i);
    RunsKept(s, i);
    RunsKept(s, j);
    assert FirstOfRun(si, j) && FirstOfRun(sj, i);
    RemoveReverts(si, si, j, second);
    RemoveReverts(sj, sj, i, first);
    assert WithRecord(si, j) == WithRecord(sj, i);
    ScenarioOfTwo(contents, first, second);
    ScenarioOfTwo(contents, second, first);
  }

  lemma RunsKept(s: seq<Snapshot>, k: nat)
    requires 1 <= k < |s|
    ensures forall j :: 0 <= j < |s| ==> WithRecord(s, k)[j].runId == s[j].runId
  {
  }

  lemma ScenarioOfTwo(c: seq<Snapshot>, a: Intervention, b: Intervention)
    ensures Scenario(c, [a, b]) == if Intervene(c, a) == None then None else Intervene(Intervene(c, a).value, b)
  {
    assert [a, b][..1] == [a] && [a][..0] == [];
    assert Scenario(c, [a]) == Intervene(c, a);
  }

  // ----- No scenario moves the estimate ----------------------------------------------

  /** What the estimator looks at: the record without version and metadata. */
  function Core(s: Snapshot): Snapshot { s.(version := Null, metadata := map[]) }

  ghost function Cores(contents: seq<Snapshot>): seq<Snapshot> { Map(Core, Sort(Time, contents)) }

  lemma CoresOfSorted(contents: seq<Snapshot>)
    ensures Cores(Sort(Time, contents)) == Cores(contents)
  {
    SortSorts(Time, contents);
    SortOfSorted(Time, Sort(Time, contents));
  }

  lemma CoresAfterSort(contents: seq<Snapshot>)
    ensures Cores(contents) == Sort(Time, Map(Core, contents))
  {
    SortOfMap(Time, Time, Core, contents);
  }

  lemma ChangedKeepsCore(s: Snapshot, iv: Intervention, details: Details)
    ensures Changed(s, iv, details).Some? ==> Core(Changed(s, iv, details).value) == Core(s)
  {
  }

  lemma InterveneKeepsCores(contents: seq<Snapshot>, iv: Intervention)
    requires Intervene(contents, iv).Some?
    ensures Cores(Intervene(contents, iv).value) == Cores(contents)
  {
    hide Sort, Events, FindChange, Changed, Cores, FirstRun;
    var s := Sort(Time, contents);
    var change := FindChange(Events(s), iv.changeId);
    if change.Some? {
      var after := Intervene(contents, iv).value;
      var i := FirstRun(s, change.value.runId);
      if i < |s| {
        ChangedKeepsCore(s[i], iv, change.value.details);
      }
      assert Map(Core, after) == Map(Core, s);
      CoresAfterSort(after);
      CoresAfterSort(s);
      CoresOfSorted(contents);
    }
  }

  /** Run ids, timestamps and metrics survive every scenario, whatever it removes or modifies. */
  lemma {:induction false} ScenarioKeepsCores(contents: seq<Snapshot>, ivs: seq<Intervention>)
    requires Scenario(contents, ivs).Some?
    ensures Cores(Scenario(contents, ivs).value) == Cores(contents)
  {
    hide Intervene, Cores;
    if ivs == [] {
    } else {
      var earlier := ivs[..|ivs| - 1];
      ScenarioKeepsCores(contents, earlier);
      InterveneKeepsCores(Scenario(contents, earlier).value, ivs[|ivs| - 1]);
    }
  }

  lemma {:induction false} ObservationsOfCores(s: seq<Snapshot>, name: string)
    ensures Observations(Map(Core, s), name) == Observations(s, name)
  {
    if s == [] {
    } else {
      ObservationsOfCores(s[..|s| - 1], name);
      assert Map(Core, s)[..|s| - 1] == Map(Core, s[..|s| - 1]);
    }
  }

  /** So the estimate after any scenario is the estimate on the untouched history. */
  lemma ScenarioKeepsEstimate(contents: seq<Snapshot>, ivs: seq<Intervention>,
                              start: real, name: string, how: Method, alpha: real)
    requires Scenario(contents, ivs).Some?
    ensures Estimate(Scenario(contents, ivs).value, start, name, how, alpha)
         == Estimate(contents, start, name, how, alpha)
  {
    var after := Scenario(contents, ivs).value;
    ScenarioKeepsCores(contents, ivs);
    ObservationsOfCores(Sort(Time, after), name);
    ObservationsOfCores(Sort(Time, contents), name);
  }

  // ----- No failure on distinct runs ---------------------------------------------------

  ghost predicate DistinctRuns(s: seq<Snapshot>) {
    forall i, j :: 0 <= i < j < |s| ==> s[i].runId != s[j].runId
  }

  lemma {:induction false} FoundEventHasPosition(s: seq<Snapshot>, id: ChangeId) returns (k: nat)
    requires FindChange(Events(s), id).Some?
    ensures 1 <= k < |s| && FindChange(Events(s), id) == DiffAt(s, k)
  {
    hide Diff, Sig;
    assert |s| >= 2;
    var p := s[..|s| - 1];
    FindSnoc(Events(p), DiffAt(s, |s| - 1), id);
    if FindChange(Events(p), id).Some? {
      k := FoundEventHasPosition(p, id);
    } else {
      k := |s| - 1;
    }
  }

  /** When no two records share a run id, no intervention fails: the record it
      reverts is the one its change was read from. */
  lemma DistinctRunsNeverFail(contents: seq<Snapshot>, iv: Intervention)
    requires DistinctRuns(Sort(Time, contents))
    ensures Intervene(contents, iv).Some?
    ensures DistinctRuns(Sort(Time, Intervene(contents, iv).value))
  {
    hide Sort, Events, FindChange, Diff, Sig, Revertible, Reverted;
    var s := Sort(Time, contents);
    if FindChange(Events(s), iv.changeId).Some? {
      var k := FoundEventHasPosition(s, iv.changeId);
      DiffCarriesRun(Sig(s[k - 1]), Sig(s[k]));
      SigVersion(s[k]);
      FirstRunIs(s, s[k].runId, k);
      ExtractedIsRevertible(s[k - 1], s[k]);
    }
    var after := Sort(Time, Intervene(contents, iv).value);
    InterveneKeepsCores(contents, iv);
    forall i | 0 <= i < |s| ensures i < |after| && after[i].runId == s[i].runId {
      assert Cores(contents)[i].runId == s[i].runId;
    }
    assert |after| == |Cores(contents)| == |s|;
  }

  lemma {:induction false} DistinctRunsScenario(contents: seq<Snapshot>, ivs: seq<Intervention>)
    requires DistinctRuns(Sort(Time, contents))
    ensures Scenario(contents, ivs).Some? && DistinctRuns(Sort(Time, Scenario(contents, ivs).value))
  {
    hide Sort, Intervene, DistinctRuns;
    if ivs == [] {
    } else {
      DistinctRunsScenario(contents, ivs[..|ivs| - 1]);
      DistinctRunsNeverFail(Scenario(contents, ivs[..|ivs| - 1]).value, ivs[|ivs| - 1]);
    }
  }

  // ----- The analysis loop --------------------------------------------------------------

  datatype CounterfactualResult = CounterfactualResult(
    originalMetric: real, counterfactualMetric: real, delta: real, confidence: real)

  /** The least score of a scenario's interventions, 0 if it has none. */
  function Confidence(ivs: seq<Intervention>): real {
    if ivs == [] then 0.0
    else if |ivs| == 1 then ivs[0].score
    else
      var earlier, last := Confidence(ivs[..|ivs| - 1]), ivs[|ivs| - 1].score;
      if last < earlier then last else earlier
  }

  lemma {:induction false} ConfidenceIsLeast(ivs: seq<Intervention>)
    requires ivs != []
    ensures forall iv :: iv in ivs ==> Confidence(ivs) <= iv.score
    ensures exists iv :: iv in ivs && Confidence(ivs) == iv.score
  {
    if |ivs| == 1 {
      assert ivs[0] in ivs;
    } else {
      var earlier, last := ivs[..|ivs| - 1], ivs[|ivs| - 1];
      ConfidenceIsLeast(earlier);
      assert ivs == earlier + [last];
      var iv :| iv in earlier && Confidence(earlier) == iv.score;
      assert iv in ivs && last in ivs;
    }
  }

  lemma NoConfidence()
    ensures Confidence([]) == 0.0
  {
  }

  /** Up to the roundings, the counterfactual metric and the delta add up to the original metric. */
  lemma DeltaExplains(contents: seq<Snapshot>, ivs: seq<Intervention>, magnitude: real, start: real, name: string)
    ensures var r := Report(contents, ivs, magnitude, start, name);
            -0.0000015 <= r.originalMetric - r.counterfactualMetric - r.delta <= 0.0000015
  {
    hide Round6, Estimate;
    var e := Estimate(contents, start, name, TrendAdjusted, 0.3);
    RoundIsNearest(magnitude);
    RoundIsNearest(e);
    RoundIsNearest(magnitude - e);
  }

  method LeastScore(ivs: seq<Intervention>) returns (confidence: real)
    ensures confidence == Confidence(ivs)
  {
    if ivs == [] {
      return 0.0;
    }
    confidence := ivs[0].score;
    for k := 1 to |ivs|
      invariant confidence == Confidence(ivs[..k])
    {
      assert ivs[..k + 1][..k] == ivs[..k];
      if ivs[k].score < confidence {
        confidence := ivs[k].score;
      }
    }
    assert ivs[..|ivs|] == ivs;
  }

  /** What a scenario reports: it depends on the store only through the estimate on the untouched history. */
  function Report(contents: seq<Snapshot>, ivs: seq<Intervention>, magnitude: real, start: real, name: string)
    : CounterfactualResult
  {
    var metric := Estimate(contents, start, name, TrendAdjusted, 0.3);
    CounterfactualResult(Round6(magnitude), Round6(metric), Round6(magnitude - metric), Round4(Confidence(ivs)))
  }

  /** `run_counterfactual_analysis` from the scenarios on. `None` is the TypeError of a failed revert. */
  method RunCounterfactualAnalysis(store: InMemoryHistoryStore, scenarios: seq<seq<Intervention>>,
                                   magnitude: real, start: real, name: string)
    returns (results: Option<seq<CounterfactualResult>>)
    requires store.Valid()
    ensures results.Some? <==> forall k :: 0 <= k < |scenarios| ==> Scenario(store.Contents(), scenarios[k]).Some?
    ensures results.Some? ==> |results.value| == |scenarios|
    ensures results.Some? ==> forall k :: 0 <= k < |scenarios| ==>
              results.value[k] == Report(store.Contents(), scenarios[k], magnitude, start, name)
    ensures results.Some? ==> forall k :: 0 <= k < |scenarios| ==>
              var r, e := results.value[k], Estimate(store.Contents(), start, name, TrendAdjusted, 0.3);
              && r.originalMetric == Round6(magnitude) && r.counterfactualMetric == Round6(e)
              && r.delta == Round6(magnitude - e)
              && (scenarios[k] == [] ==> r.confidence == Round4(0.0))
  {
    NoConfidence();
    hide Scenario, Estimate, Confidence, Round6, Round4;
    var collected: seq<CounterfactualResult> := [];
    for k := 0 to |scenarios|
      invariant |collected| == k
      invariant forall i :: 0 <= i < k ==> Scenario(store.Contents(), scenarios[i]).Some?
      invariant forall i :: 0 <= i < k ==>
                  collected[i] == Report(store.Contents(), scenarios[i], magnitude, start, name)
    {
      var modified := ApplyScenario(store, scenarios[k]);
      if modified == None {
        return None;
      }
      var metric := EstimateMetric(modified.value, start, name, TrendAdjusted, 0.3);
      ScenarioKeepsEstimate(store.Contents(), scenarios[k], start, name, TrendAdjusted, 0.3);
      var confidence := LeastScore(scenarios[k]);
      collected := collected + [CounterfactualResult(
        Round6(magnitude), Round6(metric), Round6(magnitude - metric), Round4(confidence))];
    }
    results := Some(collected);
  }

  // ----- The other interventions ----------------------------------------------------------------

  /** An intervention whose change does not occur leaves the store as it is, in its stored order. */
  lemma UnknownChangeIsIgnored(contents: seq<Snapshot>, iv: Intervention)
    requires forall e :: e in Events(Sort(Time, contents)) ==> e.id != iv.changeId
    ensures Intervene(contents, iv) == Some(contents)
  {
    hide Sort, Events;
    NothingFound(Events(Sort(Time, contents)), iv.changeId);
  }

  lemma {:induction false} NothingFound(events: seq<ChangeEvent>, id: ChangeId)
    requires forall e :: e in events ==> e.id != id
    ensures FindChange(events, id) == None
  {
    if events == [] {
    } else {
      NothingFound(events[..|events| - 1], id);
    }
  }

  /** Modifying the change of a run's first record overrides that record's metadata and nothing else; any other
      action leaves every record as it is. */
  lemma ModifyOverrides(contents: seq<Snapshot>, s: seq<Snapshot>, k: nat, iv: Intervention)
    requires s == Sort(Time, contents) && 1 <= k < |s| && FirstOfRun(s, k)
    requires DiffAt(s, k).Some? && iv.action != Remove && iv.changeId == DiffAt(s, k).value.id
    ensures iv.action == Modify ==>
              && Intervene(contents, iv).Some? && var t := Intervene(contents, iv).value;
                 && t == s[k := s[k].(metadata := t[k].metadata)]
                 && t[k].metadata.Keys == s[k].metadata.Keys + iv.overrides.Keys
                 && (forall j :: j in iv.overrides ==> t[k].metadata[j] == iv.overrides[j])
                 && (forall j :: j in s[k].metadata && j !in iv.overrides ==> t[k].metadata[j] == s[k].metadata[j])
    ensures iv.action == Other ==> Intervene(contents, iv) == Some(s)
  {
    hide Sort, Events, FindChange, Diff, Sig;
    EventIsFound(s, k);
    DiffCarriesRun(Sig(s[k - 1]), Sig(s[k]));
    SigVersion(s[k]);
    FirstRunIs(s, s[k].runId, k);
    assert s[k := s[k]] == s;
  }

  /** The revert of a found change fails exactly when its fields would have to be written into a `system_info`
      that is there and is not a dict. */
  lemma RemovalFailsIff(contents: seq<Snapshot>, iv: Intervention, e: ChangeEvent)
    requires iv.action == Remove && FindChange(Events(Sort(Time, contents)), iv.changeId) == Some(e)
    ensures var s := Sort(Time, contents);
            var k := FirstRun(s, e.runId);
            Intervene(contents, iv) == None
            <==> && k < |s| && e.details.info.Some? && e.details.info.value.Keys != {}
                 && SYSTEM_INFO in s[k].metadata && !s[k].metadata[SYSTEM_INFO].Dict?
  {
    hide Sort, Events, FindChange, FirstRun, Reverted;
    if e.details.info.Some? {
      assert e.details.info.value == map[] <==> e.details.info.value.Keys == {};
    }
  }
}
