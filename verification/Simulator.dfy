/** `evaluator/counterfactual/simulator.py`: interventions on a cloned history. */
module Simulator {
  import opened Basics
  import opened ChangeExtractor
  import opened History
  import opened Options
  import opened Sorting

  datatype Action = Remove | Modify | Other

  /** `score` is the `factor_score` of the intervention's metadata, 0 if there is none. */
  datatype Intervention = Intervention(action: Action, changeId: ChangeId, overrides: Fields, score: real)

  // ----- Specification --------------------------------------------------------

  function Olds(diffs: Diffs): Fields { map k | k in diffs :: diffs[k].oldValue }

  /** A missing `system_info` is created empty before the old field values are written. */
  function InfoReverted(metadata: Fields, diffs: Diffs): Fields {
    var m := if SYSTEM_INFO in metadata then metadata else metadata[SYSTEM_INFO := Dict(map[])];
    if m[SYSTEM_INFO].Dict? then m[SYSTEM_INFO := Dict(m[SYSTEM_INFO].fields + Olds(diffs))] else m
  }

  function PipelineReverted(metadata: Fields, d: Details): Fields {
    if d.pipeline.Some? then metadata[PIPELINE_NAME := d.pipeline.value.oldValue] else metadata
  }

  function MetadataReverted(metadata: Fields, d: Details): Fields {
    var m1 := PipelineReverted(metadata, d);
    var m2 := if d.info.Some? then InfoReverted(m1, d.info.value) else m1;
    if d.metadata.Some? then m2 + Olds(d.metadata.value) else m2
  }

  function Reverted(s: Snapshot, d: Details): Snapshot {
    s.(version := if d.version.Some? then d.version.value.oldValue else s.version,
       metadata := MetadataReverted(s.metadata, d))
  }

  /** Whether every item assignment of the revert succeeds: fields are never
      written into a `system_info` that is not a dict. */
  predicate Revertible(s: Snapshot, d: Details) {
    d.info.Some? && d.info.value != map[] && SYSTEM_INFO in s.metadata ==> s.metadata[SYSTEM_INFO].Dict?
  }

  function Modified(s: Snapshot, overrides: Fields): Snapshot { s.(metadata := s.metadata + overrides) }

  /** The first event carrying the id. */
  function FindChange(events: seq<ChangeEvent>, id: ChangeId): Option<ChangeEvent> {
    if events == [] then None
    else
      var earlier := FindChange(events[..|events| - 1], id);
      if earlier.Some? then earlier else if events[|events| - 1].id == id then Some(events[|events| - 1]) else None
  }

  /** The position of the first record of a run, or the length if there is none. */
  function FirstRun(s: seq<Snapshot>, runId: string): (i: nat)
    ensures i <= |s|
    ensures i < |s| ==> s[i].runId == runId
    ensures forall j :: 0 <= j < i ==> s[j].runId != runId
  {
    if s == [] then 0
    else
      var i := FirstRun(s[..|s| - 1], runId);
      if i < |s| - 1 || s[|s| - 1].runId == runId then i else |s|
  }

  /** The contents after one intervention; `None` stands for the TypeError of a failed revert. */
  function Intervene(contents: seq<Snapshot>, iv: Intervention): Option<seq<Snapshot>> {
    var s := Sort(Time, contents);
    var change := FindChange(Events(s), iv.changeId);
    if change == None then Some(contents) else ChangedFirst(s, change.value.runId, iv, change.value.details)
  }

  function ChangedFirst(s: seq<Snapshot>, runId: string, iv: Intervention, details: Details): Option<seq<Snapshot>> {
    var i := FirstRun(s, runId);
    if i == |s| then Some(s)
    else
      var changed := Changed(s[i], iv, details);
      if changed.Some? then Some(s[i := changed.value]) else None
  }

  function Changed(s: Snapshot, iv: Intervention, details: Details): Option<Snapshot> {
    match iv.action
    case Remove => if Revertible(s, details) then Some(Reverted(s, details)) else None
    case Modify => Some(Modified(s, iv.overrides))
    case Other => Some(s)
  }

  function Scenario(contents: seq<Snapshot>, ivs: seq<Intervention>): Option<seq<Snapshot>> {
    if ivs == [] then Some(contents)
    else
      var earlier := Scenario(contents, ivs[..|ivs| - 1]);
      if earlier == None then None else Intervene(earlier.value, ivs[|ivs| - 1])
  }

  // ----- The program ------------------------------------------------------------

  method WriteOlds(fields: Fields, diffs: Diffs) returns (written: Fields)
    ensures written == fields + Olds(diffs)
  {
    written := fields;
    var todo := diffs.Keys;
    while todo != {}
      invariant todo <= diffs.Keys
      invariant written == fields + map k | k in diffs.Keys - todo :: diffs[k].oldValue
      decreases todo
    {
      var key :| key in todo;
      written := written[key := diffs[key].oldValue];
      todo := todo - {key};
    }
    assert Olds(diffs) == map k | k in diffs.Keys - todo :: diffs[k].oldValue;
  }

  lemma KeysDiffer()
    ensures SYSTEM_INFO != PIPELINE_NAME
  {
  }

  method RevertChange(record: Record, details: Details) returns (ok: bool)
    modifies record
    ensures ok == Revertible(old(record.Now()), details)
    ensures ok ==> record.Now() == Reverted(old(record.Now()), details)
  {
    KeysDiffer();
    if details.version.Some? {
      record.version := details.version.value.oldValue;
    }
    if details.pipeline.Some? {
      record.metadata := record.metadata[PIPELINE_NAME := details.pipeline.value.oldValue];
    }
    if details.info.Some? {
      if SYSTEM_INFO !in record.metadata {
        record.metadata := record.metadata[SYSTEM_INFO := Dict(map[])];
      }
      if details.info.value != map[] {
        if !record.metadata[SYSTEM_INFO].Dict? {
          return false;
        }
        var written := WriteOlds(record.metadata[SYSTEM_INFO].fields, details.info.value);
        record.metadata := record.metadata[SYSTEM_INFO := Dict(written)];
      } else {
        NothingToWrite(record.metadata);
      }
    }
    if details.metadata.Some? {
      var written := WriteOlds(record.metadata, details.metadata.value);
      record.metadata := written;
    }
    ok := true;
  }

  lemma NothingToWrite(m: Fields)
    requires SYSTEM_INFO in m
    ensures InfoReverted(m, map[]) == m
  {
    assert Olds(map[]) == map[];
    if m[SYSTEM_INFO].Dict? {
      assert m[SYSTEM_INFO].fields + Olds(map[]) == m[SYSTEM_INFO].fields;
    }
  }

  method ApplyModify(record: Record, overrides: Fields)
    modifies record
    ensures record.Now() == Modified(old(record.Now()), overrides)
    ensures record.metadata.Keys == old(record.metadata).Keys + overrides.Keys
    ensures forall k :: k in overrides ==> record.metadata[k] == overrides[k]
    ensures forall k :: k in old(record.metadata) && k !in overrides ==> record.metadata[k] == old(record.metadata)[k]
    ensures record.Now() == old(record.Now()).(metadata := record.metadata)
  {
    var todo := overrides.Keys;
    var before := record.Now();
    while todo != {}
      invariant todo <= overrides.Keys
      invariant record.Now() ==
        before.(metadata := before.metadata + map k | k in overrides.Keys - todo :: overrides[k])
      decreases todo
    {
      var key :| key in todo;
      record.metadata := record.metadata[key := overrides[key]];
      todo := todo - {key};
    }
    assert overrides == map k | k in overrides.Keys - todo :: overrides[k];
  }

  /** The first event with the id, by a linear scan. */
  method ScanForChange(changes: seq<ChangeEvent>, id: ChangeId) returns (target: Option<ChangeEvent>)
    ensures target == FindChange(changes, id)
    ensures target == None <==> forall k :: 0 <= k < |changes| ==> changes[k].id != id
    ensures target.Some? ==> exists k :: 0 <= k < |changes| && target == Some(changes[k]) && changes[k].id == id
                                         && forall j :: 0 <= j < k ==> changes[j].id != id
  {
    target := None;
    for k := 0 to |changes|
      invariant target == None && FindChange(changes[..k], id) == None
      invariant forall j :: 0 <= j < k ==> changes[j].id != id
    {
      assert changes[..k + 1][..k] == changes[..k];
      if changes[k].id == id {
        FoundStays(changes, k + 1, id);
        return Some(changes[k]);
      }
    }
    assert changes[..|changes|] == changes;
  }

  lemma {:induction false} FoundStays(events: seq<ChangeEvent>, k: nat, id: ChangeId)
    requires k <= |events| && FindChange(events[..k], id).Some?
    ensures FindChange(events, id) == FindChange(events[..k], id)
  {
    if k < |events| {
      assert events[..|events| - 1][..k] == events[..k];
      FoundStays(events[..|events| - 1], k, id);
    } else {
      assert events[..k] == events;
    }
  }

  lemma {:induction false} FirstRunIs(s: seq<Snapshot>, runId: string, i: nat)
    requires i <= |s| && (i < |s| ==> s[i].runId == runId)
    requires forall j :: 0 <= j < i ==> s[j].runId != runId
    ensures FirstRun(s, runId) == i
  {
  }

  method SortedClone(store: InMemoryHistoryStore) returns (cloned: InMemoryHistoryStore, records: seq<Record>)
    requires store.Valid()
    ensures fresh(cloned) && cloned.Valid() && cloned.Contents() == store.Contents()
    ensures AllDistinct(records) && NowOf(records) == Sort(Time, store.Contents())
    ensures forall i :: 0 <= i < |records| ==> fresh(records[i])
  {
    hide Sort;
    cloned := store.Clone();
    records := SortRecords(cloned.records);
    forall i | 0 <= i < |records| ensures fresh(records[i]) { assert records[i] in records; }
  }

  /** The original store is only read: nothing allocated before the call is modified. */
  method ApplyIntervention(store: InMemoryHistoryStore, iv: Intervention)
    returns (result: Option<InMemoryHistoryStore>)
    requires store.Valid()
    ensures result.Some? <==> Intervene(store.Contents(), iv).Some?
    ensures result.Some? ==> fresh(result.value) && result.value.Valid()
    ensures result.Some? ==> Some(result.value.Contents()) == Intervene(store.Contents(), iv)
  {
    hide Sort, Events, FindChange, ChangedFirst;
    var cloned, records := SortedClone(store);
    if records == [] {
      EmptyHistory(iv.changeId);
      return Some(cloned);
    }
    var changes := ExtractChangeEvents(store);
    var target := ScanForChange(changes, iv.changeId);
    if target == None {
      return Some(cloned);
    }
    var ok := ChangeFirst(records, target.value.runId, iv, target.value.details);
    cloned.records := records;
    result := if ok then Some(cloned) else None;
  }

  /** `for record in records: if record.run_id == ...: ...; break` */
  method ChangeFirst(records: seq<Record>, runId: string, iv: Intervention, details: Details) returns (ok: bool)
    requires AllDistinct(records)
    modifies records
    ensures (if ok then Some(NowOf(records)) else None) == ChangedFirst(old(NowOf(records)), runId, iv, details)
  {
    hide FirstRun, Changed;
    ghost var s := NowOf(records);
    var k := 0;
    while k < |records| && records[k].Now().runId != runId
      invariant k <= |records|
      invariant forall j :: 0 <= j < k ==> s[j].runId != runId
    {
      k := k + 1;
    }
    FirstRunIs(s, runId, k);
    ok := true;
    if k < |records| {
      ok := Change(records[k], iv, details);
      assert ok ==> NowOf(records) == s[k := records[k].Now()];
    }
  }

  lemma EmptyHistory(id: ChangeId)
    ensures Sort(Time, []) == [] && FindChange(Events([]), id) == None
  {
  }

  method Change(record: Record, iv: Intervention, details: Details) returns (ok: bool)
    modifies record
    ensures ok <==> Changed(old(record.Now()), iv, details).Some?
    ensures ok ==> Some(record.Now()) == Changed(old(record.Now()), iv, details)
  {
    ok := true;
    match iv.action {
      case Remove => ok := RevertChange(record, details);
      case Modify => ApplyModify(record, iv.overrides);
      case Other =>
    }
  }

  method ApplyScenario(store: InMemoryHistoryStore, ivs: seq<Intervention>)
    returns (result: Option<InMemoryHistoryStore>)
    requires store.Valid()
    ensures result.Some? <==> Scenario(store.Contents(), ivs).Some?
    ensures result.Some? ==> result.value.Valid() && (ivs == [] || fresh(result.value))
    ensures result.Some? ==> Some(result.value.Contents()) == Scenario(store.Contents(), ivs)
  {
    hide Intervene;
    var current := store;
    for k := 0 to |ivs|
      invariant current.Valid() && (k == 0 || fresh(current))
      invariant Some(current.Contents()) == Scenario(store.Contents(), ivs[..k])
    {
      assert ivs[..k + 1][..k] == ivs[..k];
      var next := ApplyIntervention(current, ivs[k]);
      if next == None {
        ScenarioFails(store.Contents(), ivs, k + 1);
        return None;
      }
      current := next.value;
    }
    assert ivs[..|ivs|] == ivs;
    result := Some(current);
  }

  lemma {:induction false} ScenarioFails(contents: seq<Snapshot>, ivs: seq<Intervention>, k: nat)
    requires k <= |ivs| && Scenario(contents, ivs[..k]) == None
    ensures Scenario(contents, ivs) == None
  {
    if k < |ivs| {
      assert ivs[..|ivs| - 1][..k] == ivs[..k];
      ScenarioFails(contents, ivs[..|ivs| - 1], k);
    } else {
      assert ivs[..k] == ivs;
    }
  }
}
