/** `evaluator/causal/change_extractor.py`: change events between consecutive runs. */
module ChangeExtractor {
  import opened History
  import opened Options
  import opened Sorting

  const SYSTEM_INFO := "system_info"
  const PIPELINE_NAME := "pipeline_name"

  datatype ChangeType = VersionChange | ModelUpdate | ConfigChange | Unknown

  /** `uuid5` of "run_id:timestamp:change_type", taken to be injective on the three parts. */
  datatype ChangeId = ChangeId(runId: string, timestamp: real, changeType: ChangeType)

  datatype FieldDiff = FieldDiff(oldValue: Value, newValue: Value)

  type Diffs = map<string, FieldDiff>

  /** The `details` dict: each entry is present only if that part changed. */
  datatype Details = Details(
    version: Option<FieldDiff>, pipeline: Option<FieldDiff>, info: Option<Diffs>, metadata: Option<Diffs>)

  datatype ChangeEvent = ChangeEvent(
    id: ChangeId, timestamp: real, runId: string, changeType: ChangeType, details: Details)

  /** `system_info` and `pipeline_name` are pulled out of the metadata when present. */
  datatype Signature = Signature(
    version: Value, runId: string, timestamp: real, info: Option<Value>, pipeline: Option<Value>, rest: Fields)

  // ----- Specification --------------------------------------------------------

  function Lookup(fields: Fields, key: string): Option<Value> {
    if key in fields then Some(fields[key]) else None
  }

  /** `sig.get(key)`: a missing entry compares as null. */
  function OrNull(v: Option<Value>): Value { if v.Some? then v.value else Null }

  function Sig(s: Snapshot): Signature {
    Signature(s.version, s.runId, Time(s), Lookup(s.metadata, SYSTEM_INFO), Lookup(s.metadata, PIPELINE_NAME),
              s.metadata - {SYSTEM_INFO, PIPELINE_NAME})
  }

  function DiffFields(prev: Fields, curr: Fields): Diffs {
    map k | k in prev.Keys + curr.Keys && Get(prev, k) != Get(curr, k) :: FieldDiff(Get(prev, k), Get(curr, k))
  }

  /** Fields are only listed one by one when both sides are dicts. */
  function InfoDiffs(prev: Value, curr: Value): Diffs {
    if prev.Dict? && curr.Dict? then DiffFields(prev.fields, curr.fields) else map[]
  }

  function DetailsOf(prev: Signature, curr: Signature): Details {
    Details(
      if prev.version != curr.version then Some(FieldDiff(prev.version, curr.version)) else None,
      if OrNull(prev.pipeline) != OrNull(curr.pipeline)
        then Some(FieldDiff(OrNull(prev.pipeline), OrNull(curr.pipeline))) else None,
      if OrNull(prev.info) != OrNull(curr.info) then Some(InfoDiffs(OrNull(prev.info), OrNull(curr.info))) else None,
      if DiffFields(prev.rest, curr.rest) != map[] then Some(DiffFields(prev.rest, curr.rest)) else None)
  }

  /** A model update outranks a version change, which outranks a configuration change. */
  function TypeOf(prev: Signature, curr: Signature): ChangeType {
    var infoUpdate := OrNull(prev.info) != OrNull(curr.info) && OrNull(prev.info).Dict? && OrNull(curr.info).Dict?;
    var pipelineUpdate := OrNull(prev.pipeline) != OrNull(curr.pipeline);
    if prev.version != curr.version then if infoUpdate then ModelUpdate else VersionChange
    else if pipelineUpdate || infoUpdate then ModelUpdate
    else if DiffFields(prev.rest, curr.rest) != map[] then ConfigChange
    else Unknown
  }

  function Diff(prev: Signature, curr: Signature): Option<ChangeEvent> {
    var details := DetailsOf(prev, curr);
    if details == Details(None, None, None, None) then None
    else
      var changeType := TypeOf(prev, curr);
      Some(ChangeEvent(ChangeId(curr.runId, curr.timestamp, changeType), curr.timestamp, curr.runId, changeType,
          details))
  }

  /** The change, if any, between positions k-1 and k of a time-ordered history. */
  function DiffAt(s: seq<Snapshot>, k: nat): Option<ChangeEvent>
    requires 1 <= k < |s|
  {
    Diff(Sig(s[k - 1]), Sig(s[k]))
  }

  function Listed(event: Option<ChangeEvent>): seq<ChangeEvent> {
    if event.Some? then [event.value] else []
  }

  /** All change events of a time-ordered history, in order. */
  function Events(s: seq<Snapshot>): seq<ChangeEvent> {
    if |s| < 2 then [] else Events(s[..|s| - 1]) + Listed(DiffAt(s, |s| - 1))
  }

  lemma EventsOfNone()
    ensures Events([]) == []
  {
  }

  lemma EventsSnoc(s: seq<Snapshot>, k: nat)
    requires k < |s|
    ensures Events(s[..k + 1]) == if k == 0 then [] else Events(s[..k]) + Listed(DiffAt(s, k))
  {
    assert s[..k + 1][..k] == s[..k];
  }

  // ----- The program ------------------------------------------------------------

  method DiffFieldsLoop(prev: Fields, curr: Fields) returns (changed: Diffs)
    ensures changed == DiffFields(prev, curr)
  {
    changed := map[];
    var keys := prev.Keys + curr.Keys;
    var todo := keys;
    while todo != {}
      invariant todo <= keys
      invariant changed == map k | k in keys - todo
          && Get(prev, k) != Get(curr, k) :: FieldDiff(Get(prev, k), Get(curr, k))
      decreases todo
    {
      var key :| key in todo;
      if Get(prev, key) != Get(curr, key) {
        changed := changed[key := FieldDiff(Get(prev, key), Get(curr, key))];
      }
      todo := todo - {key};
    }
  }

  method DiffSignatures(prev: Signature, curr: Signature) returns (event: Option<ChangeEvent>)
    ensures event == Diff(prev, curr)
  {
    var details := Details(None, None, None, None);
    var changeType, hasChange := Unknown, false;
    if prev.version != curr.version {
      hasChange := true;
      details := details.(version := Some(FieldDiff(prev.version, curr.version)));
      changeType := VersionChange;
    }
    if OrNull(prev.pipeline) != OrNull(curr.pipeline) {
      hasChange := true;
      details := details.(pipeline := Some(FieldDiff(OrNull(prev.pipeline), OrNull(curr.pipeline))));
      if changeType == Unknown { changeType := ModelUpdate; }
    }
    var prevInfo, currInfo := OrNull(prev.info), OrNull(curr.info);
    if prevInfo != currInfo {
      hasChange := true;
      var changedFields: Diffs := map[];
      if prevInfo.Dict? && currInfo.Dict? {
        changedFields := DiffFieldsLoop(prevInfo.fields, currInfo.fields);
        if changeType == Unknown || changeType == VersionChange { changeType := ModelUpdate; }
      }
      details := details.(info := Some(changedFields));
    }
    var metaDiff := DiffFieldsLoop(prev.rest, curr.rest);
    if metaDiff != map[] {
      hasChange := true;
      details := details.(metadata := Some(metaDiff));
      if changeType == Unknown { changeType := ConfigChange; }
    }
    if !hasChange {
      return None;
    }
    event := Some(ChangeEvent(ChangeId(curr.runId, curr.timestamp, changeType), curr.timestamp, curr.runId,
        changeType, details));
  }

  method ExtractChangeEvents(store: InMemoryHistoryStore) returns (changes: seq<ChangeEvent>)
    requires store.Valid()
    ensures changes == Events(Sort(Time, store.Contents()))
  {
    hide Diff, Events, Sort, Sig;
    var records := SortRecords(store.records);
    var s := NowOf(records);
    changes := [];
    EventsOfNone();
    assert s[..0] == [];
    var prev: Option<Signature> := None;
    for k := 0 to |s|
      invariant changes == Events(s[..k])
      invariant prev == if k == 0 then None else Some(Sig(s[k - 1]))
    {
      var curr := Sig(s[k]);
      EventsSnoc(s, k);
      if prev.Some? {
        var detected := DiffSignatures(prev.value, curr);
        if detected.Some? {
          changes := changes + [detected.value];
        }
      }
      prev := Some(curr);
    }
    assert s[..|s|] == s;
  }

  // ----- When two signatures count as equal ---------------------------------------

  ghost predicate SameFields(a: Fields, b: Fields) {
    forall k :: Get(a, k) == Get(b, k)
  }

  /** The comparison the extractor makes: absent and null metadata are the same. */
  ghost predicate Equivalent(p: Signature, q: Signature) {
    p.version == q.version && OrNull(p.pipeline) == OrNull(q.pipeline) && OrNull(p.info) == OrNull(q.info)
    && SameFields(p.rest, q.rest)
  }

  lemma DiffFieldsKeys(a: Fields, b: Fields)
    ensures forall k :: k in DiffFields(a, b) <==> Get(a, k) != Get(b, k)
    ensures DiffFields(a, b) == map[] <==> SameFields(a, b)
  {
  }

  /** An event is reported exactly when the signatures are not equivalent. */
  lemma DiffIffNotEquivalent(prev: Signature, curr: Signature)
    ensures Diff(prev, curr) == None <==> Equivalent(prev, curr)
  {
    DiffFieldsKeys(prev.rest, curr.rest);
  }

  /** Equivalent predecessors give the very same event. */
  lemma DiffOfEquivalent(p: Signature, q: Signature, curr: Signature)
    requires Equivalent(p, q)
    ensures Diff(p, curr) == Diff(q, curr)
  {
    DiffFieldsKeys(p.rest, curr.rest);
    DiffFieldsKeys(q.rest, curr.rest);
    assert DiffFields(p.rest, curr.rest) == DiffFields(q.rest, curr.rest);
  }

  // ----- What an event says -------------------------------------------------------------------

  lemma SigGets(s: Snapshot, k: string)
    ensures Get(s.metadata, k) == if k == SYSTEM_INFO then OrNull(Sig(s).info)
                                  else if k == PIPELINE_NAME then OrNull(Sig(s).pipeline) else Get(Sig(s).rest, k)
  {
    assert |SYSTEM_INFO| != |PIPELINE_NAME|;
  }

  lemma SigRest(s: Snapshot)
    ensures Get(Sig(s).rest, SYSTEM_INFO) == Null && Get(Sig(s).rest, PIPELINE_NAME) == Null
  {
  }

  /** Between two records there is an event exactly when the version or some metadata entry differs, a
      missing entry reading as null. */
  lemma EventIffDifferent(prev: Snapshot, curr: Snapshot)
    ensures Diff(Sig(prev), Sig(curr)).Some?
            <==> prev.version != curr.version || exists k :: Get(prev.metadata, k) != Get(curr.metadata, k)
  {
    hide Diff, Sig, Equivalent;
    DiffIffNotEquivalent(Sig(prev), Sig(curr));
    EquivalentMeans(prev, curr);
  }

  lemma EquivalentMeans(prev: Snapshot, curr: Snapshot)
    ensures Equivalent(Sig(prev), Sig(curr))
            <==> prev.version == curr.version && forall k :: Get(prev.metadata, k) == Get(curr.metadata, k)
  {
    hide Sig;
    assert Sig(prev).version == prev.version && Sig(curr).version == curr.version by { SigKeeps(prev); SigKeeps(curr); }
    SigRest(prev);
    SigRest(curr);
    SigGets(prev, SYSTEM_INFO);
    SigGets(curr, SYSTEM_INFO);
    SigGets(prev, PIPELINE_NAME);
    SigGets(curr, PIPELINE_NAME);
    assert |SYSTEM_INFO| != |PIPELINE_NAME|;
    forall k | k != SYSTEM_INFO && k != PIPELINE_NAME
      ensures Get(prev.metadata, k) == Get(Sig(prev).rest, k) && Get(curr.metadata, k) == Get(Sig(curr).rest, k)
    {
      SigGets(prev, k);
      SigGets(curr, k);
    }
  }

  lemma SigKeeps(s: Snapshot)
    ensures Sig(s).version == s.version && Sig(s).runId == s.runId
    ensures if s.timestamp.Some? then Sig(s).timestamp == s.timestamp.value else Sig(s).timestamp == 0.0
  {
  }

  /** Both infos are dicts, and they differ. */
  ghost predicate InfoUpdated(prev: Snapshot, curr: Snapshot) {
    var p, c := Get(prev.metadata, SYSTEM_INFO), Get(curr.metadata, SYSTEM_INFO);
    p != c && p.Dict? && c.Dict?
  }

  ghost predicate EntryDiffers(prev: Snapshot, curr: Snapshot, k: string) {
    Get(prev.metadata, k) != Get(curr.metadata, k)
  }

  ghost predicate OtherEntryDiffers(prev: Snapshot, curr: Snapshot) {
    exists k :: k != SYSTEM_INFO && k != PIPELINE_NAME && EntryDiffers(prev, curr, k)
  }

  lemma RestDiffers(prev: Snapshot, curr: Snapshot)
    ensures DiffFields(Sig(prev).rest, Sig(curr).rest) != map[] <==> OtherEntryDiffers(prev, curr)
  {
    hide Sig;
    DiffFieldsKeys(Sig(prev).rest, Sig(curr).rest);
    SigRest(prev);
    SigRest(curr);
    forall k | k != SYSTEM_INFO && k != PIPELINE_NAME
      ensures EntryDiffers(prev, curr, k) <==> Get(Sig(prev).rest, k) != Get(Sig(curr).rest, k)
    {
      SigGets(prev, k);
      SigGets(curr, k);
    }
    if !SameFields(Sig(prev).rest, Sig(curr).rest) {
      var k :| Get(Sig(prev).rest, k) != Get(Sig(curr).rest, k);
      assert EntryDiffers(prev, curr, k);
    }
  }

  /** Whose event it is, and of which type: a changed dict of system info, or a pipeline change without a version
      change, is a model update; any other version change is that; then come the other entries; and a system info that
      is not a dict on both sides leaves the type unknown. */
  lemma EventTypeMeans(prev: Snapshot, curr: Snapshot)
    requires Diff(Sig(prev), Sig(curr)).Some?
    ensures var e := Diff(Sig(prev), Sig(curr)).value;
            && e.runId == curr.runId && e.timestamp == (if curr.timestamp.Some? then curr.timestamp.value else 0.0)
            && e.id == ChangeId(e.runId, e.timestamp, e.changeType)
            && (e.changeType == ModelUpdate <==>
                  InfoUpdated(prev, curr) || (prev.version == curr.version && EntryDiffers(prev, curr, PIPELINE_NAME)))
            && (e.changeType == VersionChange <==> prev.version != curr.version && !InfoUpdated(prev, curr))
            && (e.changeType == ConfigChange <==>
                  && prev.version == curr.version && !InfoUpdated(prev, curr)
                  && !EntryDiffers(prev, curr, PIPELINE_NAME) && OtherEntryDiffers(prev, curr))
            && (e.changeType == Unknown <==>
                  && prev.version == curr.version && !InfoUpdated(prev, curr)
                  && !EntryDiffers(prev, curr, PIPELINE_NAME) && !OtherEntryDiffers(prev, curr))
  {
    hide Sig, DiffFields, OtherEntryDiffers, DetailsOf;
    SigKeeps(prev);
    SigKeeps(curr);
    RestDiffers(prev, curr);
    SigGets(prev, SYSTEM_INFO);
    SigGets(curr, SYSTEM_INFO);
    SigGets(prev, PIPELINE_NAME);
    SigGets(curr, PIPELINE_NAME);
    assert |SYSTEM_INFO| != |PIPELINE_NAME|;
  }

  /** Each part of the details is there exactly when that part differs, with the earlier value as the old one
      and the later value as the new one, entry by entry; system info is listed by field only between dicts. */
  lemma EventDetailsMean(prev: Snapshot, curr: Snapshot)
    ensures var d := DetailsOf(Sig(prev), Sig(curr));
            && (d.version.Some? <==> prev.version != curr.version)
            && (d.version.Some? ==> d.version.value == FieldDiff(prev.version, curr.version))
            && (d.pipeline.Some? <==> EntryDiffers(prev, curr, PIPELINE_NAME))
            && (d.pipeline.Some? ==>
                  d.pipeline.value == FieldDiff(Get(prev.metadata, PIPELINE_NAME), Get(curr.metadata, PIPELINE_NAME)))
            && (d.info.Some? <==> EntryDiffers(prev, curr, SYSTEM_INFO))
            && (d.info.Some? && !InfoUpdated(prev, curr) ==> d.info.value == map[])
            && (d.metadata.Some? <==> OtherEntryDiffers(prev, curr))
    ensures forall k :: var d := DetailsOf(Sig(prev), Sig(curr));
              d.metadata.Some? ==>
                && (k in d.metadata.value <==> k != SYSTEM_INFO && k != PIPELINE_NAME && EntryDiffers(prev, curr, k))
                && (k in d.metadata.value ==>
                      d.metadata.value[k] == FieldDiff(Get(prev.metadata, k), Get(curr.metadata, k)))
  {
    hide Sig, OtherEntryDiffers;
    SigKeeps(prev);
    SigKeeps(curr);
    RestDiffers(prev, curr);
    SigRest(prev);
    SigRest(curr);
    assert |SYSTEM_INFO| != |PIPELINE_NAME|;
    forall k { SigGets(prev, k); }
    forall k { SigGets(curr, k); }
  }

  lemma InfoDetailsMean(prev: Snapshot, curr: Snapshot, k: string)
    requires InfoUpdated(prev, curr)
    ensures var d, p, c := DetailsOf(Sig(prev), Sig(curr)), Get(prev.metadata, SYSTEM_INFO).fields,
                           Get(curr.metadata, SYSTEM_INFO).fields;
            && d.info.Some? && (k in d.info.value <==> Get(p, k) != Get(c, k))
            && (k in d.info.value ==> d.info.value[k] == FieldDiff(Get(p, k), Get(c, k)))
  {
    hide Sig;
    SigGets(prev, SYSTEM_INFO);
    SigGets(curr, SYSTEM_INFO);
  }

  // ----- Which events a history has -----------------------------------------------------------

  ghost predicate ChangesAt(s: seq<Snapshot>, k: int) { 1 <= k < |s| && DiffAt(s, k).Some? }

  lemma ChangesInPrefix(s: seq<Snapshot>, n: nat)
    requires n <= |s|
    ensures forall k :: ChangesAt(s[..n], k) <==> k < n && ChangesAt(s, k)
    ensures forall k :: ChangesAt(s[..n], k) ==> DiffAt(s[..n], k) == DiffAt(s, k)
  {
    hide Diff, Sig;
  }

  ghost predicate IsChangeOf(e: ChangeEvent, s: seq<Snapshot>) {
    exists k :: ChangesAt(s, k) && DiffAt(s, k).value == e
  }

  lemma IsChangeSnoc(e: ChangeEvent, s: seq<Snapshot>)
    requires |s| >= 2
    ensures var n := |s| - 1; IsChangeOf(e, s) <==> IsChangeOf(e, s[..n]) || e in Listed(DiffAt(s, n))
  {
    hide Diff, Sig;
    var n := |s| - 1;
    ChangesInPrefix(s, n);
    if IsChangeOf(e, s[..n]) {
      var k :| ChangesAt(s[..n], k) && DiffAt(s[..n], k).value == e;
      assert ChangesAt(s, k);
    }
    if e in Listed(DiffAt(s, n)) {
      assert ChangesAt(s, n);
    }
    if IsChangeOf(e, s) {
      var k :| ChangesAt(s, k) && DiffAt(s, k).value == e;
      assert k < n ==> ChangesAt(s[..n], k);
    }
  }

  ghost function ChangeCount(s: seq<Snapshot>): nat { |set k | 1 <= k < |s| && ChangesAt(s, k)| }

  lemma ChangeCountSnoc(s: seq<Snapshot>)
    requires |s| >= 2
    ensures var n := |s| - 1; ChangeCount(s) == ChangeCount(s[..n]) + |Listed(DiffAt(s, n))|
  {
    hide Diff, Sig;
    var n := |s| - 1;
    ChangesInPrefix(s, n);
    assert (set k | 1 <= k < |s| && ChangesAt(s, k))
        == (set k | 1 <= k < |s[..n]| && ChangesAt(s[..n], k)) + if ChangesAt(s, n) then {n} else {};
  }

  /** A history has exactly the events of its positions, one for each that changes. */
  lemma {:induction false} EventsAre(s: seq<Snapshot>)
    ensures (forall e :: e in Events(s) <==> IsChangeOf(e, s)) && |Events(s)| == ChangeCount(s)
  {
    if |s| < 2 {
      assert (set k | 1 <= k < |s| && ChangesAt(s, k)) == {};
    } else {
      hide Diff, Sig, IsChangeOf, ChangeCount;
      EventsAre(s[..|s| - 1]);
      ChangeCountSnoc(s);
      forall e ensures e in Events(s) <==> IsChangeOf(e, s) {
        IsChangeSnoc(e, s);
      }
    }
  }

  /** In a time-ordered history they come in time order. */
  lemma {:induction false} EventsInOrder(s: seq<Snapshot>)
    requires SortedBy(Time, s)
    ensures forall i, j :: 0 <= i < j < |Events(s)| ==> Events(s)[i].timestamp <= Events(s)[j].timestamp
    ensures forall e :: e in Events(s) ==> s != [] && e.timestamp <= Time(s[|s| - 1])
  {
    hide DetailsOf, TypeOf;
    if |s| < 2 {
    } else {
      var n := |s| - 1;
      EventsInOrder(s[..n]);
      assert Time(s[n - 1]) <= Time(s[n]) && s[..n][n - 1] == s[n - 1];
      forall e | e in Listed(DiffAt(s, n)) ensures e.timestamp == Time(s[n]) {}
    }
  }
}
