/**
  When the order of two removals matters. Removals at positions that are not
  neighbours always commute. For neighbours i and i+1 the outcome is decided by
  record i+1 alone, and the exact condition is a comparison of three records.
*/
module RemovalOrder {
  import opened ChangeExtractor
  import opened History
  import opened Options
  import opened Simulator
  import opened SimulatorLaws
  import opened Sorting

  // ----- One record reverted against two different predecessors -----------------------

  /** Everything the extractor compares, except `system_info`. */
  ghost predicate SameOutsideInfo(p: Signature, q: Signature) {
    p.version == q.version && OrNull(p.pipeline) == OrNull(q.pipeline) && SameFields(p.rest, q.rest)
  }

  /** The `system_info` that a record with `curr` is left with after a revert towards `prev`. */
  function InfoAfter(prev: Option<Value>, curr: Option<Value>): Option<Value> {
    if OrNull(prev) == OrNull(curr) then curr
    else
      var base := if curr.Some? then curr.value else Dict(map[]);
      if base.Dict? then Some(Dict(base.fields + Olds(InfoDiffs(OrNull(prev), OrNull(curr))))) else Some(base)
  }

  function RevertTowards(prev: Signature, curr: Snapshot): Snapshot { Reverted(curr, DetailsOf(prev, Sig(curr))) }

  lemma RevertedInfoIs(prev: Snapshot, curr: Snapshot)
    ensures InfoOf(RevertTowards(Sig(prev), curr)) == InfoAfter(InfoOf(prev), InfoOf(curr))
  {
    KeysDiffer();
  }

  /** Entries other than `system_info` depend on the predecessor only through what is compared there. */
  lemma RevertedElsewhere(p: Signature, q: Signature, curr: Snapshot, k: string)
    requires SameOutsideInfo(p, q) && k != SYSTEM_INFO
    ensures Lookup(RevertTowards(p, curr).metadata, k) == Lookup(RevertTowards(q, curr).metadata, k)
  {
    hide InfoReverted;
    KeysDiffer();
    SameDiffs(p.rest, q.rest, Sig(curr).rest);
    ElsewhereIs(p, curr, k);
    ElsewhereIs(q, curr, k);
  }

  lemma SameDiffs(a: Fields, b: Fields, c: Fields)
    requires SameFields(a, b)
    ensures DiffFields(a, c) == DiffFields(b, c)
  {
    DiffFieldsKeys(a, c);
    DiffFieldsKeys(b, c);
  }

  lemma ElsewhereIs(p: Signature, curr: Snapshot, k: string)
    requires k != SYSTEM_INFO
    ensures var d := DetailsOf(p, Sig(curr));
            Lookup(RevertTowards(p, curr).metadata, k)
            == if d.metadata.Some? && k in d.metadata.value then Some(d.metadata.value[k].oldValue)
               else Lookup(PipelineReverted(curr.metadata, d), k)
  {
    hide InfoReverted, DetailsOf;
    var d := DetailsOf(p, Sig(curr));
    if d.info.Some? {
      InfoRevertedElsewhere(PipelineReverted(curr.metadata, d), d.info.value);
    }
  }

  lemma RevertShows(prev: Snapshot, curr: Snapshot)
    ensures SameOutsideInfo(Sig(RevertTowards(Sig(prev), curr)), Sig(prev))
  {
    RevertedRest(prev, curr);
    SigVersion(prev);
  }

  /** Reverting one record towards p and towards q gives the same record exactly when p and q agree
      outside `system_info` and lead to the same `system_info`. */
  lemma SameRevertIff(p: Snapshot, q: Snapshot, curr: Snapshot)
    ensures RevertTowards(Sig(p), curr) == RevertTowards(Sig(q), curr)
            <==> && SameOutsideInfo(Sig(p), Sig(q))
                 && InfoAfter(InfoOf(p), InfoOf(curr)) == InfoAfter(InfoOf(q), InfoOf(curr))
  {
    hide RevertTowards, InfoAfter, InfoOf;
    var x, y := RevertTowards(Sig(p), curr), RevertTowards(Sig(q), curr);
    RevertShows(p, curr);
    RevertShows(q, curr);
    RevertedInfoIs(p, curr);
    RevertedInfoIs(q, curr);
    OnlyMetadataAndVersion(Sig(p), curr);
    OnlyMetadataAndVersion(Sig(q), curr);
    if SameOutsideInfo(Sig(p), Sig(q)) && InfoOf(x) == InfoOf(y) {
      forall k ensures Lookup(x.metadata, k) == Lookup(y.metadata, k) {
        if k == SYSTEM_INFO {
          InfoIsEntry(x);
          InfoIsEntry(y);
        } else {
          RevertedElsewhere(Sig(p), Sig(q), curr, k);
        }
      }
      SameLookups(x.metadata, y.metadata);
    }
  }

  lemma InfoIsEntry(s: Snapshot)
    ensures InfoOf(s) == Lookup(s.metadata, SYSTEM_INFO)
  {
  }

  lemma OnlyMetadataAndVersion(p: Signature, curr: Snapshot)
    ensures var r := RevertTowards(p, curr); r == curr.(version := p.version, metadata := r.metadata)
  {
  }

  lemma SameLookups(m: Fields, n: Fields)
    requires forall k :: Lookup(m, k) == Lookup(n, k)
    ensures m == n
  {
    forall k ensures k in m <==> k in n {
      assert Lookup(m, k) == Lookup(n, k);
    }
    forall k | k in m ensures m[k] == n[k] {
      assert Lookup(m, k) == Lookup(n, k);
    }
  }

  /** A record reverted towards itself stays as it is. */
  lemma RevertTowardsItself(curr: Snapshot)
    ensures RevertTowards(Sig(curr), curr) == curr
  {
    DiffFieldsKeys(Sig(curr).rest, Sig(curr).rest);
  }

  // ----- What a revert restores to the letter ---------------------------------------------

  function EntryAfter(prev: Fields, curr: Fields, k: string): Option<Value> {
    if Get(prev, k) != Get(curr, k) then Some(Get(prev, k)) else Lookup(curr, k)
  }

  /** Outside `system_info`, an entry that differs is written, and any other is left as it is. */
  lemma EntryAfterRevert(prev: Snapshot, curr: Snapshot, k: string)
    requires k != SYSTEM_INFO
    ensures Lookup(RevertTowards(Sig(prev), curr).metadata, k) == EntryAfter(prev.metadata, curr.metadata, k)
  {
    hide RevertTowards, InfoReverted, DiffFields;
    KeysDiffer();
    ElsewhereIs(Sig(prev), curr, k);
    DiffFieldsKeys(Sig(prev).rest, Sig(curr).rest);
    RestOf(prev, k);
    RestOf(curr, k);
    if k in DiffFields(Sig(prev).rest, Sig(curr).rest) {
      DiffEntry(Sig(prev).rest, Sig(curr).rest, k);
    }
  }

  /** The revert leaves exactly the predecessor's entries when the later record adds none, and every
      one that it lacks held a value other than null. */
  ghost predicate EntriesRestorable(prev: Fields, curr: Fields) {
    && (forall k :: k in curr && k != SYSTEM_INFO ==> k in prev)
    && (forall k :: k in prev && k !in curr && k != SYSTEM_INFO ==> prev[k] != Null)
  }

  /** To the letter, with null and absent told apart: a revert restores version and metadata exactly when
      the entries are restorable and the `system_info` comes out as it was. */
  lemma RevertRestoresIff(prev: Snapshot, curr: Snapshot)
    ensures var r := RevertTowards(Sig(prev), curr);
            (r.version == prev.version && r.metadata == prev.metadata)
            <==> && EntriesRestorable(prev.metadata, curr.metadata)
                 && InfoAfter(InfoOf(prev), InfoOf(curr)) == InfoOf(prev)
  {
    hide RevertTowards, InfoAfter, Sig;
    var r := RevertTowards(Sig(prev), curr);
    OnlyMetadataAndVersion(Sig(prev), curr);
    SigVersion(prev);
    RevertedInfoIs(prev, curr);
    forall k | k != SYSTEM_INFO
      ensures Lookup(r.metadata, k) == EntryAfter(prev.metadata, curr.metadata, k)
    {
      EntryAfterRevert(prev, curr, k);
    }
    EntriesRestored(prev.metadata, curr.metadata);
    if EntriesRestorable(prev.metadata, curr.metadata) && InfoOf(r) == InfoOf(prev) {
      SameLookups(r.metadata, prev.metadata);
    }
  }

  lemma EntriesRestored(prev: Fields, curr: Fields)
    ensures EntriesRestorable(prev, curr)
            <==> forall k :: k != SYSTEM_INFO ==> EntryAfter(prev, curr, k) == Lookup(prev, k)
  {
    if forall k :: k != SYSTEM_INFO ==> EntryAfter(prev, curr, k) == Lookup(prev, k) {
      forall k | k in curr && k != SYSTEM_INFO ensures k in prev {
        assert EntryAfter(prev, curr, k) == Lookup(prev, k);
      }
      forall k | k in prev && k !in curr && k != SYSTEM_INFO ensures prev[k] != Null {
        assert EntryAfter(prev, curr, k) == Lookup(prev, k);
      }
    }
  }

  /** For instance: a key that is new in a run is left behind as null. The extractor takes that for
      restored, but the metadata is not what it was. */
  lemma AddedKeyStaysAsNull(prev: Snapshot, curr: Snapshot, k: string, x: Value)
    requires k != SYSTEM_INFO && x != Null && prev.metadata == map[] && curr.metadata == map[k := x]
    ensures InfoRestorable(InfoOf(prev), InfoOf(curr))
    ensures var r := RevertTowards(Sig(prev), curr);
            Equivalent(Sig(r), Sig(prev)) && r.metadata == map[k := Null] && r.metadata != prev.metadata
  {
    hide RevertTowards, Sig, Equivalent;
    var r := RevertTowards(Sig(prev), curr);
    RevertUndoesChange(prev, curr);
    assert r == Reverted(curr, DetailsOf(Sig(prev), Sig(curr))) by { RevertTowardsIs(Sig(prev), curr); }
    RevertedInfoIs(prev, curr);
    forall l ensures Lookup(r.metadata, l) == Lookup(map[k := Null], l) {
      if l == SYSTEM_INFO {
        InfoIsEntry(r);
      } else {
        EntryAfterRevert(prev, curr, l);
      }
    }
    SameLookups(r.metadata, map[k := Null]);
    assert k in r.metadata;
  }

  lemma RevertTowardsIs(prev: Signature, curr: Snapshot)
    ensures RevertTowards(prev, curr) == Reverted(curr, DetailsOf(prev, Sig(curr)))
  {
  }

  // ----- The two orders ------------------------------------------------------------------

  /** In a time-ordered history both records have a change that a removal finds by its id. */
  ghost predicate TwoRemovals(s: seq<Snapshot>, i: nat, j: nat, first: Intervention, second: Intervention) {
    && SortedBy(Time, s) && DistinctRuns(s) && 1 <= i < j < |s|
    && DiffAt(s, i).Some? && first.action == Remove && first.changeId == DiffAt(s, i).value.id
    && DiffAt(s, j).Some? && second.action == Remove && second.changeId == DiffAt(s, j).value.id
  }

  /** Whether the change at i+1 still carries its id once the change at i is gone. */
  predicate StillFound(s: seq<Snapshot>, i: nat)
    requires 1 <= i && i + 1 < |s|
  {
    var now := DiffAt(WithRecord(s, i), i + 1);
    now.Some? && DiffAt(s, i + 1).Some? && now.value.id == DiffAt(s, i + 1).value.id
  }

  /** What record i+1 is compared with in the first-second order: the reverted record i, or,
      when its own change is no longer found, itself. */
  function Predecessor(s: seq<Snapshot>, i: nat): Snapshot
    requires 1 <= i && i + 1 < |s|
  {
    if StillFound(s, i) then WithRecord(s, i)[i] else s[i + 1]
  }

  /** The history after the two removals, for either order. */
  function BothRemoved(s: seq<Snapshot>, i: nat, predecessor: Snapshot): seq<Snapshot>
    requires 1 <= i && i + 1 < |s|
  {
    WithRecord(s, i)[i + 1 := RevertTowards(Sig(predecessor), s[i + 1])]
  }

  lemma NotFoundChangesNothing(s: seq<Snapshot>, iv: Intervention, k: nat)
    requires SortedBy(Time, s) && DistinctRuns(s) && 1 <= k < |s| && iv.changeId.runId == s[k].runId
    requires DiffAt(s, k) == None || DiffAt(s, k).value.id != iv.changeId
    ensures Intervene(s, iv) == Some(s)
  {
    hide Diff, Sig, Sort, FindChange, Events;
    SortOfSorted(Time, s);
    if FindChange(Events(s), iv.changeId).Some? {
      var l := FoundEventHasPosition(s, iv.changeId);
      FoundHasId(Events(s), iv.changeId);
      DiffCarriesRun(Sig(s[l - 1]), Sig(s[l]));
      SigVersion(s[l]);
      assert false;
    }
  }

  lemma {:induction false} FoundHasId(events: seq<ChangeEvent>, id: ChangeId)
    requires FindChange(events, id).Some?
    ensures FindChange(events, id).value.id == id
  {
    if FindChange(events[..|events| - 1], id).Some? {
      FoundHasId(events[..|events| - 1], id);
    } else {
    }
  }

  lemma RunsStayDistinct(s: seq<Snapshot>, k: nat)
    requires DistinctRuns(s) && SortedBy(Time, s) && 1 <= k < |s|
    ensures DistinctRuns(WithRecord(s, k)) && SortedBy(Time, WithRecord(s, k))
    ensures FirstOfRun(s, k) && forall l :: 0 <= l < |s| ==> FirstOfRun(WithRecord(s, k), l)
  {
    RunsKept(s, k);
    KeepsTime(s, k);
  }

  /** Removing the earlier of two neighbouring changes first. */
  lemma EarlierFirst(s: seq<Snapshot>, i: nat, first: Intervention, second: Intervention)
    requires TwoRemovals(s, i, i + 1, first, second)
    ensures Scenario(s, [first, second]) == Some(BothRemoved(s, i, Predecessor(s, i)))
  {
    hide Sort, Intervene, Scenario, Diff, Sig, Reverted, DetailsOf;
    var si := WithRecord(s, i);
    SortOfSorted(Time, s);
    RunsStayDistinct(s, i);
    RemoveReverts(s, s, i, first);
    DiffCarriesRun(Sig(s[i]), Sig(s[i + 1]));
    SigVersion(s[i + 1]);
    ScenarioOfTwo(s, first, second);
    SortOfSorted(Time, si);
    if StillFound(s, i) {
      RemoveReverts(si, si, i + 1, second);
    } else {
      NotFoundChangesNothing(si, second, i + 1);
      RevertTowardsItself(s[i + 1]);
      assert BothRemoved(s, i, s[i + 1]) == si;
    }
  }

  /** Removing the later one first. */
  lemma LaterFirst(s: seq<Snapshot>, i: nat, first: Intervention, second: Intervention)
    requires TwoRemovals(s, i, i + 1, first, second)
    ensures Scenario(s, [second, first]) == Some(BothRemoved(s, i, s[i]))
  {
    hide Sort, Intervene, Scenario, Diff, Sig, Reverted, DetailsOf;
    var sj := WithRecord(s, i + 1);
    SortOfSorted(Time, s);
    RunsStayDistinct(s, i + 1);
    RemoveReverts(s, s, i + 1, second);
    SortOfSorted(Time, sj);
    RemoveReverts(sj, sj, i, first);
    ScenarioOfTwo(s, second, first);
    assert WithRecord(sj, i) == BothRemoved(s, i, s[i]);
  }

  // ----- Exactly when two removals commute -------------------------------------------------

  /** A history that is not stored in time order is put in time order by the first removal. */
  lemma StoredOrderIrrelevant(contents: seq<Snapshot>, s: seq<Snapshot>, i: nat, j: nat,
                              first: Intervention, second: Intervention)
    requires s == Sort(Time, contents) && TwoRemovals(s, i, j, first, second)
    ensures Scenario(contents, [first, second]) == Scenario(s, [first, second])
    ensures Scenario(contents, [second, first]) == Scenario(s, [second, first])
  {
    hide Sort, Intervene, Scenario, Diff, Sig, Reverted, DetailsOf;
    SortOfSorted(Time, s);
    RemoveReverts(contents, s, i, first);
    RemoveReverts(contents, s, j, second);
    RemoveReverts(s, s, i, first);
    RemoveReverts(s, s, j, second);
    ScenarioOfTwo(contents, first, second);
    ScenarioOfTwo(contents, second, first);
    ScenarioOfTwo(s, first, second);
    ScenarioOfTwo(s, second, first);
  }

  predicate Commute(contents: seq<Snapshot>, first: Intervention, second: Intervention) {
    Scenario(contents, [first, second]) == Scenario(contents, [second, first])
  }

  /** Record i and `Predecessor` cannot be told apart by what a revert of record i+1 writes. */
  ghost predicate SameTarget(s: seq<Snapshot>, i: nat)
    requires 1 <= i && i + 1 < |s|
  {
    var y := Predecessor(s, i);
    && SameOutsideInfo(Sig(y), Sig(s[i]))
    && InfoAfter(InfoOf(y), InfoOf(s[i + 1])) == InfoAfter(InfoOf(s[i]), InfoOf(s[i + 1]))
  }

  /** With distinct runs, neighbouring removals commute if and only if record i and the record that i+1 is
      compared with after the first removal agree outside `system_info` and lead to one `system_info`. */
  lemma NeighboursCommuteIff(contents: seq<Snapshot>, s: seq<Snapshot>, i: nat, first: Intervention,
      second: Intervention)
    requires s == Sort(Time, contents) && TwoRemovals(s, i, i + 1, first, second)
    ensures Commute(contents, first, second) <==> SameTarget(s, i)
  {
    hide Scenario, RevertTowards, Predecessor, InfoAfter, InfoOf, Sig, SameOutsideInfo, Reverted, DetailsOf, Sort;
    StoredOrderIrrelevant(contents, s, i, i + 1, first, second);
    EarlierFirst(s, i, first, second);
    LaterFirst(s, i, first, second);
    var x, y := BothRemoved(s, i, Predecessor(s, i)), BothRemoved(s, i, s[i]);
    assert x == y <==> x[i + 1] == y[i + 1];
    SameRevertIff(Predecessor(s, i), s[i], s[i + 1]);
  }

  /** Every revert that the two removals make restores `system_info`. */
  ghost predicate AllRestorable(s: seq<Snapshot>, i: nat)
    requires 1 <= i && i + 1 < |s|
  {
    && InfoRestorable(InfoOf(s[i - 1]), InfoOf(s[i])) && InfoRestorable(InfoOf(s[i]), InfoOf(s[i + 1]))
    && InfoRestorable(InfoOf(WithRecord(s, i)[i]), InfoOf(s[i + 1]))
  }

  lemma EquivalentTransitive(p: Signature, q: Signature, r: Signature)
    requires Equivalent(p, q) && Equivalent(q, r)
    ensures Equivalent(p, r)
  {
  }

  lemma RestorableNeighboursDiffer(s: seq<Snapshot>, i: nat, first: Intervention, second: Intervention)
    requires TwoRemovals(s, i, i + 1, first, second) && AllRestorable(s, i)
    ensures !Commute(s, first, second)
  {
    hide Scenario, InfoRestorable, InfoOf, Sig, Equivalent, Reverted, DetailsOf;
    EarlierFirst(s, i, first, second);
    LaterFirst(s, i, first, second);
    var p, q, r, c := s[i - 1], s[i], WithRecord(s, i)[i], s[i + 1];
    var early, late := RevertTowards(Sig(Predecessor(s, i)), c), RevertTowards(Sig(q), c);
    assert BothRemoved(s, i, Predecessor(s, i))[i + 1] == early && BothRemoved(s, i, q)[i + 1] == late;
    DiffIffNotEquivalent(Sig(p), Sig(q));
    DiffIffNotEquivalent(Sig(q), Sig(c));
    RevertUndoesChange(p, q);
    RevertUndoesChange(q, c);
    if early == late {
      EquivalentSymmetric(Sig(late), Sig(q));
      if StillFound(s, i) {
        RevertUndoesChange(r, c);
        EquivalentSymmetric(Sig(r), Sig(p));
        EquivalentSymmetric(Sig(early), Sig(r));
        EquivalentTransitive(Sig(p), Sig(r), Sig(early));
        EquivalentTransitive(Sig(p), Sig(early), Sig(q));
      } else {
        RevertTowardsItself(c);
      }
      assert false;
    }
  }

  /** As long as the reverts restore `system_info`, two removals commute if and only if they are not
      neighbours: neighbours never do. */
  lemma RemovalsCommuteIff(contents: seq<Snapshot>, s: seq<Snapshot>, i: nat, j: nat,
                           first: Intervention, second: Intervention)
    requires s == Sort(Time, contents) && TwoRemovals(s, i, j, first, second)
    requires j == i + 1 ==> AllRestorable(s, i)
    ensures Commute(contents, first, second) <==> i + 2 <= j
  {
    hide Scenario, AllRestorable, DiffAt, Sort;
    if j == i + 1 {
      StoredOrderIrrelevant(contents, s, i, j, first, second);
      RestorableNeighboursDiffer(s, i, first, second);
    } else {
      SeparatedRemovalsCommute(contents, s, i, j, first, second);
    }
  }

  /** Where a change only adds a `system_info`, its removal writes nothing, and the order is irrelevant
      even for neighbours: restorability is needed above. */
  lemma AddedInfoNeighboursCommute(contents: seq<Snapshot>, s: seq<Snapshot>, i: nat,
                                   first: Intervention, second: Intervention)
    requires s == Sort(Time, contents) && TwoRemovals(s, i, i + 1, first, second)
    requires SameOutsideInfo(Sig(s[i - 1]), Sig(s[i])) && !OrNull(InfoOf(s[i - 1])).Dict? && InfoOf(s[i]).Some?
    ensures WithRecord(s, i) == s && !InfoRestorable(InfoOf(s[i - 1]), InfoOf(s[i]))
    ensures Commute(contents, first, second)
  {
    hide InfoAfter, InfoOf, Sig, SameOutsideInfo, Reverted, DetailsOf, Scenario, Sort, InfoRestorable;
    var p, q := s[i - 1], s[i];
    NothingWritten(InfoOf(p), InfoOf(q));
    SameRevertIff(p, q, q);
    RevertTowardsItself(q);
    assert WithRecord(s, i) == s;
    NotReverted(p, q);
    assert SameOutsideInfo(Sig(q), Sig(q)) by { SameOutsideItself(Sig(q)); }
    NeighboursCommuteIff(contents, s, i, first, second);
  }

  lemma NothingWritten(prev: Option<Value>, curr: Option<Value>)
    requires !OrNull(prev).Dict? && curr.Some?
    ensures InfoAfter(prev, curr) == InfoAfter(curr, curr)
  {
    assert Olds(map[]) == map[];
    if curr.value.Dict? {
      assert curr.value.fields + map[] == curr.value.fields;
    }
  }

  lemma SameOutsideItself(p: Signature)
    ensures SameOutsideInfo(p, p)
  {
  }

  /** A record that a revert leaves as it is, although it differs, was not restorable. */
  lemma NotReverted(p: Snapshot, q: Snapshot)
    requires Diff(Sig(p), Sig(q)).Some? && RevertTowards(Sig(p), q) == q
    ensures !InfoRestorable(InfoOf(p), InfoOf(q))
  {
    hide InfoRestorable, InfoOf, Sig, Reverted, DetailsOf;
    RevertUndoesChange(p, q);
    DiffIffNotEquivalent(Sig(p), Sig(q));
    EquivalentSymmetric(Sig(p), Sig(q));
  }

  // ----- Instances ----------------------------------------------------------------------

  function ThreeRuns(a: (Value, Fields), b: (Value, Fields), c: (Value, Fields)): seq<Snapshot> {
    [Snapshot("0", Some(1.0), a.0, a.1, []), Snapshot("1", Some(2.0), b.0, b.1, []),
     Snapshot("2", Some(3.0), c.0, c.1, [])]
  }

  function VersionHistory(x: Value, y: Value, z: Value): seq<Snapshot> {
    ThreeRuns((x, map[]), (y, map[]), (z, map[]))
  }

  lemma VersionRevert(p: Snapshot, curr: Snapshot)
    requires p.metadata == curr.metadata == map[]
    ensures RevertTowards(Sig(p), curr) == curr.(version := p.version)
    ensures Diff(Sig(p), Sig(curr)) == None <==> p.version == curr.version
    ensures Diff(Sig(p), Sig(curr)).Some? ==>
              Diff(Sig(p), Sig(curr)).value.id == ChangeId(curr.runId, Time(curr), VersionChange)
  {
  }

  /** A version goes x -> y -> z: undoing the earlier change first leaves x, x, x, and undoing the
      later one first leaves x, x, y. */
  lemma VersionRemovalsDiffer(x: Value, y: Value, z: Value, first: Intervention, second: Intervention)
    requires x != y && y != z && first.action == Remove && second.action == Remove
    requires first.changeId == ChangeId("1", 2.0, VersionChange) && second.changeId == ChangeId("2", 3.0, VersionChange)
    ensures Scenario(VersionHistory(x, y, z), [first, second]) == Some(VersionHistory(x, x, x))
    ensures Scenario(VersionHistory(x, y, z), [second, first]) == Some(VersionHistory(x, x, y))
    ensures VersionHistory(x, x, x) != VersionHistory(x, x, y)
  {
    hide Scenario, Diff, Sig, Reverted, DetailsOf;
    var s := VersionHistory(x, y, z);
    VersionRevert(s[0], s[1]);
    VersionRevert(s[1], s[2]);
    assert TwoRemovals(s, 1, 2, first, second);
    EarlierFirst(s, 1, first, second);
    LaterFirst(s, 1, first, second);
    var r := WithRecord(s, 1)[1];
    assert r == RevertTowards(Sig(s[0]), s[1]);
    VersionRevert(r, s[2]);
    VersionRevert(s[2], s[2]);
    assert BothRemoved(s, 1, Predecessor(s, 1)) == VersionHistory(x, x, x);
    assert BothRemoved(s, 1, s[1]) == VersionHistory(x, x, y);
    assert VersionHistory(x, x, x)[2] != VersionHistory(x, x, y)[2];
  }

  function Info(v: Value): Fields { map[SYSTEM_INFO := v] }

  /** A `system_info` appears in the second run and changes in the third: its appearance is reported
      but not undone, and the two removals commute. */
  lemma AddedInfoInstance(v: Value, x: Value, y: Value, first: Intervention, second: Intervention)
    requires x != y && x != Null && first.action == Remove && second.action == Remove
    ensures var s := ThreeRuns((v, map[]), (v, Info(x)), (v, Info(y)));
            && DiffAt(s, 1).Some? && DiffAt(s, 2).Some?
            && !Equivalent(Sig(RevertTowards(Sig(s[0]), s[1])), Sig(s[0]))
            && (first.changeId == DiffAt(s, 1).value.id && second.changeId == DiffAt(s, 2).value.id ==>
                  Commute(s, first, second))
  {
    var s := ThreeRuns((v, map[]), (v, Info(x)), (v, Info(y)));
    assert DiffAt(s, 1).Some? && DiffAt(s, 2).Some? && SameOutsideInfo(Sig(s[0]), Sig(s[1])) by { InfoOnly(v, x, y); }
    hide Scenario, Diff, Sig, RevertTowards, Reverted, DetailsOf, SameOutsideInfo, InfoRestorable, InfoAfter, Sort;
    NothingWritten(InfoOf(s[0]), InfoOf(s[1]));
    SameRevertIff(s[0], s[1], s[1]);
    RevertTowardsItself(s[1]);
    NotReverted(s[0], s[1]);
    RevertUndoesChange(s[0], s[1]);
    if first.changeId == DiffAt(s, 1).value.id && second.changeId == DiffAt(s, 2).value.id {
      assert TwoRemovals(s, 1, 2, first, second);
      SortOfSorted(Time, s);
      AddedInfoNeighboursCommute(s, s, 1, first, second);
    }
  }

  lemma InfoOnly(v: Value, x: Value, y: Value)
    requires x != y && x != Null
    ensures var s := ThreeRuns((v, map[]), (v, Info(x)), (v, Info(y)));
            DiffAt(s, 1).Some? && DiffAt(s, 2).Some? && SameOutsideInfo(Sig(s[0]), Sig(s[1]))
  {
  }
}
