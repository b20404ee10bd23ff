/**
  Evaluation records and the in-memory store of
  `evaluator/storage/in_memory_store.py`.
*/
module History {
  import opened Basics
  import opened Options
  import opened Sorting

  /** A metadata value: JSON null, something only compared for equality, or a nested dict. */
  datatype Value = Null | Atom(text: string) | Dict(fields: map<string, Value>)

  type Fields = map<string, Value>

  /** `fields.get(key)`: an absent key reads as null. */
  function Get(fields: Fields, key: string): Value { if key in fields then fields[key] else Null }

  /** `runId` is the run id the metric itself carries, if any. */
  datatype Metric = Metric(name: string, value: real, runId: Option<string>)

  /** How many metrics carry the name. */
  ghost function NamedCount(metrics: seq<Metric>, name: string): nat {
    |set k | 0 <= k < |metrics| && metrics[k].name == name|
  }

  lemma NamedCountSnoc(metrics: seq<Metric>, name: string)
    requires metrics != []
    ensures var n := |metrics| - 1;
            NamedCount(metrics, name) == NamedCount(metrics[..n], name) + if metrics[n].name == name then 1 else 0
  {
    var n := |metrics| - 1;
    var q := metrics[..n];
    assert (set k | 0 <= k < |metrics| && metrics[k].name == name)
        == (set k | 0 <= k < |q| && q[k].name == name) + if metrics[n].name == name then {n} else {};
  }

  /** What one record holds at one moment. */
  datatype Snapshot = Snapshot(
    runId: string, timestamp: Option<real>, version: Value, metadata: Fields, metrics: seq<Metric>)

  /** The sort key `r.timestamp or 0.0`. */
  function Time(s: Snapshot): real { if s.timestamp.Some? then s.timestamp.value else 0.0 }

  class Record {
    var runId: string
    var timestamp: Option<real>
    var version: Value
    var metadata: Fields
    var metrics: seq<Metric>

    constructor (s: Snapshot)
      ensures Now() == s
    {
      runId, timestamp, version, metadata, metrics := s.runId, s.timestamp, s.version, s.metadata, s.metrics;
    }

    function Now(): Snapshot
      reads this
    {
      Snapshot(runId, timestamp, version, metadata, metrics)
    }
  }

  function NowOf(records: seq<Record>): (r: seq<Snapshot>)
    reads records
    ensures |r| == |records| && forall i :: 0 <= i < |r| ==> r[i] == records[i].Now()
  {
    seq(|records|, i requires 0 <= i < |records| reads records => records[i].Now())
  }

  /** Two positions hold one object in `s` exactly when they do in `t`. */
  ghost predicate SameSharing(s: seq<Record>, t: seq<Record>) {
    |s| == |t| && forall i, j :: 0 <= i < |s| && 0 <= j < |s| ==> (s[i] == s[j] <==> t[i] == t[j])
  }

  /** `copy.deepcopy(records)`: the memo maps every record met so far to its one copy. */
  method DeepCopy(records: seq<Record>) returns (copies: seq<Record>)
    ensures NowOf(copies) == NowOf(records) && SameSharing(copies, records)
    ensures forall r :: r in copies ==> fresh(r)
  {
    copies := [];
    var memo: map<Record, Record> := map[];
    for k := 0 to |records|
      invariant |copies| == k
      invariant forall i :: 0 <= i < k ==> records[i] in memo && copies[i] == memo[records[i]]
      invariant forall r :: r in memo ==> fresh(memo[r]) && memo[r].Now() == r.Now()
      invariant forall q, r :: q in memo && r in memo && q != r ==> memo[q] != memo[r]
    {
      if records[k] !in memo {
        var copy := new Record(records[k].Now());
        memo := memo[records[k] := copy];
      }
      copies := copies + [memo[records[k]]];
    }
  }

  class InMemoryHistoryStore {
    var records: seq<Record>

    /** No record is held twice, so a change to one position shows at no other. */
    ghost predicate Valid()
      reads this
    {
      AllDistinct(records)
    }

    function Contents(): seq<Snapshot>
      reads this, records
    {
      NowOf(records)
    }

    constructor (initial: seq<Record>)
      ensures Contents() == NowOf(initial) && SameSharing(records, initial)
      ensures Valid() <==> AllDistinct(initial)
      ensures forall r :: r in records ==> fresh(r)
    {
      var copies := DeepCopy(initial);
      records := copies;
    }

    method Append(record: Record)
      modifies this
      ensures Contents() == old(Contents()) + [record.Now()] && (Valid() <==> old(Valid()))
      ensures fresh(records[|records| - 1]) && records[..|records| - 1] == old(records)
    {
      var copy := new Record(record.Now());
      var before := records;
      records := before + [copy];
      forall i | 0 <= i < |before| ensures records[i] == before[i] != copy {}
      if Valid() {
        forall i, j | 0 <= i < j < |before| ensures before[i] != before[j] {
          assert records[i] != records[j];
        }
      }
    }

    /** A clone shares no record with the original, so no later change to one shows in the other. */
    method Clone() returns (copy: InMemoryHistoryStore)
      ensures fresh(copy) && copy.Contents() == Contents() && SameSharing(copy.records, records)
      ensures copy.Valid() <==> Valid()
      ensures forall r :: r in copy.records ==> fresh(r)
    {
      copy := new InMemoryHistoryStore(records);
    }
  }

  // ----- Stable sort of record objects -----------------------------------------

  function Range(n: nat): (r: seq<int>)
    ensures |r| == n && forall i :: 0 <= i < n ==> r[i] == i
  {
    seq(n, i => i)
  }

  function PickFrom(s: seq<Snapshot>): int -> Snapshot {
    i => if 0 <= i < |s| then s[i] else Snapshot("", None, Null, map[], [])
  }

  function TimeAt(s: seq<Snapshot>): int -> real { i => Time(PickFrom(s)(i)) }

  /** A missing timestamp is as early as 0. */
  ghost predicate NoLater(a: Option<real>, b: Option<real>) {
    match (a, b)
    case (Some(x), Some(y)) => x <= y
    case (Some(x), None) => x <= 0.0
    case (None, Some(y)) => 0.0 <= y
    case (None, None) => true
  }

  lemma InOrder(s: seq<Snapshot>)
    requires SortedBy(Time, Sort(Time, s))
    ensures var t := Sort(Time, s); forall i, j :: 0 <= i < j < |t| ==> NoLater(t[i].timestamp, t[j].timestamp)
  {
    var t := Sort(Time, s);
    forall i, j | 0 <= i < j < |t| ensures NoLater(t[i].timestamp, t[j].timestamp) {
      assert Time(t[i]) <= Time(t[j]);
    }
  }

  /** `sorted(records, key=lambda r: r.timestamp or 0.0)`: the same objects, in stable time order. */
  method SortRecords(records: seq<Record>) returns (sorted: seq<Record>)
    requires AllDistinct(records)
    ensures AllDistinct(sorted) && |sorted| == |records|
    ensures forall r :: r in sorted ==> r in records
    ensures NowOf(sorted) == Sort(Time, NowOf(records))
    ensures forall i, j :: 0 <= i < j < |sorted| ==> NoLater(sorted[i].timestamp, sorted[j].timestamp)
  {
    SortSorts(Time, NowOf(records));
    InOrder(NowOf(records));
    var now := NowOf(records);
    var order := SortedOrder(now);
    sorted := seq(|order|, i requires 0 <= i < |order| => records[order[i]]);
    assert NowOf(sorted) == Map(PickFrom(now), order);
  }

  method SortedOrder(now: seq<Snapshot>) returns (order: seq<int>)
    ensures |order| == |now|
    ensures forall k :: 0 <= k < |order| ==> 0 <= order[k] < |now|
    ensures forall j, k :: 0 <= j < k < |order| ==> order[j] != order[k]
    ensures Map(PickFrom(now), order) == Sort(Time, now)
  {
    var range := Range(|now|);
    order := Sort(TimeAt(now), range);
    SortSorts(TimeAt(now), range);
    OrderIsPermutation(order, |now|);
    SortOfMap(TimeAt(now), Time, PickFrom(now), range);
    assert Map(PickFrom(now), range) == now;
  }

  lemma OrderIsPermutation(order: seq<int>, n: nat)
    requires multiset(order) == multiset(Range(n))
    ensures forall k :: 0 <= k < |order| ==> 0 <= order[k] < n
    ensures forall j, k :: 0 <= j < k < |order| ==> order[j] != order[k]
  {
    forall k | 0 <= k < |order| ensures 0 <= order[k] < n {
      assert order[k] in multiset(order);
      RangeOnce(n, order[k]);
    }
    forall j, k | 0 <= j < k < |order| ensures order[j] != order[k] {
      RangeOnce(n, order[j]);
      assert order == order[..k] + order[k..];
      assert order[j] in order[..k] && order[k] in order[k..];
    }
  }

  lemma {:induction false} RangeOnce(n: nat, x: int)
    ensures multiset(Range(n))[x] == if 0 <= x < n then 1 else 0
  {
    if n == 0 {
    } else {
      RangeOnce(n - 1, x);
      assert Range(n) == Range(n - 1) + [n - 1];
    }
  }
}
