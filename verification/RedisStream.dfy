/**
  The Redis Streams ingestion buffer of `ingestion/redis_queue.py` as a
  protocol: producers append, workers of one consumer group read new
  entries, persist them and acknowledge, and any worker may die between
  any two of its commands.

  Entry ids are positions in the stream. The pending entries list holds what
  was delivered and not acknowledged. Workers read only ">", so they never
  see a pending entry again.
*/
module RedisStream {
  import opened Basics
  import opened Options

  /** A message is well-formed when it has a frame field that deserialises. */
  datatype Entry = WellFormed(frame: string) | Malformed

  /** Where a worker is between two commands.
      Reading: past the test of its stop flag, with XREADGROUP issued and not answered.
      Delivered: the server has handed out [lo, hi), and the reply is on its way.
      Scanning: messages [next, end) are still to be looked at, `ids` were kept.
      Storing, Stored, Acked: around `batch_store_frames` and the final XACK. */
  datatype Phase =
    | Down
    | Idle
    | Reading
    | Delivered(lo: nat, hi: nat)
    | Scanning(next: nat, end: nat, ids: seq<nat>)
    | Storing(ids: seq<nat>)
    | Stored(ids: seq<nat>)

  /** `start` is the stream length when the group was created with id "$". */
  datatype Group = Group(start: nat, last: nat)

  datatype State = State(
    stream: seq<Entry>,
    group: Option<Group>,
    pending: set<nat>,        // pending entries list
    acked: set<nat>,
    workers: seq<Phase>,
    stopping: set<nat>,       // workers whose stop flag is set
    persisted: seq<nat>,      // ids in the order the database got them
    lost: set<nat>,           // history: let go by a worker before they were persisted
    orphaned: set<nat>)       // history: let go after they were persisted, before XACK

  datatype Event =
    | Append(entries: seq<Entry>)        // one XADD pipeline
    | CreateGroup                        // XGROUP CREATE, or BUSYGROUP
    | Start(w: nat)
    | Poll(w: nat)                       // the loop test, then XREADGROUP is issued
    | Read(w: nat, count: nat)           // the server executes XREADGROUP ">" COUNT count
    | ReadFails(w: nat)                  // the command did not reach the server
    | Receive(w: nat)
    | ReplyLost(w: nat)                  // delivered, but the client got an error instead
    | AckMalformed(w: nat)
    | Keep(w: nat)
    | BeginStore(w: nat)
    | NothingToStore(w: nat)
    | StoreOk(w: nat)
    | StoreFails(w: nat)                 // the repository raised, or there is none
    | AckBatch(w: nat)                   // XACK of the stored ids
    | RequestStop(w: nat)                // `_stopped = True`
    | Leave(w: nat)                      // the loop test fails
    | Crash(w: nat)

  function Init(workers: nat): State {
    State([], None, {}, {}, seq(workers, _ => Down), {}, [], {}, {})
  }

  function Interval(lo: nat, hi: nat): (r: set<nat>)
    ensures forall k :: k in r <==> lo <= k < hi
    decreases hi
  {
    if hi <= lo then {} else Interval(lo, hi - 1) + {hi - 1}
  }

  function Elements(s: seq<nat>): set<nat> { set k | k in s }

  /** The delivered, unacknowledged ids a worker still has in its hands. */
  function Held(p: Phase): set<nat> {
    match p
    case Down | Idle | Reading => {}
    case Delivered(lo, hi) => Interval(lo, hi)
    case Scanning(next, end, ids) => Interval(next, end) + Elements(ids)
    case Storing(ids) => Elements(ids)
    case Stored(ids) => Elements(ids)
  }

  // ----- Steps ----------------------------------------------------------------------

  predicate In(s: State, w: nat) { w < |s.workers| }

  predicate Enabled(s: State, e: Event) {
    match e
    case Append(_) | CreateGroup => true
    case Start(w) => In(s, w) && s.workers[w] == Down && s.group.Some?
    case Poll(w) => In(s, w) && s.workers[w] == Idle && w !in s.stopping
    case Read(w, count) => In(s, w) && s.workers[w] == Reading && s.group.Some? && s.group.value.last <= |s.stream|
    case ReadFails(w) => In(s, w) && s.workers[w] == Reading
    case Receive(w) => In(s, w) && s.workers[w].Delivered?
    case ReplyLost(w) => In(s, w) && s.workers[w].Delivered?
    case AckMalformed(w) => ScanningAt(s, w) && s.stream[s.workers[w].next] == Malformed
    case Keep(w) => ScanningAt(s, w) && s.stream[s.workers[w].next].WellFormed?
    case BeginStore(w) => ScanDone(s, w) && s.workers[w].ids != []
    case NothingToStore(w) => ScanDone(s, w) && s.workers[w].ids == []
    case StoreOk(w) => In(s, w) && s.workers[w].Storing?
    case StoreFails(w) => In(s, w) && s.workers[w].Storing?
    case AckBatch(w) => In(s, w) && s.workers[w].Stored?
    case RequestStop(w) => In(s, w) && s.workers[w] != Down
    case Leave(w) => In(s, w) && s.workers[w] == Idle && w in s.stopping
    case Crash(w) => In(s, w) && s.workers[w] != Down
  }

  predicate ScanningAt(s: State, w: nat) {
    In(s, w) && s.workers[w].Scanning? && s.workers[w].next < s.workers[w].end && s.workers[w].next < |s.stream|
  }

  predicate ScanDone(s: State, w: nat) {
    In(s, w) && s.workers[w].Scanning? && s.workers[w].next >= s.workers[w].end
  }

  function At(s: State, w: nat, p: Phase): State
    requires In(s, w)
  {
    s.(workers := s.workers[w := p])
  }

  function Next(s: State, e: Event): State
    requires Enabled(s, e)
  {
    match e
    case Append(entries) => s.(stream := s.stream + entries)
    case CreateGroup =>
      if s.group.Some? then s else s.(group := Some(Group(|s.stream|, |s.stream|)))
    case Start(w) => At(s.(stopping := s.stopping - {w}), w, Idle)
    case Poll(w) => At(s, w, Reading)
    case Read(w, count) =>
      var lo := s.group.value.last;
      var hi := Min(lo + count, |s.stream|);
      if lo == hi then At(s, w, Idle)
      else At(s.(group := Some(s.group.value.(last := hi)), pending := s.pending + Interval(lo, hi)), w,
          Delivered(lo, hi))
    case ReadFails(w) => At(s, w, Idle)
    case Receive(w) => At(s, w, Scanning(s.workers[w].lo, s.workers[w].hi, []))
    case ReplyLost(w) => At(s.(lost := s.lost + Held(s.workers[w])), w, Idle)
    case AckMalformed(w) =>
      var p := s.workers[w];
      At(s.(pending := s.pending - {p.next}, acked := s.acked + {p.next}), w, p.(next := p.next + 1))
    case Keep(w) =>
      var p := s.workers[w];
      At(s, w, p.(next := p.next + 1, ids := p.ids + [p.next]))
    case BeginStore(w) => At(s, w, Storing(s.workers[w].ids))
    case NothingToStore(w) => At(s, w, Idle)
    case StoreOk(w) => At(s.(persisted := s.persisted + s.workers[w].ids), w, Stored(s.workers[w].ids))
    case StoreFails(w) => At(s.(lost := s.lost + Held(s.workers[w])), w, Idle)
    case AckBatch(w) =>
      var ids := Elements(s.workers[w].ids);
      At(s.(pending := s.pending - ids, acked := s.acked + ids), w, Idle)
    case RequestStop(w) => s.(stopping := s.stopping + {w})
    case Leave(w) => At(s, w, Down)
    case Crash(w) =>
      var held := Held(s.workers[w]);
      At(if s.workers[w].Stored? then s.(orphaned := s.orphaned + held) else s.(lost := s.lost + held), w, Down)
  }

  /** The state after a run, if every event of it was enabled. */
  function Run(s: State, events: seq<Event>): Option<State> {
    if events == [] then Some(s)
    else
      var before := Run(s, events[..|events| - 1]);
      var e := events[|events| - 1];
      if before.Some? && Enabled(before.value, e) then Some(Next(before.value, e)) else None
  }

  // ----- The invariant ----------------------------------------------------------------

  ghost predicate Increasing(s: seq<nat>) {
    forall i, j :: 0 <= i < j < |s| ==> s[i] < s[j]
  }

  ghost predicate GoodIds(s: State, ids: seq<nat>) {
    Increasing(ids) && forall k :: 0 <= k < |ids| ==> ids[k] < |s.stream| && s.stream[ids[k]].WellFormed?
  }

  ghost predicate PhaseOk(s: State, p: Phase) {
    match p
    case Down | Idle | Reading => true
    case Delivered(lo, hi) => lo <= hi <= |s.stream| && Held(p) !! Elements(s.persisted)
    case Scanning(next, end, ids) =>
      && next <= end <= |s.stream| && GoodIds(s, ids)
      && (forall k :: 0 <= k < |ids| ==> ids[k] < next)
      && Held(p) !! Elements(s.persisted)
    case Storing(ids) => GoodIds(s, ids) && Held(p) !! Elements(s.persisted)
    case Stored(ids) => GoodIds(s, ids) && Held(p) <= Elements(s.persisted)
  }

  ghost predicate Delivery(s: State) {
    match s.group
    case None => s.pending == {} && s.acked == {}
    case Some(g) =>
      && g.start <= g.last <= |s.stream|
      && s.pending !! s.acked && s.pending + s.acked == Interval(g.start, g.last)
  }

  ghost predicate Ownership(s: State) {
    && (forall w :: 0 <= w < |s.workers| ==> Held(s.workers[w]) <= s.pending - s.lost - s.orphaned)
    && (forall v, w :: 0 <= v < w < |s.workers| ==> Held(s.workers[v]) !! Held(s.workers[w]))
    && s.lost !! s.orphaned && s.lost + s.orphaned <= s.pending
    && (forall id :: id in s.pending ==> id in s.lost || id in s.orphaned || IsHeld(s, id))
  }

  ghost predicate IsHeld(s: State, id: nat) {
    exists w :: 0 <= w < |s.workers| && id in Held(s.workers[w])
  }

  ghost predicate Database(s: State) {
    && (forall i, j :: 0 <= i < j < |s.persisted| ==> s.persisted[i] != s.persisted[j])
    && (forall i :: 0 <= i < |s.persisted| ==>
          && s.persisted[i] < |s.stream| && s.stream[s.persisted[i]].WellFormed?
          && s.persisted[i] in s.pending + s.acked)
    && (forall id :: id in s.acked ==> id < |s.stream| && (id in s.persisted || s.stream[id] == Malformed))
    && s.lost !! Elements(s.persisted)
    && s.orphaned <= Elements(s.persisted)
  }

  ghost predicate Inv(s: State) {
    && Delivery(s) && Ownership(s) && Database(s)
    && forall w :: 0 <= w < |s.workers| ==> PhaseOk(s, s.workers[w])
  }

  lemma InitInv(workers: nat)
    ensures Inv(Init(workers))
  {
  }

  lemma StepKeepsDelivery(s: State, e: Event)
    requires Inv(s) && Enabled(s, e)
    ensures Delivery(Next(s, e))
  {
    if e.AckMalformed? || e.AckBatch? {
      assert Held(s.workers[e.w]) <= s.pending;
      if e.AckMalformed? {
        assert s.workers[e.w].next in Held(s.workers[e.w]);
      }
    }
  }

  /** The worker an event belongs to, or one that does not exist. */
  function Actor(s: State, e: Event): nat {
    match e
    case Append(_) | CreateGroup => |s.workers|
    case _ => e.w
  }

  lemma OthersUntouched(s: State, e: Event)
    requires Enabled(s, e)
    ensures Actor(s, e) <= |Next(s, e).workers| == |s.workers|
    ensures forall v :: 0 <= v < |s.workers| && v != Actor(s, e) ==> Next(s, e).workers[v] == s.workers[v]
  {
  }

  lemma PhaseOfActorKept(s: State, e: Event)
    requires Inv(s) && Enabled(s, e) && Actor(s, e) < |s.workers|
    ensures PhaseOk(Next(s, e), Next(s, e).workers[e.w])
  {
    hide Interval;
    assert PhaseOk(s, s.workers[e.w]);
    if e.Read? {
      forall id | id in Elements(s.persisted) ensures id < s.group.value.last {
        var i :| 0 <= i < |s.persisted| && s.persisted[i] == id;
      }
    }
  }

  lemma PhaseOfOtherKept(s: State, e: Event, v: nat)
    requires Inv(s) && Enabled(s, e) && v < |s.workers| && v != Actor(s, e)
    ensures PhaseOk(Next(s, e), s.workers[v])
  {
    hide Interval;
    assert PhaseOk(s, s.workers[v]);
    if e.StoreOk? {
      assert Held(s.workers[v]) !! Held(s.workers[e.w]);
    }
  }

  lemma StepKeepsPhases(s: State, e: Event)
    requires Inv(s) && Enabled(s, e)
    ensures forall v :: 0 <= v < |Next(s, e).workers| ==> PhaseOk(Next(s, e), Next(s, e).workers[v])
  {
    hide Inv, PhaseOk, Next, Enabled;
    OthersUntouched(s, e);
    forall v | 0 <= v < |s.workers| ensures PhaseOk(Next(s, e), Next(s, e).workers[v]) {
      if v == Actor(s, e) {
        PhaseOfActorKept(s, e);
      } else {
        PhaseOfOtherKept(s, e, v);
      }
    }
  }

  /** What one step does to the hands of worker `w`: it may read new entries,
      have some acknowledged, and let go of some. */
  ghost predicate HandsMove(s: State, t: State, w: nat)
    requires w < |s.workers| == |t.workers|
  {
    var before, after := Held(s.workers[w]), Held(t.workers[w]);
    var newlyRead, done := t.pending - s.pending, t.acked - s.acked;
    var dropped, adrift := t.lost - s.lost, t.orphaned - s.orphaned;
    && t.pending == s.pending + newlyRead - done && newlyRead !! before && newlyRead !! done
    && after == before + newlyRead - done - dropped - adrift
    && done <= before && dropped <= before && adrift <= before
    && dropped !! adrift && dropped !! done && adrift !! done
    && s.lost <= t.lost && s.orphaned <= t.orphaned && s.acked <= t.acked
    && newlyRead !! s.lost + s.orphaned
  }

  lemma HandsWhileReading(s: State, e: Event)
    requires Inv(s) && Enabled(s, e) && e.Read?
    ensures HandsMove(s, Next(s, e), e.w)
  {
    hide Interval, Database, PhaseOk;
    var t := Next(s, e);
    assert t.acked == s.acked && t.lost == s.lost && t.orphaned == s.orphaned;
    var fresh' := Interval(s.group.value.last, Min(s.group.value.last + e.count, |s.stream|));
    forall id | id in fresh' ensures id !in s.pending {
      assert id !in Interval(s.group.value.start, s.group.value.last);
    }
    if t.workers[e.w].Delivered? {
      assert t.pending - s.pending == fresh';
      assert Held(t.workers[e.w]) == fresh';
    } else {
      assert t.pending - s.pending == {};
    }
  }

  lemma HandsUnmoved(s: State, e: Event)
    requires Inv(s) && Enabled(s, e)
    requires e.Start? || e.Poll? || e.ReadFails? || e.Receive? || e.RequestStop? || e.Leave?
    ensures HandsMove(s, Next(s, e), e.w)
  {
    hide Interval, Database, PhaseOk, Ownership, Delivery;
    var t := Next(s, e);
    assert t.acked == s.acked && t.lost == s.lost && t.orphaned == s.orphaned && t.pending == s.pending;
    assert Elements([]) == {};
    assert Held(t.workers[e.w]) == Held(s.workers[e.w]);
  }

  lemma HandsWhileAcking(s: State, e: Event)
    requires Inv(s) && Enabled(s, e) && e.AckMalformed?
    ensures HandsMove(s, Next(s, e), e.w)
  {
    hide Interval, Database, Delivery;
    var t, p := Next(s, e), s.workers[e.w];
    assert PhaseOk(s, p) && Held(p) <= s.pending - s.lost - s.orphaned;
    assert p.next in Held(p);
    DeliveredOnce(s, p.next);
    assert t.lost == s.lost && t.orphaned == s.orphaned;
    assert t.acked - s.acked == {p.next} && t.pending - s.pending == {};
    ScanShrinks(p);
    assert t.workers[e.w] == p.(next := p.next + 1);
  }

  lemma DeliveredOnce(s: State, id: nat)
    requires Inv(s) && id in s.pending
    ensures id !in s.acked
  {
  }

  lemma ScanShrinks(p: Phase)
    requires p.Scanning? && p.next < p.end && p.next !in p.ids
    ensures Held(p.(next := p.next + 1)) == Held(p) - {p.next}
    ensures Held(p.(next := p.next + 1, ids := p.ids + [p.next])) == Held(p)
  {
  }

  lemma HandsWhileScanning(s: State, e: Event)
    requires Inv(s) && Enabled(s, e)
    requires e.Keep? || e.BeginStore? || e.NothingToStore?
    ensures HandsMove(s, Next(s, e), e.w)
  {
    hide Interval, Database, Delivery, Ownership;
    var t, p := Next(s, e), s.workers[e.w];
    assert PhaseOk(s, p);
    assert t.lost == s.lost && t.orphaned == s.orphaned && t.pending == s.pending && t.acked == s.acked;
    if e.Keep? {
      ScanShrinks(p);
      assert t.workers[e.w] == p.(next := p.next + 1, ids := p.ids + [p.next]);
    } else {
      assert Interval(p.next, p.end) == {};
    }
    assert Held(t.workers[e.w]) == Held(p);
  }

  lemma HandsWhileStoring(s: State, e: Event)
    requires Inv(s) && Enabled(s, e)
    requires e.StoreOk? || e.StoreFails? || e.AckBatch? || e.Crash? || e.ReplyLost?
    ensures HandsMove(s, Next(s, e), e.w)
  {
    hide Interval, Database, PhaseOk;
    var t, held := Next(s, e), Held(s.workers[e.w]);
    assert held <= s.pending - s.lost - s.orphaned;
    if e.AckBatch? {
      assert t.acked - s.acked == held && t.pending - s.pending == {};
    } else {
      assert t.acked - s.acked == {} && t.pending - s.pending == {};
    }
  }

  lemma StepMovesHands(s: State, e: Event)
    requires Inv(s) && Enabled(s, e) && Actor(s, e) < |s.workers|
    ensures |Next(s, e).workers| == |s.workers| && HandsMove(s, Next(s, e), e.w)
  {
    hide HandsMove, Inv;
    OthersUntouched(s, e);
    match e
    case Read(_, _) => HandsWhileReading(s, e);
    case Start(_) | Poll(_) | ReadFails(_) | Receive(_) | RequestStop(_) | Leave(_) => HandsUnmoved(s, e);
    case AckMalformed(_) => HandsWhileAcking(s, e);
    case Keep(_) => HandsWhileScanning(s, e);
    case BeginStore(_) => HandsWhileScanning(s, e);
    case NothingToStore(_) => HandsWhileScanning(s, e);
    case _ => HandsWhileStoring(s, e);
  }

  lemma StepKeepsOwnership(s: State, e: Event)
    requires Inv(s) && Enabled(s, e)
    ensures Ownership(Next(s, e))
  {
    hide Next, Enabled, Held, PhaseOk, Database, Delivery;
    var t, w := Next(s, e), Actor(s, e);
    OthersUntouched(s, e);
    if w < |s.workers| {
      StepMovesHands(s, e);
      HandsStayApart(s, t, w);
      forall id | id in t.pending && id !in t.lost && id !in t.orphaned ensures IsHeld(t, id) {
        if id in s.pending {
          var v :| 0 <= v < |s.workers| && id in Held(s.workers[v]);
          assert id in Held(t.workers[v]);
        } else {
          assert id in Held(t.workers[w]);
        }
      }
    } else {
      OutsideStep(s, e);
      forall id | id in t.pending && id !in t.lost && id !in t.orphaned ensures IsHeld(t, id) {
        var v :| 0 <= v < |s.workers| && id in Held(s.workers[v]);
        assert id in Held(t.workers[v]);
      }
    }
  }

  lemma HandsStayApart(s: State, t: State, w: nat)
    requires Ownership(s) && w < |s.workers| == |t.workers| && HandsMove(s, t, w)
    requires forall v :: 0 <= v < |s.workers| && v != w ==> t.workers[v] == s.workers[v]
    ensures forall v :: 0 <= v < |t.workers| ==> Held(t.workers[v]) <= t.pending - t.lost - t.orphaned
    ensures forall u, v :: 0 <= u < v < |t.workers| ==> Held(t.workers[u]) !! Held(t.workers[v])
    ensures t.lost !! t.orphaned && t.lost + t.orphaned <= t.pending
  {
  }

  lemma OutsideStep(s: State, e: Event)
    requires Enabled(s, e) && Actor(s, e) == |s.workers|
    ensures Next(s, e) == s.(stream := Next(s, e).stream, group := Next(s, e).group)
  {
  }

  lemma StoreKeepsDatabase(s: State, e: Event)
    requires Inv(s) && Enabled(s, e) && e.StoreOk?
    ensures Database(Next(s, e))
  {
    hide Interval, Delivery;
    var t, ids := Next(s, e), s.workers[e.w].ids;
    assert PhaseOk(s, s.workers[e.w]);
    assert Held(s.workers[e.w]) <= s.pending - s.lost - s.orphaned;
    forall k | 0 <= k < |ids| ensures ids[k] in s.pending && ids[k] !in s.lost && ids[k] !in s.persisted {
      assert ids[k] in Held(s.workers[e.w]);
      assert ids[k] !in Elements(s.persisted);
    }
    assert Elements(t.persisted) == Elements(s.persisted) + Elements(ids);
  }

  lemma AckKeepsDatabase(s: State, e: Event)
    requires Inv(s) && Enabled(s, e) && (e.AckBatch? || e.AckMalformed?)
    ensures Database(Next(s, e))
  {
    hide Interval, Delivery, Ownership;
    assert PhaseOk(s, s.workers[e.w]);
    if e.AckBatch? {
      forall id | id in Elements(s.workers[e.w].ids) ensures id in s.persisted && id < |s.stream| {
        assert id in Elements(s.persisted);
      }
    }
  }

  lemma DropKeepsDatabase(s: State, e: Event)
    requires Inv(s) && Enabled(s, e) && (e.StoreFails? || e.Crash? || e.ReplyLost?)
    ensures Database(Next(s, e))
  {
    hide Interval, Delivery, Ownership;
    assert PhaseOk(s, s.workers[e.w]);
  }

  lemma OtherKeepsDatabase(s: State, e: Event)
    requires Inv(s) && Enabled(s, e)
    requires !e.StoreOk? && !e.AckBatch? && !e.AckMalformed? && !e.StoreFails? && !e.Crash? && !e.ReplyLost?
    ensures Database(Next(s, e))
  {
    hide Interval, Delivery, Ownership, PhaseOk;
    var t := Next(s, e);
    assert t.persisted == s.persisted && t.acked == s.acked && t.lost == s.lost && t.orphaned == s.orphaned;
    assert s.pending <= t.pending && s.stream <= t.stream;
  }

  lemma StepKeepsInv(s: State, e: Event)
    requires Inv(s) && Enabled(s, e)
    ensures Inv(Next(s, e))
  {
    hide Delivery, Ownership, Database, PhaseOk, Next, Enabled;
    StepKeepsDelivery(s, e);
    StepKeepsOwnership(s, e);
    StepKeepsPhases(s, e);
    if e.StoreOk? {
      StoreKeepsDatabase(s, e);
    } else if e.AckBatch? || e.AckMalformed? {
      AckKeepsDatabase(s, e);
    } else if e.StoreFails? || e.Crash? || e.ReplyLost? {
      DropKeepsDatabase(s, e);
    } else {
      OtherKeepsDatabase(s, e);
    }
  }

  lemma {:induction false} RunKeepsInv(s: State, events: seq<Event>)
    requires Inv(s) && Run(s, events).Some?
    ensures Inv(Run(s, events).value)
  {
    hide Inv, Next, Enabled;
    if events == [] {
    } else {
      RunKeepsInv(s, events[..|events| - 1]);
      StepKeepsInv(Run(s, events[..|events| - 1]).value, events[|events| - 1]);
    }
  }

  // ----- What every run guarantees ------------------------------------------------------

  ghost predicate BeforeGroup(s: State, id: nat) { s.group == None || id < s.group.value.start }

  ghost predicate Undelivered(s: State, id: nat) { s.group.Some? && s.group.value.last <= id }

  function Count(b: bool): nat { if b then 1 else 0 }

  /** In every reachable state each entry is exactly one of: older than the group,
      undelivered, pending, acknowledged; and whatever was acknowledged had
      been persisted or was malformed. Nothing is persisted twice. */
  lemma EveryEntryAccountedFor(workers: nat, events: seq<Event>, id: nat)
    requires Run(Init(workers), events).Some? && id < |Run(Init(workers), events).value.stream|
    ensures var t := Run(Init(workers), events).value;
            && Count(BeforeGroup(t, id)) + Count(Undelivered(t, id)) + Count(id in t.pending) + Count(id in t.acked)
                == 1
            && (id in t.acked ==> id in t.persisted || t.stream[id] == Malformed)
            && (forall i, j :: 0 <= i < j < |t.persisted| ==> t.persisted[i] != t.persisted[j])
  {
    InitInv(workers);
    RunKeepsInv(Init(workers), events);
  }

  /** Nobody will ever look at this entry again. */
  ghost predicate Abandoned(s: State, id: nat) {
    id in s.lost || id in s.orphaned || (id < |s.stream| && s.group.Some? && id < s.group.value.start)
  }

  lemma AbandonedStays(s: State, e: Event, id: nat)
    requires Inv(s) && Enabled(s, e) && Abandoned(s, id)
    ensures Abandoned(Next(s, e), id)
    ensures id in Next(s, e).persisted <==> id in s.persisted
    ensures id in Next(s, e).acked <==> id in s.acked
    ensures id in Next(s, e).pending <==> id in s.pending
  {
    hide Interval;
    if Actor(s, e) < |s.workers| {
      assert PhaseOk(s, s.workers[e.w]);
      assert Held(s.workers[e.w]) <= s.pending - s.lost - s.orphaned;
      assert id !in Held(s.workers[e.w]) by { NotInHands(s, e.w, id); }
      StepMovesHands(s, e);
      if e.StoreOk? {
        forall k | 0 <= k < |s.workers[e.w].ids| ensures s.workers[e.w].ids[k] != id {
          assert s.workers[e.w].ids[k] in Held(s.workers[e.w]);
        }
      }
    }
  }

  lemma NotInHands(s: State, w: nat, id: nat)
    requires Inv(s) && w < |s.workers| && Abandoned(s, id)
    ensures id !in Held(s.workers[w])
  {
  }

  /** An entry a worker let go of, or that is older than the group, keeps its fate
      in every continuation: it is never persisted and never acknowledged later. */
  lemma {:induction false} AbandonedForever(s: State, events: seq<Event>, id: nat)
    requires Inv(s) && Abandoned(s, id) && Run(s, events).Some?
    ensures var t := Run(s, events).value;
            && Abandoned(t, id) && (id in t.persisted <==> id in s.persisted)
            && (id in t.acked <==> id in s.acked) && (id in t.pending <==> id in s.pending)
  {
    hide Inv, Abandoned, Next, Enabled;
    if events == [] {
    } else {
      var earlier := events[..|events| - 1];
      AbandonedForever(s, earlier, id);
      RunKeepsInv(s, earlier);
      AbandonedStays(Run(s, earlier).value, events[|events| - 1], id);
    }
  }

  // ----- Exactly when nothing is lost ----------------------------------------------------

  ghost predicate Quiescent(s: State) {
    forall w :: 0 <= w < |s.workers| ==> Held(s.workers[w]) == {}
  }

  /** With no batch in any hands, the pending list is what was let go of, and a
      delivered well-formed entry is missing from the database exactly when it was lost. */
  lemma FatesAtRest(s: State, id: nat)
    requires Inv(s) && Quiescent(s) && s.group.Some? && s.group.value.start <= id < s.group.value.last
    ensures id in s.pending <==> id in s.lost || id in s.orphaned
    ensures s.stream[id].WellFormed? ==> (id in s.persisted <==> id !in s.lost)
  {
  }

  /** A step that lets go of delivered entries: a failed store, a lost reply, or a death with work in hand. */
  ghost predicate Drops(s: State, e: Event)
    requires Enabled(s, e)
  {
    (e.StoreFails? || e.ReplyLost? || e.Crash?) && Held(s.workers[e.w]) != {}
  }

  ghost predicate SomeDrop(s: State, events: seq<Event>)
    requires Run(s, events).Some?
  {
    exists k :: 0 <= k < |events| && DropAt(s, events, k)
  }

  ghost predicate DropAt(s: State, events: seq<Event>, k: nat)
    requires k < |events|
  {
    var before := Run(s, events[..k]);
    before.Some? && Enabled(before.value, events[k]) && Drops(before.value, events[k])
  }

  lemma StepDrops(s: State, e: Event)
    requires Inv(s) && Enabled(s, e)
    ensures Next(s, e).lost + Next(s, e).orphaned == {} <==> s.lost + s.orphaned == {} && !Drops(s, e)
  {
  }

  /** Every delivered entry ends up acknowledged exactly when no step of the run
      dropped one: one failed store, one lost reply, or one death with work in hand,
      and some entry stays pending for good. */
  lemma {:induction false} NothingPendingIffNoDrop(s: State, events: seq<Event>)
    requires Inv(s) && s.lost + s.orphaned == {} && Run(s, events).Some?
    ensures var t := Run(s, events).value;
            && (t.lost + t.orphaned == {} <==> !SomeDrop(s, events))
            && (Quiescent(t) ==> (t.pending == {} <==> !SomeDrop(s, events)))
  {
    hide Inv, Next, Enabled, Drops;
    var t := Run(s, events).value;
    RunKeepsInv(s, events);
    if events == [] {
    } else {
      var n := |events| - 1;
      var earlier := events[..n];
      NothingPendingIffNoDrop(s, earlier);
      RunKeepsInv(s, earlier);
      StepDrops(Run(s, earlier).value, events[n]);
      forall k | 0 <= k < n ensures DropAt(s, earlier, k) <==> DropAt(s, events, k) {
        assert earlier[..k] == events[..k];
      }
      assert DropAt(s, events, n) <==> Drops(Run(s, earlier).value, events[n]);
    }
    if Quiescent(t) {
      PendingAtRest(t);
    }
  }

  lemma PendingAtRest(s: State)
    requires Inv(s) && Quiescent(s)
    ensures s.pending == s.lost + s.orphaned
  {
  }

  lemma RunSnoc(s: State, events: seq<Event>, e: Event)
    ensures Run(s, events + [e])
         == if Run(s, events).Some? && Enabled(Run(s, events).value, e) then Some(Next(Run(s, events).value, e))
            else None
  {
  }

  /** The documented at-least-once delivery does not hold: after one failed store
      the frame is not persisted, and by AbandonedForever never will be. */
  lemma FailedStoreLosesFrame(s: State, frame: string, w: nat)
    requires Inv(s) && s.group.Some? && s.group.value.last == |s.stream|
    requires In(s, w) && s.workers[w] == Idle && w !in s.stopping
    ensures var events := [Append([WellFormed(frame)])] + [Poll(w)] + [Read(w, 1)] + [Receive(w)]
                          + [Keep(w)] + [BeginStore(w)] + [StoreFails(w)];
            && Run(s, events).Some?
            && Run(s, events).value.stream == s.stream + [WellFormed(frame)]
            && |s.stream| in Run(s, events).value.lost && |s.stream| !in Run(s, events).value.persisted
  {
    hide Inv, Next, Enabled;
    var s1, s2, s3, s4 := StepsToDelivery(s, frame, w);
    var s5, s6, s7 := StepsToFailure(s4, |s.stream|, w);
    var e1 := [Append([WellFormed(frame)])];
    assert Run(s, []) == Some(s) && [] + e1 == e1;
    RunSnoc(s, [], e1[0]);
    RunSnoc(s, e1, Poll(w));
    RunSnoc(s, e1 + [Poll(w)], Read(w, 1));
    RunSnoc(s, e1 + [Poll(w)] + [Read(w, 1)], Receive(w));
    var e4 := e1 + [Poll(w)] + [Read(w, 1)] + [Receive(w)];
    RunSnoc(s, e4, Keep(w));
    RunSnoc(s, e4 + [Keep(w)], BeginStore(w));
    RunSnoc(s, e4 + [Keep(w)] + [BeginStore(w)], StoreFails(w));
    NewIdNotPersisted(s);
  }

  lemma NewIdNotPersisted(s: State)
    requires Inv(s)
    ensures |s.stream| !in s.persisted
  {
  }

  lemma StepsToDelivery(s: State, frame: string, w: nat) returns (s1: State, s2: State, s3: State, s4: State)
    requires s.group.Some? && s.group.value.last == |s.stream|
    requires In(s, w) && s.workers[w] == Idle && w !in s.stopping
    ensures Enabled(s, Append([WellFormed(frame)])) && s1 == Next(s, Append([WellFormed(frame)]))
    ensures Enabled(s1, Poll(w)) && s2 == Next(s1, Poll(w))
    ensures Enabled(s2, Read(w, 1)) && s3 == Next(s2, Read(w, 1))
    ensures Enabled(s3, Receive(w)) && s4 == Next(s3, Receive(w))
    ensures s4.stream == s.stream + [WellFormed(frame)] && s4.persisted == s.persisted
    ensures In(s4, w) && s4.workers[w] == Scanning(|s.stream|, |s.stream| + 1, [])
  {
    s1 := s.(stream := s.stream + [WellFormed(frame)]);
    s2 := Next(s1, Poll(w));
    s3 := Next(s2, Read(w, 1));
    assert s3.workers[w] == Delivered(|s.stream|, |s.stream| + 1);
    s4 := Next(s3, Receive(w));
  }

  lemma StepsToFailure(s: State, id: nat, w: nat) returns (s1: State, s2: State, s3: State)
    requires In(s, w) && s.workers[w] == Scanning(id, id + 1, []) && id < |s.stream| && s.stream[id].WellFormed?
    ensures Enabled(s, Keep(w)) && s1 == Next(s, Keep(w))
    ensures Enabled(s1, BeginStore(w)) && s2 == Next(s1, BeginStore(w))
    ensures Enabled(s2, StoreFails(w)) && s3 == Next(s2, StoreFails(w))
    ensures s3.stream == s.stream && id in s3.lost && s3.persisted == s.persisted
  {
    s1 := Next(s, Keep(w));
    assert s1.workers[w] == Scanning(id + 1, id + 1, [id]);
    s2 := Next(s1, BeginStore(w));
    s3 := Next(s2, StoreFails(w));
  }
}
