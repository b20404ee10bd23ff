/**
  What a worker can always do, and what a single command may touch: a worker
  goes down only by leaving or by dying, comes back to its loop after every
  failure, and stores the frames it was delivered in stream order.
*/
module RedisLiveness {
  import opened Basics
  import opened Options
  import opened RedisStream

  // ----- Going down -----------------------------------------------------------------------

  /** Only leaving and dying take a worker down, and only starting brings it up again. */
  lemma DownOnlyByLeavingOrDying(s: State, e: Event, w: nat)
    requires Enabled(s, e) && In(s, w)
    ensures In(Next(s, e), w)
    ensures s.workers[w] != Down && Next(s, e).workers[w] == Down <==> e == Leave(w) || e == Crash(w)
    ensures s.workers[w] == Down && Next(s, e).workers[w] != Down <==> e == Start(w)
  {
    hide Interval, Held;
    OthersUntouched(s, e);
  }

  /** Over whole runs: a worker that was up and is down has left or died in between, and one that was
      down and is up has been started. */
  lemma {:induction false} DownHasReason(s: State, events: seq<Event>, w: nat)
    requires Run(s, events).Some? && In(s, w)
    ensures var t := Run(s, events).value;
            && In(t, w)
            && (s.workers[w] != Down && t.workers[w] == Down ==> Leave(w) in events || Crash(w) in events)
            && (s.workers[w] == Down && t.workers[w] != Down ==> Start(w) in events)
  {
    hide Next, Enabled;
    if events == [] {
    } else {
      var earlier, e := events[..|events| - 1], events[|events| - 1];
      assert events == earlier + [e];
      DownHasReason(s, earlier, w);
      DownOnlyByLeavingOrDying(Run(s, earlier).value, e, w);
    }
  }

  /** A worker leaves only after its stop flag was set: without a request and a death it stays up. */
  lemma {:induction false} StaysUp(s: State, events: seq<Event>, w: nat)
    requires Run(s, events).Some? && In(s, w) && s.workers[w] != Down && w !in s.stopping
    requires RequestStop(w) !in events && Crash(w) !in events
    ensures var t := Run(s, events).value; In(t, w) && t.workers[w] != Down && w !in t.stopping
  {
    hide Next, Enabled;
    if events == [] {
    } else {
      var earlier, e := events[..|events| - 1], events[|events| - 1];
      assert events == earlier + [e];
      StaysUp(s, earlier, w);
      var u := Run(s, earlier).value;
      DownOnlyByLeavingOrDying(u, e, w);
      FlagOnlyByRequest(u, e, w);
    }
  }

  lemma FlagOnlyByRequest(s: State, e: Event, w: nat)
    requires Enabled(s, e)
    ensures w !in s.stopping && w in Next(s, e).stopping ==> e == RequestStop(w)
    ensures w in s.stopping && w !in Next(s, e).stopping ==> e == Start(w)
    ensures e == Leave(w) ==> w in s.stopping
    ensures e == RequestStop(w) ==> w in Next(s, e).stopping
  {
    hide Interval, Held;
  }

  // ----- Coming back --------------------------------------------------------------------------

  /** After a failed read, a lost reply or a failed store the worker is back at its loop test, with nothing
      in hand; if its flag is not set it reads again. Nothing was stored, acknowledged or delivered. */
  lemma FailureIsSurvived(s: State, e: Event, w: nat)
    requires Enabled(s, e) && (e == ReadFails(w) || e == ReplyLost(w) || e == StoreFails(w))
    ensures var t := Next(s, e);
            && In(t, w) && t.workers[w] == Idle && (w !in s.stopping ==> Enabled(t, Poll(w)))
            && t.stream == s.stream && t.group == s.group && t.pending == s.pending && t.acked == s.acked
            && t.persisted == s.persisted && t.stopping == s.stopping && t.orphaned == s.orphaned
            && t.lost == s.lost + Held(s.workers[w])
            && forall v :: 0 <= v < |s.workers| && v != w ==> t.workers[v] == s.workers[v]
  {
    hide Interval;
  }

  /** How far a worker is from its loop test, if its reads ask for `count` entries. */
  function FromLoop(p: Phase, count: nat): nat {
    match p
    case Down | Idle => 0
    case Stored(_) => 1
    case Storing(_) => 2
    case Scanning(next, end, _) => 3 + if next < end then end - next else 0
    case Delivered(lo, hi) => 4 + if lo < hi then hi - lo else 0
    case Reading => 5 + count
  }

  /** The next step of an undisturbed worker. */
  function NextStep(s: State, w: nat, count: nat): Event
    requires In(s, w)
  {
    match s.workers[w]
    case Down => Start(w)
    case Idle => if w in s.stopping then Leave(w) else Poll(w)
    case Reading => Read(w, count)
    case Delivered(_, _) => Receive(w)
    case Scanning(next, end, ids) =>
      if next < end then if next < |s.stream| && s.stream[next] == Malformed then AckMalformed(w) else Keep(w)
      else if ids == [] then NothingToStore(w) else BeginStore(w)
    case Storing(_) => StoreOk(w)
    case Stored(_) => AckBatch(w)
  }

  /** In every reachable state with a group every worker can go on, producers can append, a read or a store under
      way can fail, and a worker that is up can die or be asked to stop. */
  lemma NothingBlocks(s: State, w: nat, count: nat, entries: seq<Entry>)
    requires Inv(s) && s.group.Some? && In(s, w)
    ensures Enabled(s, NextStep(s, w, count)) && Enabled(s, Append(entries)) && Enabled(s, CreateGroup)
    ensures s.workers[w] == Reading ==> Enabled(s, ReadFails(w))
    ensures s.workers[w].Delivered? ==> Enabled(s, ReplyLost(w))
    ensures s.workers[w].Storing? ==> Enabled(s, StoreFails(w))
    ensures s.workers[w] != Down ==> Enabled(s, Crash(w)) && Enabled(s, RequestStop(w))
  {
    hide Interval, Ownership, Database;
    assert PhaseOk(s, s.workers[w]);
  }

  /** Away from the loop test every step of the worker itself brings it back, unless it dies. */
  lemma OwnStepComesBack(s: State, e: Event, w: nat, count: nat)
    requires Inv(s) && In(s, w) && Enabled(s, e) && Actor(s, e) == w && e != Crash(w) && e != RequestStop(w)
    requires s.workers[w] != Down && s.workers[w] != Idle && (e.Read? ==> e.count <= count)
    ensures FromLoop(Next(s, e).workers[w], count) < FromLoop(s.workers[w], count)
  {
    hide Interval, Ownership, Database;
    assert PhaseOk(s, s.workers[w]);
  }

  // ----- What a command may touch -----------------------------------------------------------------

  /** The stream grows only at its end and only by producers; the group moves only by reads, to the end of the
      batch; frames are stored and entries acknowledged only where the worker says so. */
  lemma WhatStepsTouch(s: State, e: Event)
    requires Enabled(s, e)
    ensures Next(s, e).stream == s.stream + if e.Append? then e.entries else []
    ensures Next(s, e).persisted == s.persisted + if e.StoreOk? then s.workers[e.w].ids else []
    ensures e == CreateGroup ==> Next(s, e).group.Some?
    ensures e == CreateGroup && s.group == None ==>
              Next(s, e).group.value.start == |s.stream| && Next(s, e).group.value.last == |s.stream|
    ensures e.Read? ==> Next(s, e).group.value.last == Min(s.group.value.last + e.count, |s.stream|)
    ensures e != CreateGroup && !e.Read? ==> Next(s, e).group == s.group
    ensures !e.AckMalformed? && !e.AckBatch? ==> Next(s, e).acked == s.acked
    ensures e.AckBatch? ==> Next(s, e).acked == s.acked + set id | id in s.workers[e.w].ids
    ensures e.AckBatch? ==> Next(s, e).pending == s.pending - set id | id in s.workers[e.w].ids
    ensures e.Read? ==> forall id :: id in Next(s, e).pending
                          <==> id in s.pending || s.group.value.last <= id < Next(s, e).group.value.last
    ensures !e.Read? && !e.AckMalformed? && !e.AckBatch? ==> Next(s, e).pending == s.pending
  {
    hide Interval, Held;
  }

  /** What a worker holds is handed on: the reply carries what was read, each malformed entry is acknowledged, every
      other kept in order, and the kept ones are stored and then acknowledged. */
  lemma WhatIsHandedOn(s: State, e: Event, w: nat)
    requires Enabled(s, e) && Actor(s, e) == w && In(s, w)
    ensures var p, q := s.workers[w], Next(s, e).workers[w];
            && (e.Start? ==> q == Idle && w !in Next(s, e).stopping) && (e.Poll? ==> q == Reading)
            && (e.RequestStop? ==> q == p && w in Next(s, e).stopping)
            && (e.Read? ==> var lo, hi := s.group.value.last, Min(s.group.value.last + e.count, |s.stream|);
                            q == if lo == hi then Idle else Delivered(lo, hi))
            && (e.Receive? ==> q == Scanning(p.lo, p.hi, []))
            && (e.AckMalformed? ==> q == Scanning(p.next + 1, p.end, p.ids) && p.next in Next(s, e).acked)
            && (e.Keep? ==> q == Scanning(p.next + 1, p.end, p.ids + [p.next]))
            && (e.BeginStore? ==> q == Storing(p.ids)) && (e.StoreOk? ==> q == Stored(p.ids))
            && (e.NothingToStore? || e.AckBatch? ==> q == Idle)
  {
    hide Interval, Held;
  }

  // ----- Stream order -----------------------------------------------------------------------------

  /** The ids that a worker has in hand, in the order in which it will store them, all come after the stored ones. */
  ghost predicate OneWorkerInOrder(s: State) {
    && |s.workers| == 1 && Increasing(s.persisted)
    && (s.workers[0].Stored? ||
        forall i, id :: 0 <= i < |s.persisted| && id in Held(s.workers[0]) ==> s.persisted[i] < id)
  }

  lemma ReadIsLater(s: State)
    requires Inv(s) && s.group.Some?
    ensures forall i :: 0 <= i < |s.persisted| ==> s.persisted[i] < s.group.value.last
  {
    forall i | 0 <= i < |s.persisted| ensures s.persisted[i] < s.group.value.last {
      assert s.persisted[i] in s.pending + s.acked;
      assert s.persisted[i] in Interval(s.group.value.start, s.group.value.last);
    }
  }

  lemma StoredInOrder(s: State, e: Event)
    requires Inv(s) && OneWorkerInOrder(s) && Enabled(s, e) && e == StoreOk(0)
    ensures OneWorkerInOrder(Next(s, e))
  {
    hide Interval, Ownership, Database, Delivery;
    var ids := s.workers[0].ids;
    assert PhaseOk(s, s.workers[0]);
    forall k | 0 <= k < |ids| ensures ids[k] in Held(s.workers[0]) {}
  }

  lemma StepInOrder(s: State, e: Event)
    requires Inv(s) && OneWorkerInOrder(s) && Enabled(s, e)
    ensures OneWorkerInOrder(Next(s, e))
  {
    hide Inv, Increasing;
    WhatStepsTouch(s, e);
    OthersUntouched(s, e);
    if e == StoreOk(0) {
      StoredInOrder(s, e);
    } else if e.Read? {
      ReadIsLater(s);
    } else if Actor(s, e) == 0 {
      StepMovesHands(s, e);
    }
  }

  /** With a single worker the frames reach the database in stream order. */
  lemma {:induction false} OneWorkerStoresInOrder(events: seq<Event>)
    requires Run(Init(1), events).Some?
    ensures OneWorkerInOrder(Run(Init(1), events).value) && Increasing(Run(Init(1), events).value.persisted)
  {
    hide Inv, Next, Enabled, OneWorkerInOrder;
    if events == [] {
      NothingStored();
    } else {
      var earlier := events[..|events| - 1];
      OneWorkerStoresInOrder(earlier);
      InitInv(1);
      RunKeepsInv(Init(1), earlier);
      StepInOrder(Run(Init(1), earlier).value, events[|events| - 1]);
    }
    InOrderIncreasing(Run(Init(1), events).value);
  }

  lemma NothingStored()
    ensures OneWorkerInOrder(Init(1))
  {
  }

  lemma InOrderIncreasing(s: State)
    requires OneWorkerInOrder(s)
    ensures Increasing(s.persisted)
  {
  }
}
