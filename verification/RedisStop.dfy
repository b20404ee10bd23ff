/**
  `stop_worker` of the Redis buffer. The flag it sets is tested only between
  two reads, so stopping lets at most the read in flight deliver anything, and
  a backlog beyond that batch stays undelivered.
*/
module RedisStop {
  import opened Basics
  import opened RedisStream

  function ReadsOf(events: seq<Event>, w: nat): nat {
    if events == [] then 0
    else
      var e := events[|events| - 1];
      ReadsOf(events[..|events| - 1], w) + if e.Read? && e.w == w then 1 else 0
  }

  predicate NeverStarts(events: seq<Event>, w: nat) { Start(w) !in events }

  /** The worker's read, if one is in flight, reaches the server. */
  predicate ReadSurvives(events: seq<Event>, w: nat) { ReadFails(w) !in events && Crash(w) !in events }

  function InFlight(s: State, w: nat): nat { if In(s, w) && s.workers[w] == Reading then 1 else 0 }

  lemma StoppingStep(s: State, e: Event, w: nat)
    requires Enabled(s, e) && In(s, w) && w in s.stopping && e != Start(w)
    ensures In(Next(s, e), w) && w in Next(s, e).stopping
    ensures InFlight(Next(s, e), w) + ReadsOf([e], w) <= InFlight(s, w)
    ensures e != ReadFails(w) && e != Crash(w) ==> InFlight(Next(s, e), w) + ReadsOf([e], w) == InFlight(s, w)
  {
    hide Interval;
    assert [e][..0] == [];
    OthersUntouched(s, e);
  }

  lemma ReadsSnoc(events: seq<Event>, e: Event, w: nat)
    ensures ReadsOf(events + [e], w) == ReadsOf(events, w) + ReadsOf([e], w)
  {
    assert (events + [e])[..|events|] == events && [e][..0] == [];
  }

  /** Once its flag is set, a worker reads again only if a read was in flight, and then once;
      without a failure it does read that once before it leaves. */
  lemma {:induction false} AtMostTheReadInFlight(s: State, events: seq<Event>, w: nat)
    requires Run(s, events).Some? && In(s, w) && w in s.stopping && NeverStarts(events, w)
    ensures var t := Run(s, events).value;
            && In(t, w) && w in t.stopping
            && ReadsOf(events, w) + InFlight(t, w) <= InFlight(s, w)
            && (ReadSurvives(events, w) ==> ReadsOf(events, w) + InFlight(t, w) == InFlight(s, w))
  {
    hide Next, Enabled, InFlight;
    if events == [] {
    } else {
      var earlier, e := events[..|events| - 1], events[|events| - 1];
      assert events == earlier + [e];
      AtMostTheReadInFlight(s, earlier, w);
      StoppingStep(Run(s, earlier).value, e, w);
      ReadsSnoc(earlier, e, w);
    }
  }

  // ----- What is delivered -----------------------------------------------------------------

  /** The other workers, busy or not, read nothing new, and every read asks for `count` entries.
      Producers may go on. */
  ghost predicate OnlyReader(events: seq<Event>, w: nat, count: nat) {
    forall k :: 0 <= k < |events| ==>
      events[k] != Start(w) && (events[k].Read? ==> events[k].w == w && events[k].count == count)
  }

  /** How far the deliveries since `s` have come, relative to the entries that were there. */
  ghost predicate Delivers(s: State, t: State, n: nat, count: nat)
    requires s.group.Some? && t.group.Some?
  {
    && s.stream <= t.stream && s.group.value.last <= t.group.value.last
    && (n == 0 ==> t.group.value.last == s.group.value.last)
    && (n == 1 ==> (t.group.value.last >= |s.stream| <==> s.group.value.last + count >= |s.stream|))
  }

  /** Where the group stands after n deliveries, n at most 1, of up to `count` entries. */
  function Advanced(s: State, count: nat, n: nat): nat
    requires s.group.Some?
  {
    if n == 0 then s.group.value.last else Min(s.group.value.last + count, |s.stream|)
  }

  lemma DeliveryStep(t: State, e: Event, w: nat, count: nat)
    requires Enabled(t, e) && t.group.Some? && t.group.value.last <= |t.stream|
    requires e.Read? ==> e.w == w && e.count == count
    ensures var u := Next(t, e);
            && t.stream <= u.stream && u.group.Some? && ReadsOf([e], w) <= 1
            && u.group.value.last == Advanced(t, count, ReadsOf([e], w))
            && u.group.value.last <= |u.stream|
  {
    hide Interval, Held;
    assert [e][..0] == [];
  }

  lemma {:induction false} DeliveredAfterStop(s: State, events: seq<Event>, w: nat, count: nat)
    requires Run(s, events).Some? && In(s, w) && w in s.stopping && s.group.Some? && s.group.value.last <= |s.stream|
    requires OnlyReader(events, w, count)
    ensures var t := Run(s, events).value;
            && t.group.Some? && t.group.value.last <= |t.stream|
            && ReadsOf(events, w) <= 1 && Delivers(s, t, ReadsOf(events, w), count)
  {
    hide Next, Enabled;
    assert Start(w) !in events;
    AtMostTheReadInFlight(s, events, w);
    if events == [] {
    } else {
      var earlier, e := events[..|events| - 1], events[|events| - 1];
      assert events == earlier + [e];
      DeliveredAfterStop(s, earlier, w, count);
      DeliveryStep(Run(s, earlier).value, e, w, count);
      ReadsSnoc(earlier, e, w);
    }
  }

  function Backlog(s: State): int
    requires s.group.Some?
  {
    |s.stream| - s.group.value.last
  }

  /** The documented draining, exactly: of the entries waiting when the flag was set, none stays undelivered if
      and only if there were none, or one last read was executed and they fitted into its batch. Once the worker
      has left, and unless that read failed, it was executed exactly if it was in flight at the call. */
  lemma StopDrainsIff(s: State, events: seq<Event>, w: nat, count: nat)
    requires Inv(s) && Run(s, events).Some? && In(s, w) && w in s.stopping && s.group.Some?
    requires OnlyReader(events, w, count)
    ensures var t := Run(s, events).value;
            && ((forall id :: 0 <= id < |s.stream| ==> !Undelivered(t, id))
                <==> Backlog(s) == 0 || (ReadsOf(events, w) == 1 && Backlog(s) <= count))
            && (ReadSurvives(events, w) && In(t, w) && t.workers[w] == Down ==>
                  (ReadsOf(events, w) == 1 <==> s.workers[w] == Reading))
  {
    hide Interval, Ownership, Database;
    var t := Run(s, events).value;
    assert Start(w) !in events;
    AtMostTheReadInFlight(s, events, w);
    DeliveredAfterStop(s, events, w, count);
    if t.group.value.last < |s.stream| {
      assert Undelivered(t, t.group.value.last);
    }
  }

  /** For instance: an idle worker is stopped while entries wait, and leaves them all undelivered. */
  lemma StopLeavesBacklog(s: State, w: nat)
    requires Inv(s) && In(s, w) && s.workers[w] == Idle && s.group.Some? && Backlog(s) > 0
    ensures var events := [RequestStop(w)] + [Leave(w)];
            && Run(s, events).Some? && Run(s, events).value.workers[w] == Down
            && Run(s, events).value.stream == s.stream
            && forall id :: s.group.value.last <= id < |s.stream| ==> Undelivered(Run(s, events).value, id)
  {
    hide Inv, Interval;
    RunSnoc(s, [], RequestStop(w));
    assert [] + [RequestStop(w)] == [RequestStop(w)];
    RunSnoc(s, [RequestStop(w)], Leave(w));
  }

  // ----- A stopped worker finishes -----------------------------------------------------------

  /** How many own steps a stopping worker has left at most, if its reads ask for `count` entries. */
  function StepsLeft(p: Phase, count: nat): nat {
    match p
    case Down => 0
    case Idle => 1
    case Stored(_) => 2
    case Storing(_) => 3
    case Scanning(next, end, _) => 4 + if next < end then end - next else 0
    case Delivered(lo, hi) => 5 + if lo < hi then hi - lo else 0
    case Reading => 6 + count
  }

  /** The step a stopping worker takes when nothing fails. */
  function OwnStep(s: State, w: nat, count: nat): Event
    requires Inv(s) && In(s, w) && s.workers[w] != Down
  {
    match s.workers[w]
    case Idle => Leave(w)
    case Reading => Read(w, count)
    case Delivered(_, _) => Receive(w)
    case Scanning(next, end, ids) =>
      if next < end then if next < |s.stream| && s.stream[next] == Malformed then AckMalformed(w) else Keep(w)
      else if ids == [] then NothingToStore(w) else BeginStore(w)
    case Storing(_) => StoreOk(w)
    case Stored(_) => AckBatch(w)
  }

  /** A stopping worker can always go on, and every step of its own, failing or not, brings it
      closer to leaving. */
  lemma StoppedWorkerLeaves(s: State, e: Event, w: nat, count: nat)
    requires Inv(s) && s.group.Some? && In(s, w) && w in s.stopping && s.workers[w] != Down
    ensures Enabled(s, OwnStep(s, w, count))
    ensures Enabled(s, e) && Actor(s, e) == w && e != RequestStop(w) && (e.Read? ==> e.count <= count) ==>
              In(Next(s, e), w) && StepsLeft(Next(s, e).workers[w], count) < StepsLeft(s.workers[w], count)
  {
    hide Interval, Ownership, Database;
    assert PhaseOk(s, s.workers[w]);
  }

  /** The steps that worker w takes itself. */
  predicate IsOwn(e: Event, w: nat) { !e.Append? && !e.CreateGroup? && !e.RequestStop? && e.w == w }

  function OwnSteps(events: seq<Event>, w: nat): nat {
    if events == [] then 0
    else OwnSteps(events[..|events| - 1], w) + if IsOwn(events[|events| - 1], w) then 1 else 0
  }

  lemma OwnStepCounts(s: State, e: Event, w: nat, count: nat)
    requires Inv(s) && s.group.Some? && In(s, w) && w in s.stopping && Enabled(s, e)
    requires e != Start(w) && (e.Read? ==> e.count <= count)
    ensures In(Next(s, e), w)
    ensures StepsLeft(Next(s, e).workers[w], count) + (if IsOwn(e, w) then 1 else 0) <= StepsLeft(s.workers[w], count)
  {
    hide Interval, Inv;
    OthersUntouched(s, e);
    if IsOwn(e, w) {
      assert s.workers[w] != Down;
      StoppedWorkerLeaves(s, e, w, count);
    }
  }

  /** Over a whole run, a stopping worker takes at most `StepsLeft` steps of its own; with none left it is gone. */
  lemma {:induction false} StoppedWorkerStepsBounded(s: State, events: seq<Event>, w: nat, count: nat)
    requires Inv(s) && Run(s, events).Some? && s.group.Some? && In(s, w) && w in s.stopping && NeverStarts(events, w)
    requires forall k :: 0 <= k < |events| && events[k].Read? ==> events[k].count <= count
    ensures var t := Run(s, events).value;
            && In(t, w) && t.group.Some?
            && OwnSteps(events, w) + StepsLeft(t.workers[w], count) <= StepsLeft(s.workers[w], count)
            && (OwnSteps(events, w) == StepsLeft(s.workers[w], count) ==> t.workers[w] == Down)
  {
    hide Next, Enabled, Inv, IsOwn;
    if events == [] {
    } else {
      var earlier, e := events[..|events| - 1], events[|events| - 1];
      assert events == earlier + [e] && e == events[|events| - 1];
      var u := Run(s, earlier).value;
      StoppedWorkerStepsBounded(s, earlier, w, count);
      AtMostTheReadInFlight(s, earlier, w);
      RunKeepsInv(s, earlier);
      OwnStepCounts(u, e, w, count);
      GroupRemains(u, e);
    }
  }

  lemma GroupRemains(s: State, e: Event)
    requires Enabled(s, e) && s.group.Some?
    ensures Next(s, e).group.Some?
  {
    hide Interval, Held;
  }
}
