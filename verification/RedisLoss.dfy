/**
  Frame loss. A frame reaches the database unless it was appended before the
  consumer group existed, or a worker let go of it before it was persisted:
  and in both cases it never does.
*/
module RedisLoss {
  import opened Options
  import opened RedisStream

  // ----- Frames let go of ---------------------------------------------------------------

  ghost predicate IsFrame(s: State, id: nat) { id < |s.stream| && s.stream[id].WellFormed? }

  /** A step in which a worker drops a frame that is not persisted yet: a failed store, a lost
      reply, or a death before the store has succeeded. */
  ghost predicate LosesFrame(s: State, e: Event)
    requires Enabled(s, e)
  {
    && (e.StoreFails? || e.ReplyLost? || (e.Crash? && !s.workers[e.w].Stored?))
    && exists id :: id in Held(s.workers[e.w]) && IsFrame(s, id)
  }

  ghost predicate FrameLost(s: State) { exists id :: id in s.lost && IsFrame(s, id) }

  ghost predicate LossAt(s: State, events: seq<Event>, k: nat)
    requires k < |events|
  {
    var before := Run(s, events[..k]);
    before.Some? && Enabled(before.value, events[k]) && LosesFrame(before.value, events[k])
  }

  ghost predicate SomeLoss(s: State, events: seq<Event>) { exists k :: 0 <= k < |events| && LossAt(s, events, k) }

  /** The delivered ids are positions of the stream. */
  lemma LostAreEntries(s: State)
    requires Inv(s)
    ensures forall id :: id in s.lost ==> id < |s.stream|
  {
    forall id | id in s.lost ensures id < |s.stream| {
      assert id in s.pending;
      assert id in Interval(s.group.value.start, s.group.value.last);
    }
  }

  lemma LostByStep(s: State, e: Event)
    requires Enabled(s, e)
    ensures s.stream <= Next(s, e).stream
    ensures Next(s, e).lost == s.lost
              + if e.StoreFails? || e.ReplyLost? || (e.Crash? && !s.workers[e.w].Stored?) then Held(s.workers[e.w])
                else {}
  {
    hide Interval, Held;
  }

  lemma StepLoses(s: State, e: Event)
    requires Inv(s) && Enabled(s, e)
    ensures FrameLost(Next(s, e)) <==> FrameLost(s) || LosesFrame(s, e)
  {
    hide Next, Enabled, Inv, Held;
    LostByStep(s, e);
    LostAreEntries(s);
    StepKeepsInv(s, e);
    LostAreEntries(Next(s, e));
    forall id | id in s.lost ensures IsFrame(s, id) <==> IsFrame(Next(s, e), id) {}
    if e.StoreFails? || e.ReplyLost? || e.Crash? {
      SameStream(s, e);
    }
  }

  lemma SameStream(s: State, e: Event)
    requires Enabled(s, e) && !e.Append?
    ensures Next(s, e).stream == s.stream
  {
    hide Interval, Held;
  }

  /** Over a whole run, some frame is let go of unpersisted exactly when some step of the run drops one. */
  lemma {:induction false} FrameLostIff(s: State, events: seq<Event>)
    requires Inv(s) && !FrameLost(s) && Run(s, events).Some?
    ensures FrameLost(Run(s, events).value) <==> SomeLoss(s, events)
  {
    hide Inv, Next, Enabled, LosesFrame, FrameLost;
    if events == [] {
    } else {
      var n := |events| - 1;
      var earlier := events[..n];
      FrameLostIff(s, earlier);
      RunKeepsInv(s, earlier);
      StepLoses(Run(s, earlier).value, events[n]);
      forall k | 0 <= k < n ensures LossAt(s, earlier, k) <==> LossAt(s, events, k) {
        assert earlier[..k] == events[..k];
      }
      assert LossAt(s, events, n) <==> LosesFrame(Run(s, earlier).value, events[n]);
    }
  }

  // ----- Frames older than the group ------------------------------------------------------

  /** What was appended before the consumer group was created. */
  function Early(events: seq<Event>): seq<Entry> {
    if events == [] then []
    else
      var earlier, e := events[..|events| - 1], events[|events| - 1];
      Early(earlier) + if e.Append? && CreateGroup !in earlier then e.entries else []
  }

  ghost predicate EarlyInv(s: State, events: seq<Event>) {
    if CreateGroup !in events then s.group == None && s.stream == Early(events)
    else s.group.Some? && s.group.value.start <= |s.stream| && s.stream[..s.group.value.start] == Early(events)
  }

  lemma EarlyStep(s: State, events: seq<Event>, e: Event)
    requires Enabled(s, e) && EarlyInv(s, events)
    ensures EarlyInv(Next(s, e), events + [e])
  {
    hide Interval, Held;
    assert (events + [e])[..|events|] == events;
    assert CreateGroup in events + [e] <==> CreateGroup in events || e == CreateGroup;
    GroupStays(s, e);
    if e.CreateGroup? && s.group == None {
      assert s.stream[..|s.stream|] == s.stream;
    }
  }

  lemma GroupStays(s: State, e: Event)
    requires Enabled(s, e)
    ensures s.group.Some? ==> Next(s, e).group.Some? && Next(s, e).group.value.start == s.group.value.start
    ensures s.group == None && e != CreateGroup ==> Next(s, e).group == None
    ensures s.stream <= Next(s, e).stream
  {
    hide Interval, Held;
  }

  lemma {:induction false} EarlyEntries(workers: nat, events: seq<Event>)
    requires Run(Init(workers), events).Some?
    ensures EarlyInv(Run(Init(workers), events).value, events)
  {
    hide Next, Enabled, EarlyInv;
    if events == [] {
      assert EarlyInv(Init(workers), []) by { NothingEarly(workers); }
    } else {
      var earlier, e := events[..|events| - 1], events[|events| - 1];
      assert events == earlier + [e];
      EarlyEntries(workers, earlier);
      EarlyStep(Run(Init(workers), earlier).value, earlier, e);
    }
  }

  lemma NothingEarly(workers: nat)
    ensures EarlyInv(Init(workers), []) && !FrameLost(Init(workers))
  {
  }

  // ----- Exactly when no frame is lost ------------------------------------------------------

  ghost predicate AllDelivered(s: State) { forall id :: 0 <= id < |s.stream| ==> !Undelivered(s, id) }

  ghost predicate AllPersisted(s: State) { forall id :: IsFrame(s, id) ==> id in s.persisted }

  ghost predicate NoFrame(entries: seq<Entry>) { forall k :: 0 <= k < |entries| ==> entries[k] == Malformed }

  /** At rest, a frame is in the database unless it is older than the group, undelivered, or lost. */
  lemma FrameAtRest(s: State, id: nat)
    requires Inv(s) && Quiescent(s) && IsFrame(s, id)
    ensures id in s.persisted <==> !BeforeGroup(s, id) && !Undelivered(s, id) && id !in s.lost
  {
    hide Interval;
    if id in s.persisted {
      PersistedWasDelivered(s, id);
    }
    if !BeforeGroup(s, id) && !Undelivered(s, id) {
      FatesAtRest(s, id);
    }
  }

  lemma PersistedWasDelivered(s: State, id: nat)
    requires Inv(s) && id in s.persisted
    ensures !BeforeGroup(s, id) && !Undelivered(s, id)
  {
    assert id in s.pending + s.acked;
    assert id in Interval(s.group.value.start, s.group.value.last);
  }

  /** The documented promise of no frame loss, exactly: once everything is delivered and no batch is in
      hand, every frame is in the database if and only if none was appended before the group was created and no
      step of the run dropped one. */
  lemma NoFrameLossIff(workers: nat, events: seq<Event>)
    requires Run(Init(workers), events).Some?
    requires Quiescent(Run(Init(workers), events).value) && AllDelivered(Run(Init(workers), events).value)
    ensures AllPersisted(Run(Init(workers), events).value)
            <==> NoFrame(Early(events)) && !SomeLoss(Init(workers), events)
  {
    hide Inv, Next, Enabled, Quiescent, SomeLoss, Early;
    var s, t := Init(workers), Run(Init(workers), events).value;
    InitInv(workers);
    NothingEarly(workers);
    RunKeepsInv(s, events);
    EarlyEntries(workers, events);
    FrameLostIff(s, events);
    forall id | IsFrame(t, id) ensures id in t.persisted <==> !BeforeGroup(t, id) && id !in t.lost {
      FrameAtRest(t, id);
    }
    EarlyAreOld(t, events);
    LostAreEntries(t);
    if AllPersisted(t) {
      forall k | 0 <= k < |Early(events)| ensures Early(events)[k] == Malformed {
        assert t.stream[k] == Early(events)[k] && BeforeGroup(t, k);
        assert !IsFrame(t, k);
      }
    }
  }

  lemma EarlyAreOld(t: State, events: seq<Event>)
    requires EarlyInv(t, events)
    ensures |Early(events)| <= |t.stream| && t.stream[..|Early(events)|] == Early(events)
    ensures forall id :: 0 <= id < |t.stream| ==> (BeforeGroup(t, id) <==> id < |Early(events)|)
  {
    hide Early;
    assert t.stream[..|t.stream|] == t.stream;
  }

  /** For instance: a frame enqueued before the first worker starts is lost in a run without any failure. */
  lemma EarlyFrameIsLost(frame: string)
    ensures var events := [Append([WellFormed(frame)])] + [CreateGroup] + [Start(0)];
            && Run(Init(1), events).Some?
            && var t := Run(Init(1), events).value;
               && Quiescent(t) && AllDelivered(t) && t.pending == {} && !SomeLoss(Init(1), events)
               && IsFrame(t, 0) && 0 !in t.persisted && Abandoned(t, 0)
  {
    var s, a, c := Init(1), Append([WellFormed(frame)]), CreateGroup;
    assert [] + [a] == [a];
    RunSnoc(s, [], a);
    RunSnoc(s, [a], c);
    RunSnoc(s, [a] + [c], Start(0));
    var events := [a] + [c] + [Start(0)];
    forall k | 0 <= k < |events| ensures !LossAt(s, events, k) {
      assert events[k] == a || events[k] == c || events[k] == Start(0);
    }
  }
}
