/**
  The in-memory ingestion buffer of `ingestion/queue.py`: producers put
  frames, `stop_worker` puts a sentinel, and one worker drains the queue in
  batches. Control changes hands only where the original awaits: before the
  worker takes an item and while a batch is being stored.
*/
module IngestionQueue {
  import opened Basics
  import opened Options

  datatype Item = Frame(payload: string) | Stop

  // ----- Specification --------------------------------------------------------

  function Frames(items: seq<Item>): seq<string> {
    if items == [] then []
    else Frames(items[..|items| - 1]) + if items[|items| - 1].Frame? then [items[|items| - 1].payload] else []
  }

  function Items(frames: seq<string>): (r: seq<Item>)
    ensures |r| == |frames|
  {
    seq(|frames|, i requires 0 <= i < |frames| => Frame(frames[i]))
  }

  function Concat(batches: seq<seq<string>>): seq<string> {
    if batches == [] then [] else Concat(batches[..|batches| - 1]) + batches[|batches| - 1]
  }

  /** Where the first sentinel is, or the length if there is none. */
  function FirstStop(queue: seq<Item>): (p: nat)
    ensures p <= |queue|
    ensures forall i :: 0 <= i < p ==> queue[i].Frame?
    ensures p < |queue| ==> queue[p] == Stop
  {
    if queue == [] then 0 else if queue[0].Stop? then 0 else 1 + FirstStop(queue[1..])
  }

  /** One drain: up to `room` frames, but never past a sentinel; a sentinel is
      consumed only if there was room left when it was reached. */
  function Batch(queue: seq<Item>, room: nat): seq<string> { Frames(queue[..Min(FirstStop(queue), room)]) }

  predicate SeesStop(queue: seq<Item>, room: nat) { FirstStop(queue) < |queue| && FirstStop(queue) < room }

  function Rest(queue: seq<Item>, room: nat): seq<Item> {
    queue[Min(FirstStop(queue), room) + if SeesStop(queue, room) then 1 else 0..]
  }

  // ----- The buffer as a protocol ---------------------------------------------------

  /** `taken` and `persisted` are history; `inFlight` is the batch being stored. */
  datatype State = State(
    batchSize: nat, queue: seq<Item>, stopped: bool, inFlight: Option<seq<string>>,
    enqueued: seq<string>, taken: seq<seq<string>>, persisted: seq<string>)

  datatype Event =
    | Enqueue(frames: seq<string>)
    | StopCall
    | Take                      // the worker gets an item and drains what is there
    | Flushed(ok: bool)         // the store returned, or raised

  function Init(batchSize: nat): State { State(batchSize, [], false, None, [], [], []) }

  predicate Enabled(s: State, e: Event) {
    match e
    case Enqueue(_) | StopCall => true
    case Take => !s.stopped && s.inFlight == None && s.queue != []
    case Flushed(_) => s.inFlight.Some?
  }

  function Next(s: State, e: Event): State
    requires Enabled(s, e)
  {
    match e
    case Enqueue(frames) => s.(queue := s.queue + Items(frames), enqueued := s.enqueued + frames)
    case StopCall => s.(queue := s.queue + [Stop])
    case Take =>
      var batch := Batch(s.queue, s.batchSize);
      s.(queue := Rest(s.queue, s.batchSize),
         stopped := SeesStop(s.queue, s.batchSize),
         inFlight := if batch == [] then None else Some(batch),
         taken := if batch == [] then s.taken else s.taken + [batch])
    case Flushed(ok) =>
      s.(inFlight := None, persisted := if ok then s.persisted + s.inFlight.value else s.persisted)
  }

  function Run(s: State, events: seq<Event>): Option<State> {
    if events == [] then Some(s)
    else
      var before := Run(s, events[..|events| - 1]);
      var e := events[|events| - 1];
      if before.Some? && Enabled(before.value, e) then Some(Next(before.value, e)) else None
  }

  // ----- Conservation -----------------------------------------------------------------

  lemma {:induction false} FramesConcat(a: seq<Item>, b: seq<Item>)
    ensures Frames(a + b) == Frames(a) + Frames(b)
  {
    if b == [] {
      assert a + b == a;
    } else {
      FramesConcat(a, b[..|b| - 1]);
      assert (a + b)[..|a + b| - 1] == a + b[..|b| - 1];
    }
  }

  lemma {:induction false} FramesOfItems(frames: seq<string>)
    ensures Frames(Items(frames)) == frames
  {
    if frames == [] {
    } else {
      FramesOfItems(frames[..|frames| - 1]);
      assert Items(frames)[..|frames| - 1] == Items(frames[..|frames| - 1]);
    }
  }

  lemma {:induction false} AllFrames(items: seq<Item>)
    requires forall i :: 0 <= i < |items| ==> items[i].Frame?
    ensures |Frames(items)| == |items|
  {
    if items == [] {
    } else {
      AllFrames(items[..|items| - 1]);
    }
  }

  lemma ConcatSnoc(batches: seq<seq<string>>, batch: seq<string>)
    ensures Concat(batches + [batch]) == Concat(batches) + batch
  {
  }

  lemma FramesSkipStop(queue: seq<Item>)
    requires queue != [] && queue[0] == Stop
    ensures Frames(queue) == Frames(queue[1..])
  {
    assert queue == [Stop] + queue[1..];
    FramesConcat([Stop], queue[1..]);
    assert [Stop][..0] == [];
  }

  lemma {:induction false} FirstStopIs(queue: seq<Item>, p: nat)
    requires p <= |queue| && (forall i :: 0 <= i < p ==> queue[i].Frame?) && (p < |queue| ==> queue[p] == Stop)
    ensures FirstStop(queue) == p
  {
  }

  lemma DrainSplits(queue: seq<Item>, room: nat)
    ensures Frames(queue) == Batch(queue, room) + Frames(Rest(queue, room))
    ensures |Batch(queue, room)| == Min(FirstStop(queue), room)
  {
    hide Frames, FirstStop;
    var k := Min(FirstStop(queue), room);
    assert queue == queue[..k] + queue[k..];
    FramesConcat(queue[..k], queue[k..]);
    AllFrames(queue[..k]);
    if SeesStop(queue, room) {
      FramesSkipStop(queue[k..]);
      assert queue[k..][1..] == Rest(queue, room);
    }
  }

  /** What a drain does to a queue with no sentinel, ... */
  lemma DrainWithoutStop(queue: seq<Item>, room: nat)
    requires FirstStop(queue) == |queue|
    ensures !SeesStop(queue, room) && FirstStop(Rest(queue, room)) == |Rest(queue, room)|
  {
  }

  /** ... to one whose sentinel is within reach, ... */
  lemma DrainToStop(queue: seq<Item>, room: nat)
    requires FirstStop(queue) < |queue| && FirstStop(queue) < room
    ensures SeesStop(queue, room) && Batch(queue, room) == Frames(queue[..FirstStop(queue)])
    ensures Rest(queue, room) == queue[FirstStop(queue) + 1..]
  {
  }

  /** ... and to one whose sentinel is further away. */
  lemma DrainShortOfStop(queue: seq<Item>, room: nat)
    requires room <= FirstStop(queue) < |queue|
    ensures !SeesStop(queue, room)
    ensures var p, rest := FirstStop(queue), Rest(queue, room);
            && FirstStop(rest) == p - room < |rest|
            && rest[p - room + 1..] == queue[p + 1..]
            && Frames(queue[..p]) == Batch(queue, room) + Frames(rest[..p - room])
  {
    hide Frames, FirstStop;
    var p, rest := FirstStop(queue), queue[room..];
    assert Rest(queue, room) == rest;
    FirstStopIs(rest, p - room);
    SplitPrefix(queue, room, p);
  }

  /** What is left to take in front of the first sentinel. */
  function Ahead(queue: seq<Item>): seq<string> { Frames(queue[..FirstStop(queue)]) }

  function Behind(queue: seq<Item>): seq<Item>
    requires FirstStop(queue) < |queue|
  {
    queue[FirstStop(queue) + 1..]
  }

  /** One round of the worker on a queue with a sentinel. */
  lemma DrainRound(queue: seq<Item>, room: nat)
    requires room >= 1 && FirstStop(queue) < |queue|
    ensures |Batch(queue, room)| <= room && |Rest(queue, room)| < |queue|
    ensures if SeesStop(queue, room) then Ahead(queue) == Batch(queue, room) && Rest(queue, room) == Behind(queue)
            else && FirstStop(Rest(queue, room)) < |Rest(queue, room)| && Behind(Rest(queue, room)) == Behind(queue)
                 && Ahead(queue) == Batch(queue, room) + Ahead(Rest(queue, room))
  {
    hide Frames, FirstStop;
    DrainSplits(queue, room);
    if FirstStop(queue) < room {
      DrainToStop(queue, room);
    } else {
      DrainShortOfStop(queue, room);
    }
  }

  lemma SplitPrefix(queue: seq<Item>, k: nat, p: nat)
    requires k <= p <= |queue|
    ensures Frames(queue[..p]) == Frames(queue[..k]) + Frames(queue[k..][..p - k])
    ensures p < |queue| ==> queue[k..][p - k + 1..] == queue[p + 1..]
  {
    hide Frames;
    assert queue[..p] == queue[..k] + queue[k..][..p - k];
    FramesConcat(queue[..k], queue[k..][..p - k]);
  }

  lemma FramesOfNone()
    ensures Frames([]) == []
  {
  }

  lemma FramesSnoc(queue: seq<Item>, k: nat)
    requires k < |queue| && queue[k].Frame?
    ensures Frames(queue[..k + 1]) == Frames(queue[..k]) + [queue[k].payload]
  {
    assert queue[..k + 1][..k] == queue[..k];
  }

  ghost predicate Inv(s: State) {
    && s.batchSize >= 1
    && s.enqueued == Concat(s.taken) + Frames(s.queue)
    && (forall k :: 0 <= k < |s.taken| ==> 1 <= |s.taken[k]| <= s.batchSize)
    && (s.inFlight.Some? ==> s.taken != [] && s.inFlight.value == s.taken[|s.taken| - 1])
  }

  lemma StepKeepsInv(s: State, e: Event)
    requires Inv(s) && Enabled(s, e)
    ensures Inv(Next(s, e))
  {
    hide Frames, Concat, Batch, Rest, SeesStop, FirstStop;
    match e
    case Enqueue(frames) =>
      FramesConcat(s.queue, Items(frames));
      FramesOfItems(frames);
    case StopCall =>
      FramesConcat(s.queue, [Stop]);
      FramesSkipStop([Stop]);
      FramesOfItems([]);
      assert [Stop][1..] == Items([]);
    case Take => TakeKeepsInv(s);
    case Flushed(_) =>
  }

  lemma TakeKeepsInv(s: State)
    requires Inv(s) && Enabled(s, Take)
    ensures Inv(Next(s, Take))
  {
    hide Frames, Concat, Batch, Rest, SeesStop, FirstStop;
    DrainSplits(s.queue, s.batchSize);
    ConcatSnoc(s.taken, Batch(s.queue, s.batchSize));
  }

  /** At every step of every run, what was enqueued is what was taken, in order,
      followed by what is queued; every batch has between 1 and batch_size frames. */
  lemma {:induction false} NothingLostOrReordered(batchSize: nat, events: seq<Event>)
    requires batchSize >= 1 && Run(Init(batchSize), events).Some?
    ensures Inv(Run(Init(batchSize), events).value)
  {
    hide Inv, Next, Enabled;
    if events == [] {
      InitInv(batchSize);
    } else {
      NothingLostOrReordered(batchSize, events[..|events| - 1]);
      StepKeepsInv(Run(Init(batchSize), events[..|events| - 1]).value, events[|events| - 1]);
    }
  }

  lemma InitInv(batchSize: nat)
    requires batchSize >= 1
    ensures Inv(Init(batchSize))
  {
  }

  // ----- Stopping -----------------------------------------------------------------------

  function StopCalls(events: seq<Event>): nat {
    if events == [] then 0
    else StopCalls(events[..|events| - 1]) + if events[|events| - 1] == StopCall then 1 else 0
  }

  /** The frames enqueued before the first stop call. */
  function BeforeStop(events: seq<Event>): seq<string> {
    if events == [] then []
    else
      var earlier, e := events[..|events| - 1], events[|events| - 1];
      BeforeStop(earlier) + if e.Enqueue? && StopCalls(earlier) == 0 then e.frames else []
  }

  /** Before the first stop call no sentinel is queued. After it, the first sentinel stands behind the frames
      enqueued before that call, or has been consumed right after the last of them; later calls change nothing. */
  ghost predicate StopInv(s: State, events: seq<Event>) {
    if StopCalls(events) == 0 then
      !s.stopped && FirstStop(s.queue) == |s.queue| && s.enqueued == BeforeStop(events)
    else if s.stopped then
      Concat(s.taken) == BeforeStop(events)
    else
      FirstStop(s.queue) < |s.queue| && Concat(s.taken) + Frames(s.queue[..FirstStop(s.queue)]) == BeforeStop(events)
  }

  lemma EventsSnoc(events: seq<Event>, e: Event)
    ensures StopCalls(events + [e]) == StopCalls(events) + if e == StopCall then 1 else 0
    ensures BeforeStop(events + [e])
         == BeforeStop(events) + if e.Enqueue? && StopCalls(events) == 0 then e.frames else []
  {
  }

  lemma TakeKeepsStopInv(s: State, events: seq<Event>)
    requires Inv(s) && StopInv(s, events) && Enabled(s, Take)
    ensures StopInv(Next(s, Take), events + [Take])
  {
    hide Frames, Concat, Batch, Rest, SeesStop, FirstStop, StopCalls, BeforeStop, Inv;
    TakeMoves(s);
    EventsSnoc(events, Take);
    if FirstStop(s.queue) == |s.queue| {
      DrainWithoutStop(s.queue, s.batchSize);
    } else if FirstStop(s.queue) < s.batchSize {
      DrainToStop(s.queue, s.batchSize);
    } else {
      DrainShortOfStop(s.queue, s.batchSize);
    }
  }

  lemma TakeMoves(s: State)
    requires Inv(s) && Enabled(s, Take)
    ensures Concat(Next(s, Take).taken) == Concat(s.taken) + Batch(s.queue, s.batchSize)
  {
    ConcatSnoc(s.taken, Batch(s.queue, s.batchSize));
  }

  lemma ProducerKeepsStopInv(s: State, events: seq<Event>, frames: seq<string>)
    requires Inv(s) && StopInv(s, events)
    ensures StopInv(Next(s, Enqueue(frames)), events + [Enqueue(frames)])
  {
    hide Frames, Concat, StopCalls, BeforeStop;
    EventsSnoc(events, Enqueue(frames));
    var q, t := s.queue, s.queue + Items(frames);
    if StopCalls(events) == 0 {
      FirstStopIs(t, |t|);
    } else if !s.stopped {
      FirstStopIs(t, FirstStop(q));
      assert t[..FirstStop(q)] == q[..FirstStop(q)];
    }
  }

  lemma StopCallKeepsStopInv(s: State, events: seq<Event>)
    requires Inv(s) && StopInv(s, events)
    ensures StopInv(Next(s, StopCall), events + [StopCall])
  {
    hide Frames, Concat, StopCalls, BeforeStop;
    var q, t := s.queue, s.queue + [Stop];
    EventsSnoc(events, StopCall);
    if !s.stopped {
      FirstStopIs(t, FirstStop(q));
      assert t[..FirstStop(q)] == q[..FirstStop(q)];
      assert StopCalls(events) == 0 ==> q[..FirstStop(q)] == q;
    }
  }

  lemma FlushKeepsStopInv(s: State, events: seq<Event>, ok: bool)
    requires Inv(s) && StopInv(s, events) && Enabled(s, Flushed(ok))
    ensures StopInv(Next(s, Flushed(ok)), events + [Flushed(ok)])
  {
    hide Frames, Concat, StopCalls, BeforeStop, FirstStop;
    EventsSnoc(events, Flushed(ok));
  }

  lemma {:induction false} StopInvHolds(batchSize: nat, events: seq<Event>)
    requires batchSize >= 1 && Run(Init(batchSize), events).Some?
    ensures StopInv(Run(Init(batchSize), events).value, events)
  {
    hide StopInv, Inv, Next, Enabled;
    if events == [] {
      InitStopInv(batchSize);
    } else {
      var earlier, e := events[..|events| - 1], events[|events| - 1];
      assert events == earlier + [e];
      var s := Run(Init(batchSize), earlier).value;
      StopInvHolds(batchSize, earlier);
      NothingLostOrReordered(batchSize, earlier);
      match e {
        case Enqueue(frames) => ProducerKeepsStopInv(s, earlier, frames);
        case StopCall => StopCallKeepsStopInv(s, earlier);
        case Take => TakeKeepsStopInv(s, earlier);
        case Flushed(ok) => FlushKeepsStopInv(s, earlier, ok);
      }
    }
  }

  lemma InitStopInv(batchSize: nat)
    requires batchSize >= 1
    ensures StopInv(Init(batchSize), [])
  {
  }

  // ----- What is persisted ----------------------------------------------------------------

  /** How the stores of a run went, in order. */
  function Outcomes(events: seq<Event>): seq<bool> {
    if events == [] then []
    else
      var e := events[|events| - 1];
      Outcomes(events[..|events| - 1]) + if e.Flushed? then [e.ok] else []
  }

  /** The batches whose store went well, one after the other. */
  function Kept(batches: seq<seq<string>>, outcomes: seq<bool>): seq<string>
    requires |outcomes| <= |batches|
  {
    if outcomes == [] then []
    else
      var n := |outcomes| - 1;
      Kept(batches, outcomes[..n]) + if outcomes[n] then batches[n] else []
  }

  lemma {:induction false} KeptOfMore(batches: seq<seq<string>>, more: seq<seq<string>>, outcomes: seq<bool>)
    requires |outcomes| <= |batches|
    ensures Kept(batches + more, outcomes) == Kept(batches, outcomes)
  {
    if outcomes == [] {
    } else {
      KeptOfMore(batches, more, outcomes[..|outcomes| - 1]);
    }
  }

  lemma KeptSnoc(batches: seq<seq<string>>, outcomes: seq<bool>, ok: bool)
    requires |outcomes| < |batches|
    ensures Kept(batches, outcomes + [ok]) == Kept(batches, outcomes) + if ok then batches[|outcomes|] else []
  {
    assert (outcomes + [ok])[..|outcomes|] == outcomes;
  }

  lemma {:induction false} AllKept(batches: seq<seq<string>>, outcomes: seq<bool>)
    requires |outcomes| == |batches| && false !in outcomes
    ensures Kept(batches, outcomes) == Concat(batches)
  {
    if batches == [] {
    } else {
      var n := |batches| - 1;
      AllKept(batches[..n], outcomes[..n]);
      KeptOfMore(batches[..n], [batches[n]], outcomes[..n]);
      assert batches == batches[..n] + [batches[n]];
    }
  }

  /** In every run the database holds exactly the batches whose store went well, in order; all but the
      batch in flight have had their turn. */
  lemma {:induction false} PersistedIsWhatWasStored(batchSize: nat, events: seq<Event>)
    requires batchSize >= 1 && Run(Init(batchSize), events).Some?
    ensures var t := Run(Init(batchSize), events).value;
            && |t.taken| == |Outcomes(events)| + (if t.inFlight.Some? then 1 else 0)
            && t.persisted == Kept(t.taken, Outcomes(events))
  {
    hide Batch, Rest, SeesStop;
    if events == [] {
    } else {
      var earlier, e := events[..|events| - 1], events[|events| - 1];
      var s := Run(Init(batchSize), earlier).value;
      PersistedIsWhatWasStored(batchSize, earlier);
      NothingLostOrReordered(batchSize, earlier);
      assert !e.Flushed? ==> Outcomes(events) == Outcomes(earlier);
      if e.Take? {
        KeptOfMore(s.taken, [Batch(s.queue, s.batchSize)], Outcomes(earlier));
      } else if e.Flushed? {
        KeptSnoc(s.taken, Outcomes(earlier), e.ok);
      }
    }
  }

  /** However producers, stop calls and worker interleave: a worker that has finished has taken exactly the
      frames enqueued before the first stop call, in order, and persisted the batches of them whose store went
      well; with no failed store, that is all of them. */
  lemma StoppedMeansFlushed(batchSize: nat, events: seq<Event>)
    requires batchSize >= 1 && Run(Init(batchSize), events).Some?
    ensures var t := Run(Init(batchSize), events).value;
            t.stopped && t.inFlight == None ==>
              && StopCalls(events) >= 1 && Concat(t.taken) == BeforeStop(events)
              && |Outcomes(events)| == |t.taken| && t.persisted == Kept(t.taken, Outcomes(events))
              && (false !in Outcomes(events) ==> t.persisted == BeforeStop(events))
  {
    hide Kept, Concat, BeforeStop, Outcomes, StopCalls, FirstStop, Frames;
    var t := Run(Init(batchSize), events).value;
    StopInvHolds(batchSize, events);
    PersistedIsWhatWasStored(batchSize, events);
    if t.stopped && t.inFlight == None && false !in Outcomes(events) {
      AllKept(t.taken, Outcomes(events));
    }
  }

  /** How many takes it needs to consume a sentinel behind `ahead` frames. */
  function TakesFor(ahead: nat, batchSize: nat): nat
    requires batchSize >= 1
    decreases ahead
  {
    if ahead < batchSize then 1 else 1 + TakesFor(ahead - batchSize, batchSize)
  }

  function TakesLeft(s: State): nat
    requires s.batchSize >= 1
  {
    if s.stopped then 0 else TakesFor(FirstStop(s.queue), s.batchSize)
  }

  /** And it does finish: once a sentinel is queued the worker can always go on,
      every take brings it exactly one closer, and producers cannot push it away. */
  lemma StopIsReached(s: State, e: Event)
    requires Inv(s) && Enabled(s, e) && !s.stopped && FirstStop(s.queue) < |s.queue|
    ensures s.inFlight.Some? ==> Enabled(s, Flushed(true))
    ensures s.inFlight == None ==> Enabled(s, Take)
    ensures TakesLeft(Next(s, e)) == TakesLeft(s) - if e == Take then 1 else 0
    ensures Next(s, e).stopped || FirstStop(Next(s, e).queue) < |Next(s, e).queue|
  {
    hide Batch, Rest, SeesStop, Frames, Concat;
    if e == Take {
      if FirstStop(s.queue) < s.batchSize {
        DrainToStop(s.queue, s.batchSize);
      } else {
        DrainShortOfStop(s.queue, s.batchSize);
      }
    } else {
      FirstStopIs(Next(s, e).queue, FirstStop(s.queue));
    }
  }

  function Takes(events: seq<Event>): nat {
    if events == [] then 0 else Takes(events[..|events| - 1]) + if events[|events| - 1] == Take then 1 else 0
  }

  ghost predicate SentinelAhead(s: State) { s.stopped || FirstStop(s.queue) < |s.queue| }

  /** Over a whole run from a queued sentinel, the takes done and the takes left add up to the takes it needed. */
  lemma {:induction false} TakesAreBounded(s: State, events: seq<Event>)
    requires Inv(s) && SentinelAhead(s) && Run(s, events).Some?
    ensures var t := Run(s, events).value;
            && Inv(t) && SentinelAhead(t)
            && Takes(events) + TakesLeft(t) == TakesLeft(s) && (TakesLeft(t) == 0 <==> t.stopped)
  {
    hide Next, Enabled, Inv, FirstStop;
    if events == [] {
      assert s.batchSize >= 1 by { BatchSizePositive(s); }
    } else {
      var earlier, e := events[..|events| - 1], events[|events| - 1];
      TakesAreBounded(s, earlier);
      var u := Run(s, earlier).value;
      StepKeepsInv(u, e);
      if u.stopped {
        StaysStopped(u, e);
      } else {
        StopIsReached(u, e);
      }
      BatchSizePositive(Next(u, e));
    }
  }

  lemma BatchSizePositive(s: State)
    requires Inv(s)
    ensures s.batchSize >= 1 && (!s.stopped ==> TakesLeft(s) >= 1)
  {
  }

  lemma StaysStopped(s: State, e: Event)
    requires Enabled(s, e) && s.stopped
    ensures Next(s, e).stopped && e != Take && Next(s, e).batchSize == s.batchSize
  {
  }

  // ----- What stays in the queue -----------------------------------------------------------------

  /** Everything that was ever put into the queue, in order. */
  function Put(events: seq<Event>): seq<Item> {
    if events == [] then [] else Put(events[..|events| - 1]) + PutBy(events[|events| - 1])
  }

  lemma {:induction false} ItemsSplit(a: seq<string>, b: seq<string>)
    ensures Items(a + b) == Items(a) + Items(b)
  {
  }

  /** A drained queue is its batch, the sentinel if it was consumed, and the rest. */
  lemma DrainTakesFront(queue: seq<Item>, room: nat)
    ensures queue == Items(Batch(queue, room)) + (if SeesStop(queue, room) then [Stop] else []) + Rest(queue, room)
  {
    hide Frames, FirstStop;
    var k := Min(FirstStop(queue), room);
    ItemsOfFrames(queue[..k]);
    assert queue == queue[..k] + queue[k..];
    if SeesStop(queue, room) {
      assert queue[k..] == [Stop] + queue[k + 1..];
    }
  }

  lemma {:induction false} ItemsOfFrames(items: seq<Item>)
    requires forall i :: 0 <= i < |items| ==> items[i].Frame?
    ensures Items(Frames(items)) == items
  {
    if items == [] {
    } else {
      var n := |items| - 1;
      ItemsOfFrames(items[..n]);
      ItemsSplit(Frames(items[..n]), [items[n].payload]);
      assert items == items[..n] + [items[n]];
      assert Items([items[n].payload]) == [items[n]];
    }
  }

  /** What was taken, the consumed sentinel, and what is still queued. */
  function TakenAndQueued(s: State): seq<Item> {
    Items(Concat(s.taken)) + (if s.stopped then [Stop] else []) + s.queue
  }

  function PutBy(e: Event): seq<Item> {
    if e.Enqueue? then Items(e.frames) else if e == StopCall then [Stop] else []
  }

  lemma StepPuts(s: State, e: Event)
    requires Inv(s) && Enabled(s, e)
    ensures TakenAndQueued(Next(s, e)) == TakenAndQueued(s) + PutBy(e)
  {
    hide Batch, Rest, SeesStop, FirstStop, Concat, Frames, Items, Inv;
    if e == Take {
      DrainTakesFront(s.queue, s.batchSize);
      TakeMoves(s);
      ItemsSplit(Concat(s.taken), Batch(s.queue, s.batchSize));
    }
  }

  /** In every run, what was put in is what was taken, the consumed sentinel, and what is still queued. */
  lemma {:induction false} PutIsTakenAndQueued(batchSize: nat, events: seq<Event>)
    requires batchSize >= 1 && Run(Init(batchSize), events).Some?
    ensures Put(events) == TakenAndQueued(Run(Init(batchSize), events).value)
  {
    hide Next, Enabled, Inv, TakenAndQueued, PutBy;
    if events == [] {
      NothingPut(batchSize);
    } else {
      var earlier, e := events[..|events| - 1], events[|events| - 1];
      PutIsTakenAndQueued(batchSize, earlier);
      NothingLostOrReordered(batchSize, earlier);
      StepPuts(Run(Init(batchSize), earlier).value, e);
    }
  }

  lemma NothingPut(batchSize: nat)
    ensures TakenAndQueued(Init(batchSize)) == []
  {
    assert Concat([]) == [] && Items([]) == [];
  }

  function Stops(items: seq<Item>): nat {
    if items == [] then 0 else Stops(items[..|items| - 1]) + if items[|items| - 1] == Stop then 1 else 0
  }

  lemma {:induction false} StopsConcat(a: seq<Item>, b: seq<Item>)
    ensures Stops(a + b) == Stops(a) + Stops(b)
  {
    if b == [] {
      assert a + b == a;
    } else {
      StopsConcat(a, b[..|b| - 1]);
      assert (a + b)[..|a + b| - 1] == a + b[..|b| - 1];
    }
  }

  lemma {:induction false} StopsNone(items: seq<Item>)
    ensures Stops(items) == 0 <==> FirstStop(items) == |items|
  {
    if items == [] {
    } else {
      var n := |items| - 1;
      StopsNone(items[..n]);
      if FirstStop(items[..n]) < n {
        FirstStopIs(items, FirstStop(items[..n]));
      } else {
        FirstStopIs(items, if items[n] == Stop then n else n + 1);
      }
    }
  }

  lemma {:induction false} StopsOfPut(events: seq<Event>)
    ensures Stops(Put(events)) == StopCalls(events)
  {
    if events == [] {
    } else {
      var earlier, e := events[..|events| - 1], events[|events| - 1];
      StopsOfPut(earlier);
      if e.Enqueue? {
        FirstStopIs(Items(e.frames), |e.frames|);
        StopsNone(Items(e.frames));
        StopsConcat(Put(earlier), Items(e.frames));
      } else if e == StopCall {
        assert Stops([Stop]) == 1 by { assert [Stop][..0] == []; }
        StopsConcat(Put(earlier), [Stop]);
      } else {
        assert Put(events) == Put(earlier);
      }
    }
  }

  /** After a finished run the queue holds exactly what was put in behind the first sentinel. It has one
      sentinel less than there were stop calls, so after two calls a restarted worker would stop at the second. */
  lemma LeftInQueue(batchSize: nat, events: seq<Event>)
    requires batchSize >= 1 && Run(Init(batchSize), events).Some? && Run(Init(batchSize), events).value.stopped
    ensures var t := Run(Init(batchSize), events).value;
            && FirstStop(Put(events)) < |Put(events)| && t.queue == Behind(Put(events))
            && Stops(t.queue) == StopCalls(events) - 1
            && (FirstStop(t.queue) < |t.queue| <==> StopCalls(events) >= 2)
  {
    hide Concat;
    var t := Run(Init(batchSize), events).value;
    var taken := Items(Concat(t.taken));
    PutIsTakenAndQueued(batchSize, events);
    FirstStopIs(Put(events), |taken|);
    StopsOfPut(events);
    StopsConcat(taken + [Stop], t.queue);
    StopsConcat(taken, [Stop]);
    FirstStopIs(taken, |taken|);
    StopsNone(taken);
    assert Stops([Stop]) == 1 by { assert [Stop][..0] == []; }
    StopsNone(t.queue);
  }

  // ----- The program --------------------------------------------------------------------

  class AsyncIngestionBuffer {
    const batchSize: nat
    const hasRepo: bool
    var queue: seq<Item>
    var stopped: bool
    var stored: seq<string>     // what the repository has received

    constructor (batchSize: int, hasRepo: bool)
      ensures this.batchSize == (if batchSize < 1 then 1 else batchSize) && this.hasRepo == hasRepo
      ensures queue == [] && !stopped && stored == []
    {
      this.batchSize := if batchSize < 1 then 1 else batchSize;
      this.hasRepo := hasRepo;
      queue, stopped, stored := [], false, [];
    }

    method EnqueueFrames(frames: seq<string>)
      modifies this`queue
      ensures queue == old(queue) + Items(frames)
    {
      assert queue + Items(frames[..0]) == queue;
      for k := 0 to |frames|
        invariant queue == old(queue) + Items(frames[..k])
      {
        assert Items(frames[..k + 1]) == Items(frames[..k]) + [Frame(frames[k])];
        queue := queue + [Frame(frames[k])];
      }
      assert frames[..|frames|] == frames;
    }

    method RequestStop()
      modifies this`queue
      ensures queue == old(queue) + [Stop]
    {
      queue := queue + [Stop];
    }

    /** One trip through the worker loop up to the flush: get, then drain without waiting. */
    method TakeBatch() returns (batch: seq<string>)
      requires queue != [] && !stopped && batchSize >= 1
      modifies this`queue, this`stopped
      ensures batch == Batch(old(queue), batchSize)
      ensures queue == Rest(old(queue), batchSize) && stopped == SeesStop(old(queue), batchSize)
    {
      hide Frames;
      ghost var q := queue;
      var first := queue[0];
      queue := queue[1..];
      batch := [];
      FramesOfNone();
      assert q[..0] == [];
      if first == Stop {
        stopped := true;
        return;
      }
      FramesSnoc(q, 0);
      batch := [first.payload];
      while |batch| < batchSize && queue != [] && !stopped
        invariant 1 <= |batch| <= batchSize && |batch| <= FirstStop(q)
        invariant batch == Frames(q[..|batch|])
        invariant stopped ==> |batch| < batchSize && |batch| == FirstStop(q) < |q| && queue == q[|batch| + 1..]
        invariant !stopped ==> queue == q[|batch|..]
        decreases |queue|
      {
        var item := queue[0];
        assert item == q[|batch|];
        queue := queue[1..];
        if item == Stop {
          FirstStopIs(q, |batch|);
          stopped := true;
        } else {
          FramesSnoc(q, |batch|);
          batch := batch + [item.payload];
        }
      }
    }

    method Flush(batch: seq<string>, storeOk: bool)
      modifies this`stored
      ensures stored == if hasRepo && storeOk then old(stored) + batch else old(stored)
    {
      if hasRepo && batch != [] && storeOk {
        stored := stored + batch;
      }
    }

    /** Whether each of `n` stores goes well; without a repository none does. */
    function Flags(n: nat, storeOk: int -> bool): (r: seq<bool>)
      ensures |r| == n
    {
      seq(n, k => hasRepo && storeOk(k))
    }

    /** `_run` with a sentinel queued, and any store outcomes: it ends, having taken everything in front of the
        sentinel in batches of 1 to batch_size, stored those batches whose store went well, and left
        everything behind the sentinel. */
    method RunUntilStopped(storeOk: int -> bool) returns (ghost batches: seq<seq<string>>)
      requires batchSize >= 1 && !stopped && FirstStop(queue) < |queue|
      modifies this
      ensures stopped && queue == Behind(old(queue)) && Concat(batches) == Ahead(old(queue))
      ensures forall k :: 0 <= k < |batches| ==> 1 <= |batches[k]| <= batchSize
      ensures stored == old(stored) + Kept(batches, Flags(|batches|, storeOk))
    {
      hide Batch, Rest, SeesStop, FirstStop, Concat, Kept, Ahead, Behind, Flags;
      ghost var before, all, behind := stored, Ahead(queue), Behind(queue);
      batches := [];
      NothingTaken();
      assert Flags(0, storeOk) == [];
      var n := 0;
      while !stopped
        invariant n == |batches| && stored == before + Kept(batches, Flags(n, storeOk))
        invariant forall k :: 0 <= k < |batches| ==> 1 <= |batches[k]| <= batchSize
        invariant stopped ==> Concat(batches) == all && queue == behind
        invariant !stopped ==>
          FirstStop(queue) < |queue| && Concat(batches) + Ahead(queue) == all && Behind(queue) == behind
        decreases !stopped, |queue|
      {
        DrainRound(queue, batchSize);
        var batch := TakeBatch();
        if batch != [] {
          Flush(batch, storeOk(n));
          FlagsSnoc(n, storeOk);
          OneBatchMore(batches, batch, Flags(n, storeOk), hasRepo && storeOk(n));
          batches, n := batches + [batch], n + 1;
        }
      }
    }

    lemma FlagsSnoc(n: nat, storeOk: int -> bool)
      ensures Flags(n + 1, storeOk) == Flags(n, storeOk) + [hasRepo && storeOk(n)]
    {
    }
  }

  lemma NothingTaken()
    ensures Concat([]) == [] && Kept([], []) == []
  {
  }

  lemma OneBatchMore(batches: seq<seq<string>>, batch: seq<string>, outcomes: seq<bool>, ok: bool)
    requires |outcomes| == |batches|
    ensures Concat(batches + [batch]) == Concat(batches) + batch
    ensures Kept(batches + [batch], outcomes + [ok]) == Kept(batches, outcomes) + if ok then batch else []
  {
    ConcatSnoc(batches, batch);
    KeptSnoc(batches + [batch], outcomes, ok);
    KeptOfMore(batches, [batch], outcomes);
  }

  // ----- Nothing blocks -----------------------------------------------------------------------

  /** Producers and stop calls are never kept waiting; a worker that has not stopped takes whenever something is
      queued and nothing is being stored, and a store under way can end either way. */
  lemma NothingBlocks(s: State, frames: seq<string>, ok: bool)
    ensures Enabled(s, Enqueue(frames)) && Enabled(s, StopCall)
    ensures !s.stopped && s.queue != [] && s.inFlight == None ==> Enabled(s, Take)
    ensures s.inFlight.Some? ==> Enabled(s, Flushed(ok))
    ensures s.stopped || s.inFlight.Some? || s.queue == [] ==> !Enabled(s, Take)
  {
  }

  /** A take leaves no frame behind that it had room for: it takes batch_size frames, or all up to the sentinel
      or the end of the queue. */
  lemma TakeIsFull(s: State)
    requires Inv(s) && Enabled(s, Take)
    ensures var t := Next(s, Take);
            var taken := if t.inFlight.Some? then t.inFlight.value else [];
            && s.enqueued == t.enqueued && t.persisted == s.persisted
            && t.taken == s.taken + (if taken == [] then [] else [taken])
            && (|taken| == s.batchSize || t.queue == [] || t.stopped)
            && (t.stopped ==> |taken| < s.batchSize)
  {
    hide Frames, Concat, FirstStop;
    DrainSplits(s.queue, s.batchSize);
  }
}
