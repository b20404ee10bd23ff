/**
  `RedisStreamBuffer` as a program against the stream server: `enqueue`, one
  pass of the worker loop, and the approximate `pending` counter.
*/
module RedisBuffer {
  import opened Basics
  import opened Options
  import opened RedisStream

  /** The server executes one command at a time. */
  class StreamServer {
    var s: State

    constructor (workers: nat)
      ensures s == Init(workers)
    {
      s := Init(workers);
    }

    method Perform(e: Event)
      requires Enabled(s, e)
      modifies this
      ensures s == Next(old(s), e)
    {
      s := Next(s, e);
    }
  }

  /** The well-formed, and the malformed, messages among positions [lo, hi). */
  function GoodIn(stream: seq<Entry>, lo: nat, hi: nat): seq<nat>
    requires lo <= hi <= |stream|
    decreases hi
  {
    if lo == hi then []
    else GoodIn(stream, lo, hi - 1) + if stream[hi - 1].WellFormed? then [hi - 1] else []
  }

  function BadIn(stream: seq<Entry>, lo: nat, hi: nat): set<nat>
    requires lo <= hi <= |stream|
    decreases hi
  {
    if lo == hi then {}
    else BadIn(stream, lo, hi - 1) + if stream[hi - 1] == Malformed then {hi - 1} else {}
  }

  /** The worker is about to read. */
  predicate Ready(s: State, w: nat) {
    In(s, w) && s.workers[w] == Idle && w !in s.stopping && s.group.Some? && s.group.value.last <= |s.stream|
  }

  /** What one undisturbed pass does: every malformed message is acknowledged;
      the well-formed ones are persisted and acknowledged together, or, if the
      store fails, all stay pending. */
  function AfterPass(s: State, w: nat, count: nat, stored: bool): State
    requires Ready(s, w)
  {
    var lo := s.group.value.last;
    var hi := Min(lo + count, |s.stream|);
    var good, bad := GoodIn(s.stream, lo, hi), BadIn(s.stream, lo, hi);
    s.(group := Some(s.group.value.(last := hi)),
       acked := s.acked + bad + (if stored then Elements(good) else {}),
       pending := if stored then s.pending else s.pending + Elements(good),
       persisted := if stored then s.persisted + good else s.persisted,
       lost := if stored then s.lost else s.lost + Elements(good))
  }

  /** State while the loop over the delivered messages stands at position k. */
  function MidPass(s: State, w: nat, hi: nat, k: nat): State
    requires In(s, w) && s.group.Some? && s.group.value.last <= k <= hi <= |s.stream|
  {
    var lo := s.group.value.last;
    s.(group := Some(s.group.value.(last := hi)),
       acked := s.acked + BadIn(s.stream, lo, k),
       pending := s.pending + Elements(GoodIn(s.stream, lo, k)) + Interval(k, hi),
       workers := s.workers[w := Scanning(k, hi, GoodIn(s.stream, lo, k))])
  }

  lemma {:induction false} GoodAndBad(stream: seq<Entry>, lo: nat, hi: nat)
    requires lo <= hi <= |stream|
    ensures forall id :: id in GoodIn(stream, lo, hi) <==> lo <= id < hi && stream[id].WellFormed?
    ensures forall id :: id in BadIn(stream, lo, hi) <==> lo <= id < hi && stream[id] == Malformed
  {
    if lo >= hi {
    } else {
      GoodAndBad(stream, lo, hi - 1);
    }
  }

  /** Every id from the last delivered one on is new: neither pending nor acknowledged. */
  ghost predicate FreshFrom(s: State, lo: nat) {
    (forall id :: id in s.pending ==> id < lo) && (forall id :: id in s.acked ==> id < lo)
  }

  lemma InvFresh(s: State)
    requires Inv(s) && s.group.Some?
    ensures FreshFrom(s, s.group.value.last)
  {
  }

  ghost predicate CanStep(s: State, e: Event, t: State) { Enabled(s, e) && Next(s, e) == t }

  lemma PassBegins(s: State, w: nat, count: nat)
    requires Ready(s, w)
    ensures var lo := s.group.value.last;
            var hi := Min(lo + count, |s.stream|);
            var reading := At(s, w, Reading);
            && CanStep(s, Poll(w), reading)
            && (lo == hi ==> CanStep(reading, Read(w, count), s))
            && (lo != hi ==> CanStep(reading, Read(w, count), Handed(s, w, hi))
                             && CanStep(Handed(s, w, hi), Receive(w), MidPass(s, w, hi, lo)))
  {
    hide GoodIn, BadIn, Interval;
    var lo := s.group.value.last;
    assert s.workers[w := Idle] == s.workers && Elements([]) == {};
    assert s.workers[w := Reading][w := Idle] == s.workers;
    assert GoodIn(s.stream, lo, lo) == [] && BadIn(s.stream, lo, lo) == {} by { NothingIn(s.stream, lo); }
  }

  lemma NothingIn(stream: seq<Entry>, lo: nat)
    requires lo <= |stream|
    ensures GoodIn(stream, lo, lo) == [] && BadIn(stream, lo, lo) == {}
  {
  }

  /** State after the server has handed out entries up to `hi`. */
  function Handed(s: State, w: nat, hi: nat): State
    requires In(s, w) && s.group.Some?
  {
    var lo := s.group.value.last;
    At(s.(group := Some(s.group.value.(last := hi)), pending := s.pending + Interval(lo, hi)), w, Delivered(lo, hi))
  }

  lemma PassStep(s: State, w: nat, hi: nat, k: nat)
    requires In(s, w) && s.group.Some? && s.group.value.last <= k < hi <= |s.stream|
    requires FreshFrom(s, s.group.value.last)
    ensures var e := if s.stream[k] == Malformed then AckMalformed(w) else Keep(w);
            Enabled(MidPass(s, w, hi, k), e) && Next(MidPass(s, w, hi, k), e) == MidPass(s, w, hi, k + 1)
  {
    hide Interval, GoodIn, BadIn;
    var lo := s.group.value.last;
    GoodAndBad(s.stream, lo, k);
    StepGoodAndBad(s.stream, lo, k);
    var mid, next := MidPass(s, w, hi, k), MidPass(s, w, hi, k + 1);
    assert Interval(k, hi) == Interval(k + 1, hi) + {k};
    if s.stream[k] == Malformed {
      assert mid.pending - {k} == next.pending;
    } else {
      assert mid.pending == next.pending;
    }
  }

  lemma StepGoodAndBad(stream: seq<Entry>, lo: nat, k: nat)
    requires lo <= k < |stream|
    ensures if stream[k] == Malformed
            then && GoodIn(stream, lo, k + 1) == GoodIn(stream, lo, k)
                 && BadIn(stream, lo, k + 1) == BadIn(stream, lo, k) + {k}
            else && GoodIn(stream, lo, k + 1) == GoodIn(stream, lo, k) + [k]
                 && BadIn(stream, lo, k + 1) == BadIn(stream, lo, k)
                 && Elements(GoodIn(stream, lo, k + 1)) == Elements(GoodIn(stream, lo, k)) + {k}
  {
  }

  lemma PassEndsEmpty(s: State, w: nat, count: nat, stored: bool)
    requires Ready(s, w)
    ensures var lo := s.group.value.last;
            var hi := Min(lo + count, |s.stream|);
            GoodIn(s.stream, lo, hi) == [] ==>
              CanStep(MidPass(s, w, hi, hi), NothingToStore(w), AfterPass(s, w, count, stored))
  {
    hide GoodIn, BadIn;
    var hi := Min(s.group.value.last + count, |s.stream|);
    assert Interval(hi, hi) == {} && Elements([]) == {};
    assert s.workers[w := Idle] == s.workers;
    assert s.persisted + [] == s.persisted && s.pending + {} == s.pending && s.lost + {} == s.lost;
  }

  /** The batch as the repository sees it, before and after a successful store. */
  function BatchPass(s: State, w: nat, hi: nat, stored: bool): State
    requires In(s, w) && s.group.Some? && s.group.value.last <= hi <= |s.stream|
  {
    var good := GoodIn(s.stream, s.group.value.last, hi);
    var mid := MidPass(s, w, hi, hi);
    mid.(workers := s.workers[w := if stored then Stored(good) else Storing(good)],
         persisted := if stored then s.persisted + good else s.persisted)
  }

  lemma PassStores(s: State, w: nat, hi: nat)
    requires In(s, w) && s.group.Some? && s.group.value.last <= hi <= |s.stream|
    ensures GoodIn(s.stream, s.group.value.last, hi) != [] ==>
              CanStep(MidPass(s, w, hi, hi), BeginStore(w), BatchPass(s, w, hi, false))
    ensures CanStep(BatchPass(s, w, hi, false), StoreOk(w), BatchPass(s, w, hi, true))
  {
    hide GoodIn, BadIn, Interval;
  }

  lemma PassEnds(s: State, w: nat, count: nat)
    requires Ready(s, w) && FreshFrom(s, s.group.value.last)
    ensures var hi := Min(s.group.value.last + count, |s.stream|);
            && CanStep(BatchPass(s, w, hi, false), StoreFails(w), AfterPass(s, w, count, false))
            && CanStep(BatchPass(s, w, hi, true), AckBatch(w), AfterPass(s, w, count, true))
  {
    hide GoodIn, BadIn;
    var lo := s.group.value.last;
    var hi := Min(lo + count, |s.stream|);
    var good := GoodIn(s.stream, lo, hi);
    GoodAndBad(s.stream, lo, hi);
    assert Interval(hi, hi) == {};
    assert s.workers[w := Idle] == s.workers;
    assert s.pending + Elements(good) - Elements(good) == s.pending;
    assert s.pending + Elements(good) + {} == s.pending + Elements(good);
  }

  // ----- What a pass does ---------------------------------------------------------------

  /** Each entry that a pass reads is acknowledged if it is malformed or its frame was stored, and else left
      pending; no other entry is touched. */
  lemma PassOnEntry(s: State, w: nat, count: nat, stored: bool, id: nat)
    requires Ready(s, w) && FreshFrom(s, s.group.value.last)
    ensures var t, lo := AfterPass(s, w, count, stored), s.group.value.last;
            var hi := Min(lo + count, |s.stream|);
            if lo <= id < hi then
              var done := s.stream[id] == Malformed || stored;
              (id in t.acked <==> done) && (id in t.pending <==> !done) && (!done ==> id in t.lost)
            else
              && (id in t.acked <==> id in s.acked) && (id in t.pending <==> id in s.pending)
              && (id in t.lost <==> id in s.lost)
  {
    hide GoodIn, BadIn;
    var lo := s.group.value.last;
    GoodAndBad(s.stream, lo, Min(lo + count, |s.stream|));
  }

  /** It delivers up to `count` entries, and stores their frames behind all others, in stream order, or none. */
  lemma PassStoresFrames(s: State, w: nat, count: nat, stored: bool)
    requires Ready(s, w)
    ensures var t, lo := AfterPass(s, w, count, stored), s.group.value.last;
            var hi := Min(lo + count, |s.stream|);
            && t.stream == s.stream && t.workers == s.workers && t.group == Some(Group(s.group.value.start, hi))
            && (!stored ==> t.persisted == s.persisted)
            && (stored ==> s.persisted <= t.persisted && IsFramesOf(t.persisted[|s.persisted|..], s.stream, lo, hi))
  {
    hide GoodIn, BadIn, IsFramesOf;
    var lo := s.group.value.last;
    var hi := Min(lo + count, |s.stream|);
    var good := GoodIn(s.stream, lo, hi);
    GoodAreFrames(s.stream, lo, hi);
    assert (s.persisted + good)[|s.persisted|..] == good;
  }

  /** The positions of the frames in [lo, hi), each once, in ascending order. */
  ghost predicate IsFramesOf(ids: seq<nat>, stream: seq<Entry>, lo: nat, hi: nat)
    requires hi <= |stream|
  {
    Increasing(ids) && forall id :: id in ids <==> lo <= id < hi && stream[id].WellFormed?
  }

  lemma {:induction false} GoodAreFrames(stream: seq<Entry>, lo: nat, hi: nat)
    requires lo <= hi <= |stream|
    ensures IsFramesOf(GoodIn(stream, lo, hi), stream, lo, hi)
  {
    if lo == hi {
    } else {
      GoodAreFrames(stream, lo, hi - 1);
      var good := GoodIn(stream, lo, hi - 1);
      forall k | 0 <= k < |good| ensures good[k] < hi - 1 {
        assert good[k] in good;
      }
    }
  }

  // ----- The counter --------------------------------------------------------------

  /** How the counter is credited: after a successful XADD, after a successful flush. */
  datatype Credit = Enqueued(n: nat) | Flushed(n: nat)

  function Sub(a: nat, b: nat): nat { if a < b then 0 else a - b }

  function Counter(credits: seq<Credit>): nat {
    if credits == [] then 0
    else
      var before, c := Counter(credits[..|credits| - 1]), credits[|credits| - 1];
      if c.Enqueued? then before + c.n else Sub(before, c.n)
  }

  /** Credited enqueues minus credited flushes, without clipping. */
  function Balance(credits: seq<Credit>): int {
    if credits == [] then 0
    else
      var before, c := Balance(credits[..|credits| - 1]), credits[|credits| - 1];
      if c.Enqueued? then before + c.n else before - c.n
  }

  /** The balance is what came in less what was flushed. */
  lemma BalanceSnoc(credits: seq<Credit>, n: nat)
    ensures Balance([]) == 0 && Balance(credits + [Enqueued(n)]) == Balance(credits) + n
    ensures Balance(credits + [Flushed(n)]) == Balance(credits) - n
  {
    assert (credits + [Enqueued(n)])[..|credits|] == credits && (credits + [Flushed(n)])[..|credits|] == credits;
  }

  lemma CounterSnoc(credits: seq<Credit>, c: Credit)
    ensures Counter(credits + [c]) == if c.Enqueued? then Counter(credits) + c.n else Sub(Counter(credits), c.n)
  {
  }

  /** Under every interleaving the clipped counter is exactly the largest net
      inflow since some moment of the past; in particular it never falls below
      the true balance, nor below zero. */
  lemma {:induction false} CounterIsLargestRecentInflow(credits: seq<Credit>) returns (since: nat)
    ensures since <= |credits| && Counter(credits) == Balance(credits) - Balance(credits[..since])
    ensures forall k :: 0 <= k <= |credits| ==> Counter(credits) >= Balance(credits) - Balance(credits[..k])
    ensures Counter(credits) >= Balance(credits)
  {
    assert credits[..|credits|] == credits;
    if credits == [] {
      since := 0;
    } else {
      var earlier, c := credits[..|credits| - 1], credits[|credits| - 1];
      since := CounterIsLargestRecentInflow(earlier);
      forall k | 0 <= k <= |earlier| ensures credits[..k] == earlier[..k] {}
      if c.Flushed? && Counter(earlier) < c.n {
        since := |credits|;
      }
      forall k | 0 <= k <= |credits| ensures Counter(credits) >= Balance(credits) - Balance(credits[..k]) {
        if k <= |earlier| {
          assert Counter(earlier) >= Balance(earlier) - Balance(earlier[..k]);
        }
      }
      assert credits[..0] == [];
    }
  }

  // ----- The program ----------------------------------------------------------------

  class RedisStreamBuffer {
    const w: nat
    const batchSize: nat
    const hasRepo: bool
    var pendingCount: nat
    ghost var credits: seq<Credit>

    ghost predicate Valid()
      reads this
    {
      batchSize >= 1 && pendingCount == Counter(credits)
    }

    /** `batch_size` is raised to at least 1. */
    constructor (w: nat, batchSize: int, hasRepo: bool)
      ensures Valid() && credits == []
      ensures this.w == w && this.hasRepo == hasRepo && this.batchSize == if batchSize < 1 then 1 else batchSize
    {
      this.w := w;
      this.batchSize := if batchSize < 1 then 1 else batchSize;
      this.hasRepo := hasRepo;
      pendingCount, credits := 0, [];
    }

    method Enqueue(server: StreamServer, frames: seq<Entry>)
      requires Valid()
      modifies this, server
      ensures Valid()
      ensures server.s == old(server.s).(stream := old(server.s.stream) + frames)
      ensures credits == old(credits) + if frames == [] then [] else [Enqueued(|frames|)]
    {
      if frames == [] {
        assert server.s.stream + frames == server.s.stream;
        return;
      }
      server.Perform(Append(frames));
      pendingCount := pendingCount + |frames|;
      CounterSnoc(credits, Enqueued(|frames|));
      credits := credits + [Enqueued(|frames|)];
    }

    /** The consumer group starts at the present end of the stream, unless it exists already. */
    method StartWorker(server: StreamServer)
      requires Valid() && In(server.s, w)
      modifies server
      ensures old(server.s).workers[w] != Down ==> server.s == old(server.s)
      ensures old(server.s).workers[w] == Down ==>
                var s := old(server.s);
                server.s == s.(workers := s.workers[w := Idle], stopping := s.stopping - {w},
                               group := if s.group.Some? then s.group else Some(Group(|s.stream|, |s.stream|)))
    {
      if server.s.workers[w] != Down {
        return;
      }
      server.Perform(CreateGroup);
      server.Perform(Start(w));
    }

    /** Called between two passes: the worker leaves, and whatever waits in the stream stays there. */
    method StopWorker(server: StreamServer)
      requires Valid() && In(server.s, w) && (server.s.workers[w] == Down || server.s.workers[w] == Idle)
      modifies server
      ensures old(server.s).workers[w] == Down ==> server.s == old(server.s)
      ensures old(server.s).workers[w] == Idle ==>
                var s := old(server.s);
                server.s == s.(workers := s.workers[w := Down], stopping := s.stopping + {w})
    {
      if server.s.workers[w] == Down {
        return;
      }
      server.Perform(RequestStop(w));
      server.Perform(Leave(w));
    }

    /** XREADGROUP up to the arrival of its reply. */
    method ReadBatch(server: StreamServer) returns (ghost events: seq<Event>)
      requires Ready(server.s, w)
      modifies server
      ensures Run(old(server.s), events) == Some(server.s)
      ensures var s := old(server.s);
              var lo := s.group.value.last;
              var hi := Min(lo + batchSize, |s.stream|);
              server.s == if lo == hi then s else MidPass(s, w, hi, lo)
    {
      hide Enabled, Next, MidPass, Handed, Run, At;
      ghost var s := server.s;
      PassBegins(s, w, batchSize);
      RunOfNone(s);
      var lo, hi := server.s.group.value.last, Min(server.s.group.value.last + batchSize, |server.s.stream|);
      events := Command(server, Poll(w), s, []);
      events := Command(server, Read(w, batchSize), s, events);
      if lo != hi {
        events := Command(server, Receive(w), s, events);
      }
    }

    /** `_flush`, from state `s` at the start of the pass. */
    method Flush(server: StreamServer, ids: seq<nat>, storeOk: bool, ghost s: State, ghost hi: nat,
        ghost before: seq<Event>)
      returns (ghost events: seq<Event>)
      requires Valid() && ids != [] && Ready(s, w) && FreshFrom(s, s.group.value.last)
      requires hi == Min(s.group.value.last + batchSize, |s.stream|) && ids == GoodIn(s.stream, s.group.value.last, hi)
      requires server.s == MidPass(s, w, hi, hi) && Run(s, before) == Some(server.s)
      modifies this, server
      ensures Valid() && Run(s, events) == Some(server.s)
      ensures server.s == AfterPass(s, w, batchSize, hasRepo && storeOk)
      ensures credits == old(credits) + if hasRepo && storeOk then [Flushed(|ids|)] else []
    {
      hide Enabled, Next, AfterPass, MidPass, BatchPass, Run, GoodIn;
      assert credits + [] == credits;
      PassStores(s, w, hi);
      PassEnds(s, w, batchSize);
      events := Command(server, BeginStore(w), s, before);
      if hasRepo && storeOk {
        events := Command(server, StoreOk(w), s, events);
        events := Command(server, AckBatch(w), s, events);
        pendingCount := Sub(pendingCount, |ids|);
        CounterSnoc(credits, Flushed(|ids|));
        credits := credits + [Flushed(|ids|)];
      } else {
        events := Command(server, StoreFails(w), s, events);
      }
    }

    /** One undisturbed pass of the worker loop, as the sequence of server commands it issues. */
    method Pass(server: StreamServer, storeOk: bool) returns (ghost events: seq<Event>)
      requires Valid() && Ready(server.s, w) && FreshFrom(server.s, server.s.group.value.last)
      modifies this, server
      ensures Valid() && Run(old(server.s), events) == Some(server.s)
      ensures server.s == AfterPass(old(server.s), w, batchSize, hasRepo && storeOk)
      ensures var lo := old(server.s).group.value.last;
              var good := GoodIn(old(server.s).stream, lo, Min(lo + batchSize, |old(server.s).stream|));
              credits == old(credits) + if good != [] && hasRepo && storeOk then [Flushed(|good|)] else []
    {
      hide Enabled, Next, AfterPass, MidPass, Run, GoodIn;
      assert credits + [] == credits;
      ghost var s := server.s;
      var stream, lo := server.s.stream, server.s.group.value.last;
      var hi := Min(lo + batchSize, |stream|);
      events := ReadBatch(server);
      if lo == hi {
        NothingRead(s, w, batchSize, hasRepo && storeOk);
        return;
      }
      NothingIn(stream, lo);
      var k, ids := lo, [];
      while k < hi
        modifies server
        invariant lo <= k <= hi && ids == GoodIn(stream, lo, k)
        invariant server.s == MidPass(s, w, hi, k) && Run(s, events) == Some(server.s)
      {
        PassStep(s, w, hi, k);
        StepGoodAndBad(stream, lo, k);
        if stream[k] == Malformed {
          events := Command(server, AckMalformed(w), s, events);
        } else {
          events := Command(server, Keep(w), s, events);
          ids := ids + [k];
        }
        k := k + 1;
      }
      if ids == [] {
        PassEndsEmpty(s, w, batchSize, hasRepo && storeOk);
        events := Command(server, NothingToStore(w), s, events);
      } else {
        events := Flush(server, ids, storeOk, s, hi, events);
      }
    }
  }

  /** Issues one command and records it behind the events since state `s`. */
  method Command(server: StreamServer, e: Event, ghost s: State, ghost events: seq<Event>)
    returns (ghost events': seq<Event>)
    requires Enabled(server.s, e) && Run(s, events) == Some(server.s)
    modifies server
    ensures server.s == Next(old(server.s), e) && Run(s, events') == Some(server.s)
  {
    RunSnoc(s, events, e);
    events' := events + [e];
    server.Perform(e);
  }

  lemma RunOfNone(s: State)
    ensures Run(s, []) == Some(s)
  {
  }

  lemma NothingRead(s: State, w: nat, count: nat, stored: bool)
    requires Ready(s, w) && Min(s.group.value.last + count, |s.stream|) == s.group.value.last
    ensures AfterPass(s, w, count, stored) == s
    ensures GoodIn(s.stream, s.group.value.last, s.group.value.last) == []
  {
  }
}
