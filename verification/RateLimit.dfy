/**
  The sliding-window rate limiter of `api/middleware/rate_limit.py`. The
  locked body never awaits, so each request is one atomic step.
*/
module RateLimit {
  import opened Options

  const WINDOW := 60.0

  datatype Result = Admitted | Rejected(retryAfter: int)

  datatype Request = Request(client: string, now: real)

  type Log = map<string, seq<real>>

  // ----- Specification --------------------------------------------------------

  /** `[t for t in times if t > start]` */
  function Recent(times: seq<real>, start: real): seq<real> {
    if times == [] then []
    else if times[|times| - 1] > start then Recent(times[..|times| - 1], start) + [times[|times| - 1]]
    else Recent(times[..|times| - 1], start)
  }

  /** `defaultdict(list)` */
  function Entries(log: Log, client: string): seq<real> { if client in log then log[client] else [] }

  /** `max(1, int(60 - (now - oldest)))`; `int` truncates, which for a positive wait is the floor. */
  function RetryAfter(now: real, oldest: real): int {
    var wait := WINDOW - (now - oldest);
    var whole := if wait < 0.0 then -(-wait).Floor else wait.Floor;
    if whole < 1 then 1 else whole
  }

  predicate Fits(log: Log, r: Request, limit: nat) { |Recent(Entries(log, r.client), r.now - WINDOW)| < limit }

  function Handle(log: Log, r: Request, limit: nat): Log {
    var kept := Recent(Entries(log, r.client), r.now - WINDOW);
    log[r.client := if Fits(log, r, limit) then kept + [r.now] else kept]
  }

  function LogAfter(requests: seq<Request>, limit: nat): Log {
    if requests == [] then map[]
    else Handle(LogAfter(requests[..|requests| - 1], limit), requests[|requests| - 1], limit)
  }

  /** Whether a request is let through after the given ones. */
  predicate Admits(requests: seq<Request>, r: Request, limit: nat) { Fits(LogAfter(requests, limit), r, limit) }

  /** The times at which the client was let through, in order. */
  function Accepted(requests: seq<Request>, limit: nat, client: string): seq<real> {
    if requests == [] then []
    else
      var earlier, r := requests[..|requests| - 1], requests[|requests| - 1];
      if r.client == client && Admits(earlier, r, limit) then Accepted(earlier, limit, client) + [r.now]
      else Accepted(earlier, limit, client)
  }

  ghost predicate Monotone(requests: seq<Request>) {
    forall i, j :: 0 <= i < j < |requests| ==> requests[i].now <= requests[j].now
  }

  // ----- The program ------------------------------------------------------------

  class RateLimiter {
    var requests: Log

    constructor ()
      ensures requests == map[]
    {
      requests := map[];
    }

    method Reset()
      modifies this
      ensures requests == map[]
    {
      requests := map[];
    }

    /** A limit below 1 would index an empty list. The purge stays in place even on rejection. */
    method Serve(client: string, now: real, limit: nat) returns (result: Result)
      requires limit >= 1
      modifies this
      ensures requests == Handle(old(requests), Request(client, now), limit)
      ensures result.Admitted? <==> Fits(old(requests), Request(client, now), limit)
      ensures result.Rejected? ==>
                var kept := Recent(Entries(old(requests), client), now - WINDOW);
                kept != [] && result.retryAfter == RetryAfter(now, kept[0])
    {
      var entries := Entries(requests, client);
      var kept: seq<real> := [];
      for k := 0 to |entries|
        invariant kept == Recent(entries[..k], now - WINDOW)
      {
        assert entries[..k + 1][..k] == entries[..k];
        if entries[k] > now - WINDOW {
          kept := kept + [entries[k]];
        }
      }
      assert entries[..|entries|] == entries;
      if |kept| >= limit {
        requests := requests[client := kept];
        return Rejected(RetryAfter(now, kept[0]));
      }
      requests := requests[client := kept + [now]];
      result := Admitted;
    }
  }

  // ----- The log is the recent past ---------------------------------------------

  lemma RecentSnoc(times: seq<real>, t: real, start: real)
    ensures Recent(times + [t], start) == if t > start then Recent(times, start) + [t] else Recent(times, start)
  {
  }

  lemma {:induction false} RecentOfRecent(times: seq<real>, earlier: real, later: real)
    requires earlier <= later
    ensures Recent(Recent(times, earlier), later) == Recent(times, later)
  {
    if times == [] {
    } else {
      var p, t := times[..|times| - 1], times[|times| - 1];
      RecentOfRecent(p, earlier, later);
      if t > earlier {
        RecentSnoc(Recent(p, earlier), t, later);
      }
    }
  }

  /** The time of the client's latest request, if it made one. */
  function LastSeen(requests: seq<Request>, client: string): Option<real> {
    if requests == [] then None
    else if requests[|requests| - 1].client == client then Some(requests[|requests| - 1].now)
    else LastSeen(requests[..|requests| - 1], client)
  }

  lemma {:induction false} LastSeenBefore(requests: seq<Request>, client: string, now: real)
    requires forall i :: 0 <= i < |requests| ==> requests[i].now <= now
    ensures LastSeen(requests, client).Some? ==> LastSeen(requests, client).value <= now
  {
    if requests == [] {
    } else {
      LastSeenBefore(requests[..|requests| - 1], client, now);
    }
  }

  /** The stored list is exactly the client's accepted times of the last 60 seconds
      before its latest request, in order; a client never seen has an empty one. */
  ghost predicate LogMatches(requests: seq<Request>, limit: nat, client: string) {
    var stored, seen := Entries(LogAfter(requests, limit), client), LastSeen(requests, client);
    if seen.Some? then stored == Recent(Accepted(requests, limit, client), seen.value - WINDOW)
    else stored == [] && Accepted(requests, limit, client) == []
  }

  lemma MonotonePrefix(requests: seq<Request>, r: Request)
    requires Monotone(requests + [r])
    ensures Monotone(requests) && forall i :: 0 <= i < |requests| ==> requests[i].now <= r.now
  {
    var all := requests + [r];
    forall i, j | 0 <= i < j < |requests| ensures requests[i].now <= requests[j].now {
      assert all[i].now <= all[j].now;
    }
    forall i | 0 <= i < |requests| ensures requests[i].now <= r.now {
      assert all[i].now <= all[|requests|].now;
    }
  }

  /** What one more request does to the log and to the accepted times. */
  lemma RequestSnoc(requests: seq<Request>, r: Request, limit: nat, client: string)
    ensures LogAfter(requests + [r], limit) == Handle(LogAfter(requests, limit), r, limit)
    ensures Accepted(requests + [r], limit, client)
         == if r.client == client && Admits(requests, r, limit) then Accepted(requests, limit, client) + [r.now]
            else Accepted(requests, limit, client)
    ensures LastSeen(requests + [r], client) == if r.client == client then Some(r.now) else LastSeen(requests, client)
  {
    assert (requests + [r])[..|requests|] == requests;
  }

  lemma {:induction false} LogIsRecentPast(requests: seq<Request>, limit: nat, client: string)
    requires Monotone(requests)
    ensures LogMatches(requests, limit, client)
  {
    hide LogAfter, Accepted, LastSeen, Recent;
    if requests == [] {
      NothingLogged(limit, client);
    } else {
      var earlier, r := requests[..|requests| - 1], requests[|requests| - 1];
      assert requests == earlier + [r];
      MonotonePrefix(earlier, r);
      LogIsRecentPast(earlier, limit, client);
      RequestSnoc(earlier, r, limit, client);
      if r.client == client {
        EntriesAtRequest(earlier, r, limit);
        RecentSnoc(Accepted(earlier, limit, client), r.now, r.now - WINDOW);
      }
    }
  }

  lemma NothingLogged(limit: nat, client: string)
    ensures LogMatches([], limit, client)
  {
  }

  /** Purging the stored list at a new request leaves the accepted times of the last 60 seconds. */
  lemma EntriesAtRequest(requests: seq<Request>, r: Request, limit: nat)
    requires Monotone(requests + [r]) && LogMatches(requests, limit, r.client)
    ensures Recent(Entries(LogAfter(requests, limit), r.client), r.now - WINDOW)
         == Recent(Accepted(requests, limit, r.client), r.now - WINDOW)
  {
    hide LogAfter, Accepted;
    MonotonePrefix(requests, r);
    LastSeenBefore(requests, r.client, r.now);
    var seen := LastSeen(requests, r.client);
    if seen.Some? {
      RecentOfRecent(Accepted(requests, limit, r.client), seen.value - WINDOW, r.now - WINDOW);
    }
  }

  /** So a request is let through exactly when fewer than `limit` were in the last 60 seconds. */
  lemma AdmitsIffRoom(requests: seq<Request>, r: Request, limit: nat)
    requires Monotone(requests + [r])
    ensures Admits(requests, r, limit) <==> |Recent(Accepted(requests, limit, r.client), r.now - WINDOW)| < limit
  {
    hide LogAfter, Accepted, Recent, LogMatches;
    MonotonePrefix(requests, r);
    LogIsRecentPast(requests, limit, r.client);
    EntriesAtRequest(requests, r, limit);
  }

  // ----- No window holds more than the limit --------------------------------------

  ghost predicate Ascending(times: seq<real>) { forall i, j :: 0 <= i < j < |times| ==> times[i] <= times[j] }

  lemma {:induction false} AcceptedOrdered(requests: seq<Request>, limit: nat, client: string, now: real)
    requires Monotone(requests) && forall i :: 0 <= i < |requests| ==> requests[i].now <= now
    ensures Ascending(Accepted(requests, limit, client))
    ensures forall i :: 0 <= i < |Accepted(requests, limit, client)| ==> Accepted(requests, limit, client)[i] <= now
  {
    hide Admits;
    if requests == [] {
    } else {
      var earlier, r := requests[..|requests| - 1], requests[|requests| - 1];
      assert requests == earlier + [r];
      MonotonePrefix(earlier, r);
      AcceptedOrdered(earlier, limit, client, r.now);
    }
  }

  /** How many of the times lie in [start, start + 60). */
  function CountIn(times: seq<real>, start: real): nat {
    if times == [] then 0
    else CountIn(times[..|times| - 1], start) + if start <= times[|times| - 1] < start + WINDOW then 1 else 0
  }

  lemma {:induction false} WindowIsRecent(times: seq<real>, start: real, now: real)
    requires now - WINDOW < start
    ensures CountIn(times, start) <= |Recent(times, now - WINDOW)|
  {
    if times == [] {
    } else {
      WindowIsRecent(times[..|times| - 1], start, now);
    }
  }

  /** No 60-second window, wherever it starts, holds more accepted requests of a client than the limit. */
  lemma {:induction false} WindowNeverOverfull(requests: seq<Request>, limit: nat, client: string, start: real)
    requires Monotone(requests)
    ensures CountIn(Accepted(requests, limit, client), start) <= limit
  {
    hide Recent, CountIn, Admits;
    if requests == [] {
      CountInNothing(start);
    } else {
      var earlier, r := requests[..|requests| - 1], requests[|requests| - 1];
      assert requests == earlier + [r];
      MonotonePrefix(earlier, r);
      WindowNeverOverfull(earlier, limit, client, start);
      if r.client == client {
        var times := Accepted(earlier, limit, client);
        CountSnoc(times, r.now, start);
        AdmitsIffRoom(earlier, r, limit);
        if r.now < start + WINDOW {
          WindowIsRecent(times, start, r.now);
        }
      }
    }
  }

  lemma CountInNothing(start: real)
    ensures CountIn([], start) == 0
  {
  }

  lemma CountSnoc(times: seq<real>, t: real, start: real)
    ensures CountIn(times + [t], start) == CountIn(times, start) + if start <= t < start + WINDOW then 1 else 0
  {
  }

  // ----- Clients do not interfere ---------------------------------------------------

  function Only(requests: seq<Request>, client: string): seq<Request> {
    if requests == [] then []
    else if requests[|requests| - 1].client == client
        then Only(requests[..|requests| - 1], client) + [requests[|requests| - 1]]
    else Only(requests[..|requests| - 1], client)
  }

  /** What a client is granted depends on its own requests alone. */
  lemma {:induction false} ClientsAreIndependent(requests: seq<Request>, limit: nat, client: string)
    ensures Entries(LogAfter(requests, limit), client) == Entries(LogAfter(Only(requests, client), limit), client)
    ensures Accepted(requests, limit, client) == Accepted(Only(requests, client), limit, client)
  {
    hide LogAfter, Accepted, Recent;
    if requests == [] {
    } else {
      var earlier, r := requests[..|requests| - 1], requests[|requests| - 1];
      assert requests == earlier + [r];
      ClientsAreIndependent(earlier, limit, client);
      RequestSnoc(earlier, r, limit, client);
      if r.client == client {
        RequestSnoc(Only(earlier, client), r, limit, client);
      }
    }
  }

  // ----- Retry-After ------------------------------------------------------------------

  /** In ascending order the recent times are a suffix. */
  lemma {:induction false} RecentIsSuffix(times: seq<real>, start: real) returns (k: nat)
    requires Ascending(times)
    ensures k <= |times| && Recent(times, start) == times[k..]
    ensures (forall i :: 0 <= i < k ==> times[i] <= start) && (forall i :: k <= i < |times| ==> times[i] > start)
  {
    hide Recent;
    if times != [] && times[|times| - 1] > start {
      var p, t := times[..|times| - 1], times[|times| - 1];
      k := RecentIsSuffix(p, start);
      assert times == p + [t];
      RecentSnoc(p, t, start);
      assert times[k..] == p[k..] + [t];
    } else {
      NoneRecent(times, start);
      k := |times|;
    }
  }

  lemma {:induction false} NoneRecent(times: seq<real>, start: real)
    requires Ascending(times) && (times != [] ==> times[|times| - 1] <= start)
    ensures Recent(times, start) == []
  {
    if times == [] {
    } else {
      NoneRecent(times[..|times| - 1], start);
    }
  }

  /** At no later time are more than the limit of the accepted times recent. */
  lemma {:induction false} RecentWithinLimit(requests: seq<Request>, limit: nat, client: string, now: real)
    requires Monotone(requests) && forall i :: 0 <= i < |requests| ==> requests[i].now <= now
    ensures |Recent(Accepted(requests, limit, client), now - WINDOW)| <= limit
  {
    hide Recent, Admits;
    if requests == [] {
      NothingRecent(now - WINDOW);
    } else {
      var earlier, r := requests[..|requests| - 1], requests[|requests| - 1];
      assert requests == earlier + [r];
      MonotonePrefix(earlier, r);
      RecentWithinLimit(earlier, limit, client, now);
      if r.client == client {
        var times := Accepted(earlier, limit, client);
        AdmitsIffRoom(earlier, r, limit);
        RecentSnoc(times, r.now, now - WINDOW);
        RecentOfRecent(times, r.now - WINDOW, now - WINDOW);
        RecentShorter(Recent(times, r.now - WINDOW), now - WINDOW);
      }
    }
  }

  lemma NothingRecent(start: real)
    ensures Recent([], start) == []
  {
  }

  lemma {:induction false} RecentShorter(times: seq<real>, start: real)
    ensures |Recent(times, start)| <= |times|
  {
    if times == [] {
    } else {
      RecentShorter(times[..|times| - 1], start);
    }
  }

  /** How long a rejected client really has to wait. */
  function Wait(now: real, oldest: real): real { WINDOW - (now - oldest) }

  /** A rejected request, then requests that get nothing more for its client, then a new attempt. */
  ghost predicate Retried(requests: seq<Request>, r: Request, more: seq<Request>, again: Request, limit: nat) {
    && again.client == r.client && r.now <= again.now
    && Monotone(requests + [r]) && Monotone(requests + [r] + more + [again])
    && !Admits(requests, r, limit)
    && Accepted(requests + [r] + more, limit, r.client) == Accepted(requests, limit, r.client)
  }

  /** The client's accepted times still recent at its rejection. */
  function KeptAt(requests: seq<Request>, r: Request, limit: nat): seq<real> {
    Recent(Accepted(requests, limit, r.client), r.now - WINDOW)
  }

  /** After a rejection, with nothing admitted for the client in between, a new attempt is
      let through exactly when it comes no sooner than the oldest kept time expires. */
  lemma WaitIsExact(requests: seq<Request>, r: Request, more: seq<Request>, again: Request, limit: nat)
    requires limit >= 1 && Retried(requests, r, more, again, limit)
    ensures |KeptAt(requests, r, limit)| == limit && 0.0 < Wait(r.now, KeptAt(requests, r, limit)[0]) <= WINDOW
    ensures Admits(requests + [r] + more, again, limit)
        <==> again.now - r.now >= Wait(r.now, KeptAt(requests, r, limit)[0])
  {
    hide Recent, Admits, Accepted, Monotone;
    MonotonePrefix(requests, r);
    AdmitsIffRoom(requests, r, limit);
    AdmitsIffRoom(requests + [r] + more, again, limit);
    RecentWithinLimit(requests, limit, r.client, r.now);
    AcceptedOrdered(requests, limit, r.client, r.now);
    KeptAfter(Accepted(requests, limit, r.client), limit, r.now, again.now);
  }

  lemma KeptAfter(times: seq<real>, limit: nat, now: real, later: real)
    requires Ascending(times) && (forall i :: 0 <= i < |times| ==> times[i] <= now) && now <= later
    requires limit >= 1 && |Recent(times, now - WINDOW)| == limit
    ensures 0.0 < Wait(now, Recent(times, now - WINDOW)[0]) <= WINDOW
    ensures |Recent(times, later - WINDOW)| < limit <==> later - now >= Wait(now, Recent(times, now - WINDOW)[0])
  {
    hide Recent;
    var k := RecentIsSuffix(times, now - WINDOW);
    var l := RecentIsSuffix(times, later - WINDOW);
    assert Recent(times, now - WINDOW)[0] == times[k];
  }

  /** One second more than the header says is always enough; the header alone is
      enough exactly when the true wait is at most one second or a whole number. */
  lemma RetryAfterVersusWait(now: real, oldest: real)
    requires 0.0 < Wait(now, oldest)
    ensures RetryAfter(now, oldest) as real + 1.0 > Wait(now, oldest)
    ensures RetryAfter(now, oldest) as real >= Wait(now, oldest)
            <==> Wait(now, oldest) <= 1.0 || Wait(now, oldest) == Wait(now, oldest).Floor as real
  {
  }

  /** Waiting Retry-After + 1 seconds with no admission in between frees a slot; waiting
      just Retry-After does so exactly when the true wait is short or whole. */
  lemma RetryAfterPlusOneAdmits(requests: seq<Request>, r: Request, more: seq<Request>, again: Request, limit: nat)
    requires limit >= 1 && Retried(requests, r, more, again, limit)
    ensures KeptAt(requests, r, limit) != []
    ensures var oldest := KeptAt(requests, r, limit)[0];
            && (again.now - r.now >= RetryAfter(r.now, oldest) as real + 1.0
                ==> Admits(requests + [r] + more, again, limit))
            && (again.now - r.now == RetryAfter(r.now, oldest) as real ==>
                  (Admits(requests + [r] + more, again, limit)
                   <==> Wait(r.now, oldest) <= 1.0 || Wait(r.now, oldest) == Wait(r.now, oldest).Floor as real))
  {
    hide Admits, Retried, KeptAt, RetryAfter;
    WaitIsExact(requests, r, more, again, limit);
    RetryAfterVersusWait(r.now, KeptAt(requests, r, limit)[0]);
  }

  /** For instance, with a limit of 1: the request at 0.5 is told to wait 59 seconds, and is rejected
      again at 59.5, half a second before the first request expires. */
  lemma RetryAfterTooShort(client: string)
    ensures var first, second, retry := Request(client, 0.0), Request(client, 0.5), Request(client, 59.5);
            && Admits([], first, 1) && !Admits([first], second, 1) && RetryAfter(0.5, 0.0) == 59
            && retry.now - second.now == RetryAfter(0.5, 0.0) as real
            && !Admits([first] + [second], retry, 1)
  {
    var first, second, retry := Request(client, 0.0), Request(client, 0.5), Request(client, 59.5);
    assert [] + [first] == [first];
    RequestSnoc([], first, 1, client);
    assert LogAfter([first], 1) == Handle(map[], first, 1) == map[client := [] + [0.0]];
    RecentSnoc([], 0.0, 0.5 - WINDOW);
    RecentSnoc([], 0.0, 59.5 - WINDOW);
    assert [] + [0.0] == [0.0];
    RequestSnoc([first], second, 1, client);
  }
}
