/** `evaluator/guardrails/policy.py`: the three checks an action passes before it runs. */
module Guardrails {
  import opened Options

  datatype ParamValue = Number(x: real) | NotNumeric

  /** The `executed_at` entry of an action's metadata. */
  datatype Stamp = Missing | At(time: real) | NotATime

  datatype Status = Selected | Approved | Blocked

  datatype Action = Action(
    actionType: string, targetRun: string, changeId: string,
    params: map<string, ParamValue>, executedAt: Stamp, status: Status)

  datatype Rule = ParameterBounds | CooldownPeriod | MaxFlapping

  datatype Policy = Policy(cooldown: real, maxFlapping: nat, window: real, bounds: map<string, (real, real)>)

  const DEFAULT_BOUNDS: map<string, (real, real)> := map[
    "temperature" := (0.0, 1.0), "top_k" := (1.0, 50.0), "reranker_cutoff" := (0.0, 1.0),
    "retrieval_depth" := (1.0, 20.0)]

  // ----- Specification --------------------------------------------------------

  function Signature(a: Action): string { a.actionType + ":" + a.targetRun + ":" + a.changeId }

  /** An action without a usable timestamp counts as executed just now. */
  function Elapsed(a: Action, now: real): real { if a.executedAt.At? then now - a.executedAt.time else 0.0 }

  ghost predicate WithinBounds(p: Policy, params: map<string, ParamValue>) {
    forall k :: k in params && k in p.bounds && params[k].Number? ==>
      p.bounds[k].0 <= params[k].x <= p.bounds[k].1
  }

  /** Some equal action is younger than the cooldown. */
  ghost predicate Cooling(p: Policy, history: seq<Action>, a: Action, now: real) {
    exists i :: 0 <= i < |history| && Signature(history[i]) == Signature(a) && Elapsed(history[i], now) < p.cooldown
  }

  /** How many actions on the run are at most a window old. */
  function FlapCount(p: Policy, history: seq<Action>, target: string, now: real): nat {
    if history == [] then 0
    else
      var last := history[|history| - 1];
      FlapCount(p, history[..|history| - 1], target, now)
        + if last.targetRun == target && !(Elapsed(last, now) > p.window) then 1 else 0
  }

  /** The first violated rule, with the clock read once for each timed check. */
  ghost function Verdict(p: Policy, history: seq<Action>, a: Action, now1: real, now2: real): Option<Rule> {
    if !WithinBounds(p, a.params) then Some(ParameterBounds)
    else if Cooling(p, history, a, now1) then Some(CooldownPeriod)
    else if FlapCount(p, history, a.targetRun, now2) >= p.maxFlapping then Some(MaxFlapping)
    else None
  }

  /** Equal type, target and change make equal signatures; see `SignatureUniqueIff` for the converse. */
  ghost predicate SameTarget(past: Action, a: Action) {
    Joined(past.actionType, past.targetRun, past.changeId) == Joined(a.actionType, a.targetRun, a.changeId)
  }

  /** At least the duration has passed since the stamp; without one, nothing has. */
  ghost predicate LastsAtLeast(stamp: Stamp, now: real, duration: real) {
    match stamp
    case At(time) => now >= time + duration
    case Missing | NotATime => duration <= 0.0
  }

  /** On the target, and stamped no longer than a window ago, or not stamped at all. */
  ghost predicate InWindow(p: Policy, past: Action, target: string, now: real) {
    past.targetRun == target
    && match past.executedAt
       case At(time) => now <= time + p.window
       case Missing | NotATime => p.window >= 0.0
  }

  /** The flapping count is the number of past actions in the window. */
  lemma {:induction false} FlapCountIsSize(p: Policy, history: seq<Action>, target: string, now: real)
    ensures FlapCount(p, history, target, now) == |set i | 0 <= i < |history| && InWindow(p, history[i], target, now)|
  {
    if history == [] {
    } else {
      var n := |history| - 1;
      var q := history[..n];
      FlapCountIsSize(p, q, target, now);
      assert (set i | 0 <= i < |history| && InWindow(p, history[i], target, now))
          == (set i | 0 <= i < |q| && InWindow(p, q[i], target, now))
             + if InWindow(p, history[n], target, now) then {n} else {};
    }
  }

  // ----- The program ------------------------------------------------------------

  class PolicyEvaluator {
    const policy: Policy

    constructor (cooldown: real, maxFlapping: nat, window: real, customBounds: map<string, (real, real)>)
      ensures policy == Policy(cooldown, maxFlapping, window, DEFAULT_BOUNDS + customBounds)
      ensures forall k :: k in customBounds ==> k in policy.bounds && policy.bounds[k] == customBounds[k]
      ensures "temperature" !in customBounds ==> policy.bounds["temperature"] == (0.0, 1.0)
      ensures "top_k" !in customBounds ==> policy.bounds["top_k"] == (1.0, 50.0)
      ensures "reranker_cutoff" !in customBounds ==> policy.bounds["reranker_cutoff"] == (0.0, 1.0)
      ensures "retrieval_depth" !in customBounds ==> policy.bounds["retrieval_depth"] == (1.0, 20.0)
      ensures policy.bounds.Keys == customBounds.Keys + {"temperature", "top_k", "reranker_cutoff", "retrieval_depth"}
    {
      policy := Policy(cooldown, maxFlapping, window, DEFAULT_BOUNDS + customBounds);
    }

    method CheckParameterBounds(a: Action) returns (allowed: bool)
      ensures allowed <==> WithinBounds(policy, a.params)
      ensures !allowed <==> exists k, x :: k in a.params && k in policy.bounds && a.params[k] == Number(x)
                                           && (x < policy.bounds[k].0 || policy.bounds[k].1 < x)
    {
      var todo := a.params.Keys;
      while todo != {}
        invariant todo <= a.params.Keys
        invariant forall k :: k in a.params.Keys - todo && k in policy.bounds && a.params[k].Number? ==>
                    policy.bounds[k].0 <= a.params[k].x <= policy.bounds[k].1
        decreases todo
      {
        var name :| name in todo;
        if name in policy.bounds && a.params[name].Number? {
          var bound, x := policy.bounds[name], a.params[name].x;
          if x < bound.0 || x > bound.1 {
            return false;
          }
        }
        todo := todo - {name};
      }
      allowed := true;
    }

    method CheckCooldown(a: Action, history: seq<Action>, now: real) returns (allowed: bool)
      ensures allowed <==> !Cooling(policy, history, a, now)
      ensures allowed <==> forall i :: 0 <= i < |history| && SameTarget(history[i], a) ==>
                             LastsAtLeast(history[i].executedAt, now, policy.cooldown)
    {
      for i := 0 to |history|
        invariant forall k :: 0 <= k < i ==>
          !(Signature(history[k]) == Signature(a) && Elapsed(history[k], now) < policy.cooldown)
      {
        if Elapsed(history[i], now) < policy.cooldown {
          if Signature(history[i]) == Signature(a) {
            return false;
          }
        }
      }
      allowed := true;
    }

    method CheckFlapping(a: Action, history: seq<Action>, now: real) returns (allowed: bool)
      ensures allowed <==> FlapCount(policy, history, a.targetRun, now) < policy.maxFlapping
      ensures allowed <==> |set i | 0 <= i < |history| && InWindow(policy, history[i], a.targetRun, now)|
                           < policy.maxFlapping
    {
      FlapCountIsSize(policy, history, a.targetRun, now);
      var flapped := 0;
      for i := 0 to |history|
        invariant flapped == FlapCount(policy, history[..i], a.targetRun, now)
      {
        assert history[..i + 1][..i] == history[..i];
        if Elapsed(history[i], now) > policy.window {
          continue;
        }
        if history[i].targetRun == a.targetRun {
          flapped := flapped + 1;
        }
      }
      assert history[..|history|] == history;
      allowed := flapped < policy.maxFlapping;
    }

    method ValidateAction(a: Action, history: seq<Action>, now1: real, now2: real) returns (violated: Option<Rule>)
      ensures violated == Verdict(policy, history, a, now1, now2)
      ensures violated == Some(ParameterBounds) <==> !WithinBounds(policy, a.params)
      ensures violated == Some(CooldownPeriod) <==> WithinBounds(policy, a.params) && Cooling(policy, history, a, now1)
      ensures violated == None <==>
              && WithinBounds(policy, a.params) && !Cooling(policy, history, a, now1)
              && FlapCount(policy, history, a.targetRun, now2) < policy.maxFlapping
    {
      var ok := CheckParameterBounds(a);
      if !ok {
        return Some(ParameterBounds);
      }
      ok := CheckCooldown(a, history, now1);
      if !ok {
        return Some(CooldownPeriod);
      }
      ok := CheckFlapping(a, history, now2);
      violated := if ok then None else Some(MaxFlapping);
    }
  }

  // ----- Signatures ---------------------------------------------------------------

  lemma SplitAtColon(a: string, b: string, x: string, y: string)
    requires ':' !in a && ':' !in b && a + ":" + x == b + ":" + y
    ensures a == b && x == y
  {
    var s := a + ":" + x;
    assert s[|a|] == ':' && s[|b|] == ':' by { assert (b + ":" + y)[|b|] == ':'; }
    assert a == s[..|a|] && b == (b + ":" + y)[..|b|];
    assert x == s[|a| + 1..] && y == (b + ":" + y)[|b| + 1..];
  }

  /** With no colon in action types and run ids, equal signatures mean equal actions. */
  lemma SignatureIdentifies(a: Action, b: Action)
    requires ':' !in a.actionType && ':' !in b.actionType && ':' !in a.targetRun && ':' !in b.targetRun
    ensures Signature(a) == Signature(b) <==>
            a.actionType == b.actionType && a.targetRun == b.targetRun && a.changeId == b.changeId
  {
    if Signature(a) == Signature(b) {
      var ra, rb := a.targetRun + ":" + a.changeId, b.targetRun + ":" + b.changeId;
      assert Signature(a) == a.actionType + ":" + ra && Signature(b) == b.actionType + ":" + rb;
      SplitAtColon(a.actionType, b.actionType, ra, rb);
      SplitAtColon(a.targetRun, b.targetRun, a.changeId, b.changeId);
    }
  }

  function Colons(s: string): nat { if s == "" then 0 else Colons(s[..|s| - 1]) + if s[|s| - 1] == ':' then 1 else 0 }

  lemma {:induction false} ColonsConcat(s: string, t: string)
    ensures Colons(s + t) == Colons(s) + Colons(t)
  {
    if t == "" {
      assert s + t == s;
    } else {
      ColonsConcat(s, t[..|t| - 1]);
      assert (s + t)[..|s + t| - 1] == s + t[..|t| - 1];
    }
  }

  lemma {:induction false} NoColons(s: string)
    ensures Colons(s) == 0 <==> ':' !in s
  {
    if s == "" {
    } else {
      NoColons(s[..|s| - 1]);
      assert s == s[..|s| - 1] + [s[|s| - 1]];
    }
  }

  function Joined(t: string, r: string, c: string): string { t + ":" + r + ":" + c }

  lemma ColonsOfSignature(t: string, r: string, c: string)
    ensures Colons(Joined(t, r, c)) == Colons(t) + Colons(r) + Colons(c) + 2
  {
    assert ":"[..0] == "" && Colons(":") == 1;
    ColonsConcat(t, ":");
    ColonsConcat(t + ":", r);
    ColonsConcat(t + ":" + r, ":");
    ColonsConcat(t + ":" + r + ":", c);
  }

  /** A signature belongs to one action only exactly when no part of it holds a colon: any
      further colon lets a different type, run and change share the signature. */
  lemma SignatureUniqueIff(a: Action)
    ensures (forall t, r, c :: Joined(t, r, c) == Signature(a) ==>
               t == a.actionType && r == a.targetRun && c == a.changeId)
            <==> ':' !in a.actionType && ':' !in a.targetRun && ':' !in a.changeId
  {
    var t, r, c := a.actionType, a.targetRun, a.changeId;
    assert Signature(a) == Joined(t, r, c);
    if ':' in t {
      var x, y := ColonSplits(t);
      assert Joined(x, y, r + ":" + c) == Signature(a);
    } else if ':' in r {
      var x, y := ColonSplits(r);
      assert Joined(t + ":" + x, y, c) == Signature(a);
    } else if ':' in c {
      var x, y := ColonSplits(c);
      assert Joined(t, r + ":" + x, y) == Signature(a);
    } else {
      forall t', r', c' | Joined(t', r', c') == Signature(a) ensures t' == t && r' == r && c' == c {
        OnlySplit(a, t', r', c');
      }
    }
  }

  lemma ColonSplits(s: string) returns (x: string, y: string)
    requires ':' in s
    ensures s == x + ":" + y && |x| < |s|
  {
    var i :| 0 <= i < |s| && s[i] == ':';
    x, y := s[..i], s[i + 1..];
  }

  lemma OnlySplit(a: Action, t: string, r: string, c: string)
    requires ':' !in a.actionType && ':' !in a.targetRun && ':' !in a.changeId
    requires Joined(t, r, c) == Signature(a)
    ensures t == a.actionType && r == a.targetRun && c == a.changeId
  {
    ColonsOfSignature(a.actionType, a.targetRun, a.changeId);
    ColonsOfSignature(t, r, c);
    NoColons(a.actionType);
    NoColons(a.targetRun);
    NoColons(a.changeId);
    NoColons(t);
    NoColons(r);
    SignatureIdentifies(a, Action(t, r, c, map[], Missing, Selected));
  }
}
