/**
  `run_optimization_cycle` of `evaluator/optimization/runner.py` from the
  policy call to the history append, over whole runs with a monotone clock.

  A blocked action enters the history without `executed_at`, so every later
  check sees it as executed just now.
*/
module OptimizationRunner {
  import opened Guardrails
  import opened Options

  /** A selected action and the three clock readings of its cycle. */
  datatype Cycle = Cycle(action: Action, now1: real, now2: real, now3: real)

  datatype Outcome = NoActionNeeded | Done(action: Action, violated: Option<Rule>)

  // ----- Specification --------------------------------------------------------

  function Tagged(a: Action, violated: Option<Rule>, now: real): Action {
    if violated.Some? then a.(status := Blocked) else a.(status := Approved, executedAt := At(now))
  }

  /** The history after a run of cycles, from an initial history. */
  ghost function History(p: Policy, initial: seq<Action>, cycles: seq<Cycle>): seq<Action> {
    if cycles == [] then initial
    else
      var before, c := History(p, initial, cycles[..|cycles| - 1]), cycles[|cycles| - 1];
      before + [Tagged(c.action, Verdict(p, before, c.action, c.now1, c.now2), c.now3)]
  }

  /** What the policy said in cycle i. */
  ghost function Ruling(p: Policy, initial: seq<Action>, cycles: seq<Cycle>, i: nat): Option<Rule>
    requires i < |cycles|
  {
    Verdict(p, History(p, initial, cycles[..i]), cycles[i].action, cycles[i].now1, cycles[i].now2)
  }

  ghost predicate IsApproved(p: Policy, initial: seq<Action>, cycles: seq<Cycle>, i: nat)
    requires i < |cycles|
  {
    Ruling(p, initial, cycles, i) == None
  }

  /** The clock never runs backwards, and the engine selects actions without a timestamp. */
  ghost predicate Plausible(cycles: seq<Cycle>) {
    && (forall i :: 0 <= i < |cycles| ==>
          cycles[i].now1 <= cycles[i].now2 <= cycles[i].now3 && cycles[i].action.executedAt == Missing)
    && (forall i, j :: 0 <= i < j < |cycles| ==> cycles[i].now3 <= cycles[j].now1)
  }

  // ----- The program ------------------------------------------------------------

  class Runner {
    const evaluator: PolicyEvaluator
    var history: seq<Action>

    constructor (evaluator: PolicyEvaluator, initial: seq<Action>)
      ensures this.evaluator == evaluator && history == initial
    {
      this.evaluator := evaluator;
      history := initial;
    }

    method RunCycle(selected: Option<Action>, now1: real, now2: real, now3: real) returns (outcome: Outcome)
      modifies this`history
      ensures selected == None ==> outcome == NoActionNeeded && history == old(history)
      ensures selected.Some? ==>
                var ruling := Verdict(evaluator.policy, old(history), selected.value, now1, now2);
                var tagged := Tagged(selected.value, ruling, now3);
                outcome == Done(tagged, ruling) && history == old(history) + [tagged]
      ensures selected.Some? ==>
                var a := selected.value;
                && outcome.Done? && |history| == |old(history)| + 1 && history[..|old(history)|] == old(history)
                && history[|old(history)|] == outcome.action
                && (outcome.violated == None ==>
                      outcome.action == Action(a.actionType, a.targetRun, a.changeId, a.params, At(now3), Approved))
                && (outcome.violated.Some? ==>
                      outcome.action == Action(a.actionType, a.targetRun, a.changeId, a.params, a.executedAt, Blocked))
    {
      if selected == None {
        return NoActionNeeded;
      }
      var violated := evaluator.ValidateAction(selected.value, history, now1, now2);
      var tagged := Tagged(selected.value, violated, now3);
      history := history + [tagged];
      outcome := Done(tagged, violated);
    }

    /** Successive cycles build exactly the history the run laws speak about. */
    method RunAll(cycles: seq<Cycle>)
      modifies this`history
      ensures history == History(evaluator.policy, old(history), cycles)
    {
      ghost var initial := history;
      assert History(evaluator.policy, initial, cycles[..0]) == initial;
      for i := 0 to |cycles|
        invariant history == History(evaluator.policy, initial, cycles[..i])
      {
        assert cycles[..i + 1][..i] == cycles[..i];
        var outcome := RunCycle(Some(cycles[i].action), cycles[i].now1, cycles[i].now2, cycles[i].now3);
      }
      assert cycles[..|cycles|] == cycles;
    }
  }

  // ----- Laws of whole runs -------------------------------------------------------

  /** Entry i of the run sits behind the initial history and carries its ruling. */
  lemma {:induction false} EntryAt(p: Policy, initial: seq<Action>, cycles: seq<Cycle>, i: nat)
    requires i < |cycles|
    ensures |History(p, initial, cycles)| == |initial| + |cycles|
    ensures History(p, initial, cycles)[|initial| + i]
         == Tagged(cycles[i].action, Ruling(p, initial, cycles, i), cycles[i].now3)
  {
    hide Verdict;
    var q := cycles[..|cycles| - 1];
    HistoryLength(p, initial, q);
    if i >= |q| {
    } else {
      EntryAt(p, initial, q, i);
      assert q[..i] == cycles[..i];
    }
  }

  lemma {:induction false} HistoryLength(p: Policy, initial: seq<Action>, cycles: seq<Cycle>)
    ensures |History(p, initial, cycles)| == |initial| + |cycles|
  {
    if cycles == [] {
    } else {
      HistoryLength(p, initial, cycles[..|cycles| - 1]);
    }
  }

  lemma SeenLater(p: Policy, initial: seq<Action>, cycles: seq<Cycle>, i: nat, j: nat)
    requires i < j < |cycles|
    ensures |History(p, initial, cycles[..j])| == |initial| + j
    ensures History(p, initial, cycles[..j])[|initial| + i]
         == Tagged(cycles[i].action, Ruling(p, initial, cycles, i), cycles[i].now3)
  {
    EntryAt(p, initial, cycles[..j], i);
    assert cycles[..j][..i] == cycles[..i];
  }

  /** Equal approved actions are at least the cooldown apart. */
  lemma ApprovedRespectCooldown(p: Policy, initial: seq<Action>, cycles: seq<Cycle>, i: nat, j: nat)
    requires Plausible(cycles) && i < j < |cycles|
    requires IsApproved(p, initial, cycles, i) && IsApproved(p, initial, cycles, j)
    requires Signature(cycles[i].action) == Signature(cycles[j].action)
    ensures cycles[j].now3 - cycles[i].now3 >= p.cooldown
  {
    hide WithinBounds, FlapCount;
    SeenLater(p, initial, cycles, i, j);
    var past := History(p, initial, cycles[..j])[|initial| + i];
    assert Signature(past) == Signature(cycles[j].action);
    assert !(Elapsed(past, cycles[j].now1) < p.cooldown);
  }

  /** With a positive cooldown, an action blocked once is blocked for good. */
  lemma BlockedStaysBlocked(p: Policy, initial: seq<Action>, cycles: seq<Cycle>, i: nat, j: nat)
    requires Plausible(cycles) && p.cooldown > 0.0 && i < j < |cycles|
    requires !IsApproved(p, initial, cycles, i) && Signature(cycles[i].action) == Signature(cycles[j].action)
    ensures !IsApproved(p, initial, cycles, j)
  {
    hide WithinBounds, FlapCount;
    SeenLater(p, initial, cycles, i, j);
    var past := History(p, initial, cycles[..j])[|initial| + i];
    assert Signature(past) == Signature(cycles[j].action) && Elapsed(past, cycles[j].now1) == 0.0;
  }

  /** Approved actions of the run on one target with times in [start, start + window]. */
  ghost function ApprovedWithin(p: Policy, initial: seq<Action>, cycles: seq<Cycle>, target: string, start: real): nat {
    if cycles == [] then 0
    else
      var n := |cycles| - 1;
      ApprovedWithin(p, initial, cycles[..n], target, start)
        + if IsApproved(p, initial, cycles, n) && cycles[n].action.targetRun == target
             && start <= cycles[n].now3 <= start + p.window then 1 else 0
  }

  /** Up to the time of a later check, the policy counts at least those actions. */
  lemma {:induction false} WindowIsCounted(p: Policy, initial: seq<Action>, cycles: seq<Cycle>, target: string,
                                            start: real, now: real)
    requires Plausible(cycles) && now <= start + p.window
    ensures ApprovedWithin(p, initial, cycles, target, start) <= FlapCount(p, History(p, initial, cycles), target, now)
  {
    hide Verdict;
    if cycles == [] {
    } else {
      var n := |cycles| - 1;
      var before := History(p, initial, cycles[..n]);
      WindowIsCounted(p, initial, cycles[..n], target, start, now);
      FlapCountSnoc(p, before, Tagged(cycles[n].action, Ruling(p, initial, cycles, n), cycles[n].now3), target, now);
    }
  }

  lemma FlapCountSnoc(p: Policy, history: seq<Action>, a: Action, target: string, now: real)
    ensures FlapCount(p, history + [a], target, now)
         == FlapCount(p, history, target, now) + if a.targetRun == target && !(Elapsed(a, now) > p.window) then 1 else 0
  {
  }

  /** No flapping window, wherever it starts, holds more than the maximum of approved actions per target. */
  lemma {:induction false} FlappingIsBounded(p: Policy, initial: seq<Action>, cycles: seq<Cycle>, target: string,
      start: real)
    requires Plausible(cycles)
    ensures ApprovedWithin(p, initial, cycles, target, start) <= p.maxFlapping
  {
    hide WithinBounds, Cooling, FlapCount;
    if cycles == [] {
    } else {
      var n := |cycles| - 1;
      FlappingIsBounded(p, initial, cycles[..n], target, start);
      if cycles[n].now3 <= start + p.window {
        WindowIsCounted(p, initial, cycles[..n], target, start, cycles[n].now2);
      }
    }
  }

  /** How many of the first cycles on a target were blocked. */
  ghost function BlockedOn(p: Policy, initial: seq<Action>, cycles: seq<Cycle>, target: string): nat {
    if cycles == [] then 0
    else
      var n := |cycles| - 1;
      BlockedOn(p, initial, cycles[..n], target)
        + if !IsApproved(p, initial, cycles, n) && cycles[n].action.targetRun == target then 1 else 0
  }

  lemma {:induction false} BlockedAreCounted(p: Policy, initial: seq<Action>, cycles: seq<Cycle>, target: string,
      now: real)
    requires Plausible(cycles) && p.window >= 0.0
    ensures BlockedOn(p, initial, cycles, target) <= FlapCount(p, History(p, initial, cycles), target, now)
  {
    hide Verdict;
    if cycles == [] {
    } else {
      var n := |cycles| - 1;
      var before := History(p, initial, cycles[..n]);
      BlockedAreCounted(p, initial, cycles[..n], target, now);
      FlapCountSnoc(p, before, Tagged(cycles[n].action, Ruling(p, initial, cycles, n), cycles[n].now3), target, now);
    }
  }

  /** Blocked attempts never age: once a target has collected the maximum of them,
      every later action on it is blocked, however long one waits. */
  lemma SaturatedTargetStaysBlocked(p: Policy, initial: seq<Action>, cycles: seq<Cycle>, j: nat)
    requires Plausible(cycles) && p.window >= 0.0 && j < |cycles|
    requires BlockedOn(p, initial, cycles[..j], cycles[j].action.targetRun) >= p.maxFlapping
    ensures !IsApproved(p, initial, cycles, j)
  {
    hide WithinBounds, Cooling, FlapCount;
    BlockedAreCounted(p, initial, cycles[..j], cycles[j].action.targetRun, cycles[j].now2);
  }

  /** Actions of a history on a target that carry no usable timestamp. */
  function Unstamped(history: seq<Action>, target: string): nat {
    if history == [] then 0
    else
      var last := history[|history| - 1];
      Unstamped(history[..|history| - 1], target) + if last.targetRun == target && !last.executedAt.At? then 1 else 0
  }

  /** More than the window has passed since every stamped action on the target. */
  ghost predicate StampsExpired(p: Policy, history: seq<Action>, target: string, now: real) {
    forall a :: a in history && a.targetRun == target && a.executedAt.At? ==> now - a.executedAt.time > p.window
  }

  lemma {:induction false} OnlyUnstampedCount(p: Policy, history: seq<Action>, target: string, now: real)
    requires p.window >= 0.0 && StampsExpired(p, history, target, now)
    ensures FlapCount(p, history, target, now) == Unstamped(history, target)
  {
    if history == [] {
    } else {
      var q := history[..|history| - 1];
      assert history[|history| - 1] in history;
      OnlyUnstampedCount(p, q, target, now);
    }
  }

  lemma {:induction false} UnstampedOfRun(p: Policy, initial: seq<Action>, cycles: seq<Cycle>, target: string)
    requires Plausible(cycles)
    ensures Unstamped(History(p, initial, cycles), target)
         == Unstamped(initial, target) + BlockedOn(p, initial, cycles, target)
  {
    hide Verdict;
    if cycles == [] {
    } else {
      var n := |cycles| - 1;
      var before := History(p, initial, cycles[..n]);
      var tagged := Tagged(cycles[n].action, Ruling(p, initial, cycles, n), cycles[n].now3);
      UnstampedOfRun(p, initial, cycles[..n], target);
      assert History(p, initial, cycles) == before + [tagged] && (before + [tagged])[..|before|] == before;
    }
  }

  /** When a target reopens: once every stamped action on it is older than the window, the flapping rule lets
      the next action through if and only if the unstamped actions, those of the initial history and every blocked
      one since, are fewer than the maximum. */
  lemma TargetReopensIff(p: Policy, initial: seq<Action>, cycles: seq<Cycle>, target: string, now: real)
    requires Plausible(cycles) && p.window >= 0.0 && StampsExpired(p, History(p, initial, cycles), target, now)
    ensures FlapCount(p, History(p, initial, cycles), target, now) < p.maxFlapping
            <==> Unstamped(initial, target) + BlockedOn(p, initial, cycles, target) < p.maxFlapping
  {
    OnlyUnstampedCount(p, History(p, initial, cycles), target, now);
    UnstampedOfRun(p, initial, cycles, target);
  }

  /** So after any such pause, an action within its bounds and past its cooldown is approved if and only if
      its target has not collected the maximum of unstamped actions. */
  lemma ApprovedAfterPauseIff(p: Policy, initial: seq<Action>, cycles: seq<Cycle>, j: nat)
    requires Plausible(cycles) && p.window >= 0.0 && j < |cycles|
    requires StampsExpired(p, History(p, initial, cycles[..j]), cycles[j].action.targetRun, cycles[j].now2)
    requires WithinBounds(p, cycles[j].action.params)
    requires !Cooling(p, History(p, initial, cycles[..j]), cycles[j].action, cycles[j].now1)
    ensures IsApproved(p, initial, cycles, j)
            <==> Unstamped(initial, cycles[j].action.targetRun)
                 + BlockedOn(p, initial, cycles[..j], cycles[j].action.targetRun) < p.maxFlapping
  {
    hide FlapCount, Unstamped, BlockedOn, History, StampsExpired, WithinBounds, Cooling;
    TargetReopensIff(p, initial, cycles[..j], cycles[j].action.targetRun, cycles[j].now2);
  }
}
