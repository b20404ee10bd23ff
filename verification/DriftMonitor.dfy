/**
  Thresholds of `evaluator/drift_monitor.py`: the dynamic ones that
  `evaluate_frames` installs around one evaluation, and the static ones it puts
  back. Calls interleave at their awaits, and a static calibration may run
  between any two of them.
*/
module DriftMonitor {
  import opened Basics
  import opened Options

  type Thresholds = map<string, real>

  /** The nine fields that are saved and restored. */
  datatype Settings = Settings(
    jsd: real, mmd: real, kl: real, spectral: real, density: real, entropy: real, reflection: real,
    calibrated: bool, byMetric: Thresholds)

  datatype VectorScores = VectorScores(js: real, mmd: Option<(real, real)>)

  /** What the detectors measure on the frames, part by part; None where a part has nothing to measure. */
  datatype Scores =
    | Scores(vector: Option<VectorScores>, graph: Option<(real, real)>, swarm: Option<(real, real)>)
    | Failing

  datatype Outcome = Verdict(vector: bool, graph: bool, swarm: bool) | Raised

  // ----- Specification --------------------------------------------------------

  function GetOr(t: Thresholds, key: string, default: real): real { if key in t then t[key] else default }

  function Static(s: Settings, metric: string): real {
    if metric == "js_divergence" then s.jsd
    else if metric == "mmd_score" then s.mmd
    else if metric == "per_component_kl" then s.kl
    else 0.0
  }

  /** The threshold a detector compares a metric with. */
  function Threshold(s: Settings, metric: string): real {
    if s.calibrated then GetOr(s.byMetric, metric, Static(s, metric)) else Static(s, metric)
  }

  predicate IsDrifted(s: Settings, js: real, mmd: real, kl: real) {
    js > Threshold(s, "js_divergence") || mmd > Threshold(s, "mmd_score") || kl > Threshold(s, "per_component_kl")
  }

  /** MMD comes with a p-value, and counts from two vectors on each side. */
  predicate VectorDrifted(s: Settings, x: VectorScores) {
    || IsDrifted(s, x.js, 0.0, 0.0)
    || (x.mmd.Some? && (x.mmd.value.1 < 0.05 || x.mmd.value.0 > Threshold(s, "mmd_score")))
  }

  function Judge(s: Settings, x: Scores): Outcome {
    match x
    case Failing => Raised
    case Scores(v, g, w) =>
      Verdict(
        v.Some? && VectorDrifted(s, v.value),
        g.Some? && (g.value.0 > s.spectral || Abs(g.value.1) > s.density),
        w.Some? && (Abs(w.value.0) > s.entropy || Abs(w.value.1) > s.reflection))
  }

  /** What an evaluation under dynamic thresholds sees; an empty dict leaves the static ones. */
  function Effective(s: Settings, t: Thresholds): Settings {
    if t == map[] then s
    else Settings(
           GetOr(t, "vector_jsd_threshold", s.jsd), GetOr(t, "vector_mmd_threshold", s.mmd),
           GetOr(t, "vector_per_component_kl_threshold", s.kl), GetOr(t, "graph_spectral_threshold", s.spectral),
           s.density, GetOr(t, "swarm_entropy_threshold", s.entropy), s.reflection, true, t)
  }

  /** Static calibration of the three vector metrics. */
  function Recalibrated(s: Settings, js: real, mmd: real, kl: real): Settings {
    s.(calibrated := true, byMetric := map["js_divergence" := js, "mmd_score" := mmd, "per_component_kl" := kl])
  }

  /** One stretch of execution between two awaits, of any call to the monitor. */
  datatype Event =
    | Calibrate(js: real, mmd: real, kl: real)
    | BeginExplicit(call: nat, scores: Scores)
    | BeginDynamic(call: nat)
    | Fetched(call: nat, thresholds: Option<Thresholds>, scores: Scores)

  datatype Progress = Fetching | FetchFailed | Evaluated(outcome: Outcome)

  /** The settings if the static calibrations were the only events. */
  function StaticAfter(s: Settings, events: seq<Event>): Settings {
    if events == [] then s
    else
      var before, e := StaticAfter(s, events[..|events| - 1]), events[|events| - 1];
      if e.Calibrate? then Recalibrated(before, e.js, e.mmd, e.kl) else before
  }

  /** What one event does to the calls, under the static settings of its moment; a begin for a known
      call, or a fetch nobody waits for, does nothing. */
  function Advance(calls: map<nat, Progress>, s: Settings, e: Event): map<nat, Progress> {
    match e
    case Calibrate(_, _, _) => calls
    case BeginExplicit(c, x) => if c in calls then calls else calls[c := Evaluated(Judge(s, x))]
    case BeginDynamic(c) => if c in calls then calls else calls[c := Fetching]
    case Fetched(c, t, x) =>
      if !(c in calls && calls[c] == Fetching) then calls
      else calls[c := if t == None then FetchFailed else Evaluated(Judge(Effective(s, t.value), x))]
  }

  function CallsAfter(s: Settings, events: seq<Event>): map<nat, Progress> {
    if events == [] then map[]
    else
      var n := |events| - 1;
      Advance(CallsAfter(s, events[..n]), StaticAfter(s, events[..n]), events[n])
  }

  predicate NoCalibration(events: seq<Event>) { forall i :: 0 <= i < |events| ==> !events[i].Calibrate? }

  lemma {:induction false} OnlyCalibrationsMove(s: Settings, events: seq<Event>)
    requires NoCalibration(events)
    ensures StaticAfter(s, events) == s
  {
    if events == [] {
    } else {
      OnlyCalibrationsMove(s, events[..|events| - 1]);
    }
  }

  // ----- The program ------------------------------------------------------------

  class GraphDriftCalculator {
    var spectralThreshold: real
    var densityThreshold: real
  }

  class SwarmDriftCalculator {
    var entropyThreshold: real
    var reflectionThreshold: real
  }

  class DriftMonitor {
    var threshold: real
    var mmdThreshold: real
    var perComponentKlThreshold: real
    var calibratedThresholds: Thresholds
    var calibrated: bool
    var saved: Option<Settings>
    var calls: map<nat, Progress>
    const graph: GraphDriftCalculator
    const swarm: SwarmDriftCalculator

    constructor (threshold: real, mmd: real, kl: real, graph: GraphDriftCalculator, swarm: SwarmDriftCalculator)
      ensures this.graph == graph && this.swarm == swarm && saved == None && calls == map[]
      ensures Current() == Settings(threshold, mmd, kl, graph.spectralThreshold, graph.densityThreshold,
                                    swarm.entropyThreshold, swarm.reflectionThreshold, false, map[])
    {
      this.threshold, mmdThreshold, perComponentKlThreshold := threshold, mmd, kl;
      this.graph, this.swarm := graph, swarm;
      calibratedThresholds, calibrated, saved, calls := map[], false, None, map[];
    }

    function Current(): Settings
      reads this, graph, swarm
    {
      Settings(threshold, mmdThreshold, perComponentKlThreshold, graph.spectralThreshold, graph.densityThreshold,
               swarm.entropyThreshold, swarm.reflectionThreshold, calibrated, calibratedThresholds)
    }

    method ApplyCalibratedThresholds(t: Thresholds)
      modifies this, graph, swarm
      ensures Current() == Effective(old(Current()), t) && calls == old(calls)
      ensures saved == if t == map[] then old(saved) else Some(old(Current()))
    {
      if t == map[] {
        return;
      }
      saved := Some(Current());
      threshold := GetOr(t, "vector_jsd_threshold", saved.value.jsd);
      mmdThreshold := GetOr(t, "vector_mmd_threshold", saved.value.mmd);
      perComponentKlThreshold := GetOr(t, "vector_per_component_kl_threshold", saved.value.kl);
      graph.spectralThreshold := GetOr(t, "graph_spectral_threshold", saved.value.spectral);
      swarm.entropyThreshold := GetOr(t, "swarm_entropy_threshold", saved.value.entropy);
      calibrated := true;
      calibratedThresholds := t;
    }

    method RestoreThresholds()
      modifies this, graph, swarm
      ensures Current() == (if old(saved).Some? then old(saved).value else old(Current()))
      ensures saved == None && calls == old(calls)
    {
      if saved == None {
        return;
      }
      threshold := saved.value.jsd;
      mmdThreshold := saved.value.mmd;
      perComponentKlThreshold := saved.value.kl;
      graph.spectralThreshold := saved.value.spectral;
      graph.densityThreshold := saved.value.density;
      swarm.entropyThreshold := saved.value.entropy;
      swarm.reflectionThreshold := saved.value.reflection;
      calibrated := saved.value.calibrated;
      calibratedThresholds := saved.value.byMetric;
      saved := None;
    }

    /** From the fetched baseline to the next await, whether or not a detector raises. */
    method EvaluateDynamically(t: Thresholds, x: Scores) returns (outcome: Outcome)
      requires saved == None
      modifies this, graph, swarm
      ensures Current() == old(Current()) && saved == None && calls == old(calls)
      ensures outcome == Judge(Effective(old(Current()), t), x)
    {
      ApplyCalibratedThresholds(t);
      outcome := Judge(Current(), x);
      RestoreThresholds();
    }

    /** One event, in the program's own steps. */
    method Perform(e: Event)
      requires saved == None
      modifies this, graph, swarm
      ensures saved == None && calls == Advance(old(calls), old(Current()), e)
      ensures Current() == if e.Calibrate? then Recalibrated(old(Current()), e.js, e.mmd, e.kl) else old(Current())
    {
      match e {
        case Calibrate(js, mmd, kl) =>
          calibratedThresholds := map["js_divergence" := js, "mmd_score" := mmd, "per_component_kl" := kl];
          calibrated := true;
        case BeginExplicit(c, x) =>
          if c !in calls {
            calls := calls[c := Evaluated(Judge(Current(), x))];
          }
        case BeginDynamic(c) =>
          if c !in calls {
            calls := calls[c := Fetching];
          }
        case Fetched(c, t, x) =>
          if c in calls && calls[c] == Fetching {
            if t == None {
              calls := calls[c := FetchFailed];
            } else {
              var outcome := EvaluateDynamically(t.value, x);
              calls := calls[c := Evaluated(outcome)];
            }
          }
      }
    }

    /** After every prefix of every interleaving, that is at every await, nothing is saved and
        all nine fields are what the static calibrations alone would have made them. */
    method RunAll(events: seq<Event>)
      requires saved == None && calls == map[]
      modifies this, graph, swarm
      ensures saved == None
      ensures Current() == StaticAfter(old(Current()), events)
      ensures calls == CallsAfter(old(Current()), events)
    {
      hide Judge, Effective, Recalibrated;
      ghost var s := Current();
      for i := 0 to |events|
        invariant saved == None
        invariant Current() == StaticAfter(s, events[..i]) && calls == CallsAfter(s, events[..i])
      {
        assert events[..i + 1][..i] == events[..i];
        Perform(events[i]);
      }
      assert events[..|events|] == events;
    }

    /** However many evaluations overlap, and whatever raises, they leave no trace in the monitor. */
    method RunEvaluations(events: seq<Event>)
      requires saved == None && calls == map[] && NoCalibration(events)
      modifies this, graph, swarm
      ensures saved == None && Current() == old(Current())
      ensures calls == CallsAfter(old(Current()), events)
    {
      OnlyCalibrationsMove(Current(), events);
      RunAll(events);
    }
  }

  // ----- Laws -----------------------------------------------------------------

  lemma {:induction false} OutcomesStay(s: Settings, events: seq<Event>, k: nat, c: nat)
    requires k <= |events| && c in CallsAfter(s, events[..k]) && CallsAfter(s, events[..k])[c] != Fetching
    ensures c in CallsAfter(s, events) && CallsAfter(s, events)[c] == CallsAfter(s, events[..k])[c]
    decreases |events|
  {
    hide Judge, Effective;
    if k == |events| {
      assert events[..k] == events;
    } else {
      var q := events[..|events| - 1];
      assert q[..k] == events[..k];
      OutcomesStay(s, q, k, c);
    }
  }

  /** A call that resumes after its fetch gets the verdict it would get alone, whatever runs
      before and after: under its own thresholds, over the static settings of that moment. */
  lemma CallsAreIsolated(s: Settings, events: seq<Event>, i: nat)
    requires i < |events| && events[i].Fetched? && events[i].thresholds.Some?
    requires events[i].call in CallsAfter(s, events[..i]) && CallsAfter(s, events[..i])[events[i].call] == Fetching
    ensures events[i].call in CallsAfter(s, events)
    ensures CallsAfter(s, events)[events[i].call]
         == Evaluated(Judge(Effective(StaticAfter(s, events[..i]), events[i].thresholds.value), events[i].scores))
  {
    hide Judge, Effective;
    assert events[..i + 1][..i] == events[..i];
    OutcomesStay(s, events, i + 1, events[i].call);
  }

  predicate DynamicKeys(t: Thresholds) {
    t.Keys <= {"vector_jsd_threshold", "vector_mmd_threshold", "vector_per_component_kl_threshold",
               "graph_spectral_threshold", "swarm_entropy_threshold"}
  }

  const VECTOR_METRICS := {"js_divergence", "mmd_score", "per_component_kl"}

  /** The key under which a dynamic calibration stores a vector metric's threshold. */
  function DynamicKey(metric: string): string {
    if metric == "js_divergence" then "vector_jsd_threshold"
    else if metric == "mmd_score" then "vector_mmd_threshold"
    else "vector_per_component_kl_threshold"
  }

  /** A dynamic evaluation compares each vector metric with the calibrated value, or else the saved static one:
      never with a value from an earlier static calibration. */
  lemma DynamicThresholds(s: Settings, t: Thresholds, metric: string)
    requires t != map[] && DynamicKeys(t) && metric in VECTOR_METRICS
    ensures Threshold(Effective(s, t), metric) == GetOr(t, DynamicKey(metric), Static(s, metric))
  {
    assert metric !in t;
  }

  /** Falling back to the static field loses a static calibration exactly when the two differ. */
  lemma FallbackForgetsCalibration(s: Settings, t: Thresholds, metric: string)
    requires t != map[] && DynamicKeys(t) && metric in VECTOR_METRICS && DynamicKey(metric) !in t
    ensures Threshold(Effective(s, t), metric) == Threshold(s, metric)
       <==> (s.calibrated && metric in s.byMetric ==> s.byMetric[metric] == Static(s, metric))
  {
    DynamicThresholds(s, t, metric);
  }

  /** For instance: calibrated to 0.4, an evaluation that only has an MMD threshold compares
      Jensen-Shannon scores with the default of 0.1 again, and flags a score of 0.2. */
  lemma CalibrationForgotten(s: Settings, mmd: real)
    requires s.calibrated && s.jsd == 0.1 && "js_divergence" in s.byMetric && s.byMetric["js_divergence"] == 0.4
    ensures Threshold(s, "js_divergence") == 0.4
    ensures Threshold(Effective(s, map["vector_mmd_threshold" := mmd]), "js_divergence") == 0.1
    ensures VectorDrifted(Effective(s, map["vector_mmd_threshold" := mmd]), VectorScores(0.2, None))
  {
    assert "vector_mmd_threshold" in map["vector_mmd_threshold" := mmd];
    DynamicThresholds(s, map["vector_mmd_threshold" := mmd], "js_divergence");
  }

  /** With a full set of dynamic thresholds, two monitors agree on every verdict as soon as
      they agree on the two thresholds that are never calibrated. */
  lemma FullCalibrationDecides(s: Settings, s': Settings, t: Thresholds, x: Scores)
    requires DynamicKeys(t) && |t| == 5
    requires s.density == s'.density && s.reflection == s'.reflection
    ensures Judge(Effective(s, t), x) == Judge(Effective(s', t), x)
  {
    var keys := {"vector_jsd_threshold", "vector_mmd_threshold", "vector_per_component_kl_threshold",
                 "graph_spectral_threshold", "swarm_entropy_threshold"};
    SubsetOfSameSize(t.Keys, keys);
    assert Effective(s, t) == Effective(s', t);
  }

  lemma {:induction false} SubsetOfSameSize<T>(a: set<T>, b: set<T>)
    requires a <= b && |a| == |b|
    ensures a == b
  {
    assert b == a + (b - a);
    assert |b - a| == 0;
  }

  /** The evaluation never measures per-component KL: a negative KL threshold flags every pair of
      windows with vectors, and any other value of it changes nothing. */
  lemma KlThresholdHasNoSay(s: Settings, s': Settings, x: VectorScores)
    requires Threshold(s, "js_divergence") == Threshold(s', "js_divergence")
    requires Threshold(s, "mmd_score") == Threshold(s', "mmd_score")
    ensures Threshold(s, "per_component_kl") < 0.0 ==> VectorDrifted(s, x)
    ensures Threshold(s, "per_component_kl") >= 0.0 && Threshold(s', "per_component_kl") >= 0.0 ==>
              (VectorDrifted(s, x) <==> VectorDrifted(s', x))
  {
  }

  // ----- What a verdict says ------------------------------------------------------------------

  /** |x| > bound. */
  predicate Beyond(x: real, bound: real) { x > bound || -x > bound }

  /** A vector score beyond its threshold, or a permutation test below five percent. */
  predicate VectorBeyond(v: VectorScores, js: real, mmd: real) {
    v.js > js || (v.mmd.Some? && (v.mmd.value.0 > mmd || v.mmd.value.1 < 0.05))
  }

  /** The verdict of an evaluation, part by part, from the measured scores and the thresholds in force: calibrated
      for each of jsd, mmd, spectral and entropy if the dict has it, static otherwise and for density and reflection. */
  lemma VerdictMeans(s: Settings, t: Thresholds, v: Option<VectorScores>, g: Option<(real, real)>,
                     w: Option<(real, real)>)
    requires t != map[] && DynamicKeys(t) && s.mmd >= 0.0 && s.kl >= 0.0
    requires forall k :: k in t ==> t[k] >= 0.0
    ensures var o := Judge(Effective(s, t), Scores(v, g, w));
            && o.Verdict?
            && (o.vector <==> v.Some? && VectorBeyond(v.value, GetOr(t, "vector_jsd_threshold", s.jsd),
                                                      GetOr(t, "vector_mmd_threshold", s.mmd)))
            && (o.graph <==> g.Some? && (g.value.0 > GetOr(t, "graph_spectral_threshold", s.spectral)
                                         || Beyond(g.value.1, s.density)))
            && (o.swarm <==> w.Some? && (Beyond(w.value.0, GetOr(t, "swarm_entropy_threshold", s.entropy))
                                         || Beyond(w.value.1, s.reflection)))
    ensures Judge(Effective(s, t), Failing) == Raised
  {
    hide Effective, Threshold;
    DynamicThresholds(s, t, "js_divergence");
    DynamicThresholds(s, t, "mmd_score");
    DynamicThresholds(s, t, "per_component_kl");
    EffectiveFields(s, t);
  }

  lemma EffectiveFields(s: Settings, t: Thresholds)
    requires t != map[]
    ensures var e := Effective(s, t);
            && e.spectral == GetOr(t, "graph_spectral_threshold", s.spectral) && e.density == s.density
            && e.entropy == GetOr(t, "swarm_entropy_threshold", s.entropy) && e.reflection == s.reflection
  {
  }

  /** Under static settings the same holds with the thresholds that `Threshold` gives, and an empty dict leaves
      the settings as they are. */
  lemma StaticVerdictMeans(s: Settings, v: Option<VectorScores>, g: Option<(real, real)>, w: Option<(real, real)>)
    requires Threshold(s, "mmd_score") >= 0.0 && Threshold(s, "per_component_kl") >= 0.0
    ensures var o := Judge(s, Scores(v, g, w));
            && o.Verdict?
            && (o.vector <==>
                  v.Some? && VectorBeyond(v.value, Threshold(s, "js_divergence"), Threshold(s, "mmd_score")))
            && (o.graph <==> g.Some? && (g.value.0 > s.spectral || Beyond(g.value.1, s.density)))
            && (o.swarm <==> w.Some? && (Beyond(w.value.0, s.entropy) || Beyond(w.value.1, s.reflection)))
    ensures Effective(s, map[]) == s
  {
  }

  /** A static calibration sets the three vector thresholds, and only those; before one, the fields count. */
  lemma CalibrationMeans(s: Settings, js: real, mmd: real, kl: real)
    ensures var c := Recalibrated(s, js, mmd, kl);
            && Threshold(c, "js_divergence") == js && Threshold(c, "mmd_score") == mmd
            && Threshold(c, "per_component_kl") == kl
            && c.jsd == s.jsd && c.mmd == s.mmd && c.kl == s.kl && c.spectral == s.spectral && c.density == s.density
            && c.entropy == s.entropy && c.reflection == s.reflection
    ensures !s.calibrated ==>
              && Threshold(s, "js_divergence") == s.jsd && Threshold(s, "mmd_score") == s.mmd
              && Threshold(s, "per_component_kl") == s.kl
  {
    assert |"js_divergence"| != |"mmd_score"| && |"mmd_score"| != |"per_component_kl"|;
    assert |"js_divergence"| != |"per_component_kl"|;
  }

  /** Between its calibrations a monitor keeps its settings; each calibration replaces those before it. */
  lemma StaticAfterSnoc(s: Settings, events: seq<Event>, e: Event)
    ensures StaticAfter(s, []) == s
    ensures !e.Calibrate? ==> StaticAfter(s, events + [e]) == StaticAfter(s, events)
    ensures e.Calibrate? ==> StaticAfter(s, events + [e]) == Recalibrated(StaticAfter(s, events), e.js, e.mmd, e.kl)
  {
    assert (events + [e])[..|events|] == events;
  }

  /** A call judged at once gets the verdict of the settings of its moment, a failed fetch ends a call without one,
      and a call that waits goes on waiting until its fetch. */
  lemma CallsProgress(s: Settings, events: seq<Event>, e: Event)
    ensures var before, after := CallsAfter(s, events), CallsAfter(s, events + [e]);
            && (e.BeginExplicit? && e.call !in before ==>
                  after == before[e.call := Evaluated(Judge(StaticAfter(s, events), e.scores))])
            && (e.BeginDynamic? && e.call !in before ==> after == before[e.call := Fetching])
            && (e.Fetched? && e.call in before && before[e.call] == Fetching && e.thresholds == None ==>
                  after == before[e.call := FetchFailed])
            && (forall c :: c in before && !(e.Fetched? && e.call == c) ==> c in after && after[c] == before[c])
  {
    hide Judge, Effective, StaticAfter;
    assert (events + [e])[..|events|] == events;
  }
}
