/**
 * Continuous risk signals: each observation becomes a weighted score, the scores are averaged, and the
 * average, raised by the policies that fired, decides the risk level and the action.
 */
module ContinuousSignals {
  import opened Wrappers

  type Weight = w: real | w > 0.0 witness 1.0

  datatype Signal = Signal(score: int, weight: Weight)

  datatype Level = LOW | MEDIUM | HIGH | CRITICAL

  datatype Action = MONITOR | ALERT | STEP_UP | TERMINATE

  datatype Thresholds = Thresholds(alert: int, stepUp: int, block: int)

  const DAY := 86400000

  function Min(a: real, b: real): real
  {
    if a <= b then a else b
  }

  function Abs(a: real): real
  {
    if a < 0.0 then -a else a
  }

  /** JavaScript's Math.round: halves go up. */
  function Round(x: real): int
  {
    (x + 0.5).Floor
  }

  lemma RoundBetween(x: real, lo: int, hi: int)
    requires lo as real <= x <= hi as real
    ensures lo <= Round(x) <= hi
  {
    assert (x + 0.5).Floor as real <= x + 0.5 < (x + 0.5).Floor as real + 1.0;
  }

  // ----- Aggregation ---------------------------------------------------------------------------------

  function TotalWeight(signals: seq<Signal>): real
  {
    if signals == [] then 0.0 else signals[0].weight + TotalWeight(signals[1..])
  }

  function WeightedSum(signals: seq<Signal>): real
  {
    if signals == [] then 0.0 else signals[0].score as real * signals[0].weight + WeightedSum(signals[1..])
  }

  lemma {:induction false} WeightIsPositive(signals: seq<Signal>)
    ensures TotalWeight(signals) >= 0.0 && (signals != [] ==> TotalWeight(signals) > 0.0)
  {
    if signals != [] {
      WeightIsPositive(signals[1..]);
    }
  }

  function Aggregate(signals: seq<Signal>): int
  {
    if signals == [] then 0
    else
      WeightIsPositive(signals);
      var score := Round(WeightedSum(signals) / TotalWeight(signals));
      if score <= 100 then score else 100
  }

  lemma Scaled(x: real, y: real, w: real)
    requires x <= y && w >= 0.0
    ensures x * w <= y * w
  {
  }

  lemma {:induction false} SumAtMost(signals: seq<Signal>, hi: real)
    requires forall s :: s in signals ==> s.score as real <= hi
    ensures WeightedSum(signals) <= hi * TotalWeight(signals)
  {
    if signals != [] {
      SumAtMost(signals[1..], hi);
      Scaled(signals[0].score as real, hi, signals[0].weight);
      Distribute(hi, signals[0].weight, TotalWeight(signals[1..]));
    }
  }

  lemma {:induction false} SumAtLeast(signals: seq<Signal>, lo: real)
    requires forall s :: s in signals ==> lo <= s.score as real
    ensures lo * TotalWeight(signals) <= WeightedSum(signals)
  {
    if signals != [] {
      SumAtLeast(signals[1..], lo);
      Scaled(lo, signals[0].score as real, signals[0].weight);
      Distribute(lo, signals[0].weight, TotalWeight(signals[1..]));
    }
  }

  lemma Distribute(a: real, x: real, y: real)
    ensures a * (x + y) == a * x + a * y
  {
  }

  lemma QuotientBetween(sum: real, total: real, lo: real, hi: real)
    requires total > 0.0 && lo * total <= sum <= hi * total
    ensures lo <= sum / total <= hi
  {
  }

  /** The aggregate never leaves the range of its signals. */
  lemma {:induction false} AggregateIsBetween(signals: seq<Signal>, lo: int, hi: int)
    requires signals != [] && hi <= 100
    requires forall s :: s in signals ==> lo <= s.score <= hi
    ensures lo <= Aggregate(signals) <= hi
  {
    WeightIsPositive(signals);
    SumAtMost(signals, hi as real);
    SumAtLeast(signals, lo as real);
    QuotientBetween(WeightedSum(signals), TotalWeight(signals), lo as real, hi as real);
    RoundBetween(WeightedSum(signals) / TotalWeight(signals), lo, hi);
  }

  // ----- The assessment path of the risk service -----------------------------------------------------

  datatype Posture = Posture(
    encryptedDisk: bool, screenLock: bool, antivirus: bool, firewall: bool, jailbroken: bool,
    lastSecurityScan: Option<int>, nonCompliant: bool)

  /** What a session without any posture record counts as. */
  const UNKNOWN_POSTURE := Posture(false, false, false, false, false, None, false)

  function EvaluateDevicePosture(posture: Posture, now: int): Signal
  {
    if posture.jailbroken then Signal(50, 2.5)
    else if !posture.encryptedDisk then Signal(25, 2.0)
    else if !posture.screenLock then Signal(20, 2.0)
    else if posture.lastSecurityScan.Some? && (now - posture.lastSecurityScan.value) / DAY > 7 then Signal(10, 1.0)
    else if !posture.antivirus || !posture.firewall then Signal(15, 1.5)
    else if posture.nonCompliant then Signal(20, 2.0)
    else Signal(0, 1.0)
  }

  datatype Baseline = Baseline(typingSpeed: real, mouseSpeed: real, sampleCount: nat)

  /** How far `current` is from `average`, in points: nothing within the tolerance, never above the cap. */
  function DeviationPoints(current: Option<real>, average: real, factor: real, cap: real): real
  {
    if current.Some? && average > 0.0 then
      var deviation := Abs(current.value - average) / average;
      if deviation > 0.7 then Min(cap, deviation * factor) else 0.0
    else 0.0
  }

  /** The service only ever measures typing and mouse speed. */
  function EvaluateBehavior(typing: Option<real>, mouse: Option<real>, baseline: Baseline): Signal
  {
    if baseline.sampleCount < 5 then Signal(0, 1.0)
    else
      var score := DeviationPoints(typing, baseline.typingSpeed, 20.0, 25.0)
                 + DeviationPoints(mouse, baseline.mouseSpeed, 15.0, 20.0);
      if score > 0.0 then Signal(if Round(score) <= 100 then Round(score) else 100, 1.25) else Signal(0, 1.0)
  }

  datatype Observation = Observation(
    posture: Option<Posture>, typing: Option<real>, mouse: Option<real>, baseline: Baseline)

  /** The network signal is constant: the service fills in a context with every indicator off. */
  function ServiceSignals(o: Observation, now: int): seq<Signal>
  {
    [EvaluateDevicePosture(o.posture.GetOr(UNKNOWN_POSTURE), now),
     Signal(0, 1.0),
     EvaluateBehavior(o.typing, o.mouse, o.baseline)]
  }

  // ----- The assessment path of the session evaluator ------------------------------------------------

  datatype Findings = Findings(
    hasRecord: bool, nonCompliant: bool, trusted: bool, riskyNetwork: bool, anomalous: bool, travel: bool)

  /** The signals as the evaluator pushes them; a baseline signal stands in when there are none. */
  function EvaluatorSignals(f: Findings): seq<Signal>
  {
    var pushed :=
      (if f.hasRecord then [Signal(if f.nonCompliant then 25 else if f.trusted then 0 else 5, 1.5)] else [])
      + (if f.riskyNetwork then [Signal(30, 1.25)] else [])
      + (if f.anomalous then [Signal(20, 1.25)] else [])
      + (if f.travel then [Signal(40, 2.0)] else []);
    if pushed == [] then [Signal(0, 1.0)] else pushed
  }

  // ----- Level and action ----------------------------------------------------------------------------

  function FinalScore(riskScore: int, contribution: int): int
  {
    if riskScore + contribution <= 100 then riskScore + contribution else 100
  }

  function ScoreToRiskLevel(score: int): Level
  {
    if score >= 80 then CRITICAL else if score >= 60 then HIGH else if score >= 30 then MEDIUM else LOW
  }

  function DetermineAction(score: int, t: Thresholds): Action
  {
    if score >= t.block then TERMINATE else if score >= t.stepUp then STEP_UP
    else if score >= t.alert then ALERT else MONITOR
  }

  /** `stepUp` and `block` are the realm's settings or their defaults, `alert` is fixed. */
  const DEFAULT_THRESHOLDS := Thresholds(30, 50, 80)

  lemma BehaviorIsBounded(typing: Option<real>, mouse: Option<real>, baseline: Baseline)
    ensures var s := EvaluateBehavior(typing, mouse, baseline);
            0 <= s.score <= 45 && (s.weight == 1.25 || (s.score == 0 && s.weight == 1.0))
  {
    DeviationIsBounded(typing, baseline.typingSpeed, 20.0, 25.0);
    DeviationIsBounded(mouse, baseline.mouseSpeed, 15.0, 20.0);
    var score := DeviationPoints(typing, baseline.typingSpeed, 20.0, 25.0)
               + DeviationPoints(mouse, baseline.mouseSpeed, 15.0, 20.0);
    RoundBetween(score, 0, 45);
  }

  lemma DeviationIsBounded(current: Option<real>, average: real, factor: real, cap: real)
    requires factor >= 0.0 && cap >= 0.0
    ensures 0.0 <= DeviationPoints(current, average, factor, cap) <= cap
  {
    if current.Some? && average > 0.0 {
      var deviation := Abs(current.value - average) / average;
      if deviation > 0.7 {
        Scaled(0.0, deviation, factor);
      }
    }
  }

  /** Three signals, written out. */
  lemma ThreeSignals(a: Signal, b: Signal, c: Signal)
    ensures WeightedSum([a, b, c]) == a.score as real * a.weight + b.score as real * b.weight + c.score as real * c.weight
    ensures TotalWeight([a, b, c]) == a.weight + b.weight + c.weight
  {
    assert [a, b, c][1..] == [b, c] && [b, c][1..] == [c] && [c][1..] == [];
    assert WeightedSum([c]) == c.score as real * c.weight && TotalWeight([c]) == c.weight;
    assert WeightedSum([b, c]) == b.score as real * b.weight + WeightedSum([c]);
    assert TotalWeight([b, c]) == b.weight + TotalWeight([c]);
  }

  lemma DeviceWeights(posture: Posture, now: int)
    ensures var s := EvaluateDevicePosture(posture, now);
            s.score >= 0 && s.score as real * s.weight <= 125.0
            && s.score as real * s.weight - 38.4 * s.weight <= 29.0
  {
  }

  /** No observation takes the risk service above 38. */
  lemma ServiceScoreIsBounded(o: Observation, now: int)
    ensures 0 <= Aggregate(ServiceSignals(o, now)) <= 38
  {
    var device := EvaluateDevicePosture(o.posture.GetOr(UNKNOWN_POSTURE), now);
    var network := Signal(0, 1.0);
    var behavior := EvaluateBehavior(o.typing, o.mouse, o.baseline);
    DeviceWeights(o.posture.GetOr(UNKNOWN_POSTURE), now);
    BehaviorIsBounded(o.typing, o.mouse, o.baseline);
    ThreeSignals(device, network, behavior);
    ScoreOf38(device.score as real * device.weight, device.weight, behavior.score, behavior.weight);
  }

  lemma ScoreOf38(points: real, weight: real, behavior: int, behaviorWeight: real)
    requires weight > 0.0 && points >= 0.0 && points - 38.4 * weight <= 29.0
    requires 0 <= behavior <= 45 && (behaviorWeight == 1.25 || (behavior == 0 && behaviorWeight == 1.0))
    ensures 0 <= Round((points + behavior as real * behaviorWeight) / (weight + 1.0 + behaviorWeight)) <= 38
  {
    var sum, total := points + behavior as real * behaviorWeight, weight + 1.0 + behaviorWeight;
    assert 0.0 <= sum <= 38.4 * total;
    QuotientBetween(sum, total, 0.0, 38.4);
    assert (sum / total + 0.5).Floor as real <= sum / total + 0.5 < 39.0;
  }

  /** No findings take the session evaluator above 40. */
  lemma EvaluatorScoreIsBounded(f: Findings)
    ensures 0 <= Aggregate(EvaluatorSignals(f)) <= 40
  {
    AggregateIsBetween(EvaluatorSignals(f), 0, 40);
  }

  /** On either path a session is raised to HIGH or CRITICAL, or with the default thresholds asked to
      step up or terminated, only by policies that contribute the missing points. */
  lemma SignalsAloneNeverEscalate(o: Observation, f: Findings, now: int, contribution: int)
    ensures forall risk :: risk in {Aggregate(ServiceSignals(o, now)), Aggregate(EvaluatorSignals(f))} ==>
              var score := FinalScore(risk, contribution);
              && (contribution <= 0 ==> ScoreToRiskLevel(score) in {LOW, MEDIUM})
              && (contribution <= 0 ==> DetermineAction(score, DEFAULT_THRESHOLDS) in {MONITOR, ALERT})
              && (ScoreToRiskLevel(score) == HIGH ==> contribution >= 20)
              && (ScoreToRiskLevel(score) == CRITICAL ==> contribution >= 40)
  {
    ServiceScoreIsBounded(o, now);
    EvaluatorScoreIsBounded(f);
  }
}
