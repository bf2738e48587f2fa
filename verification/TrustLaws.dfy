/** What assessments of each level take off, what the levels are, and what single observations score. */
module TrustLaws {
  import opened Wrappers
  import opened ContinuousSignals
  import opened TrustScore

  // ----- Behaviour -----------------------------------------------------------------------------------------

  /** How far a speed is from its average, as a share of the average; nothing when either is unknown. */
  function Deviation(current: Option<real>, average: real): real
  {
    if current.Some? && average > 0.0 then Abs(current.value - average) / average else 0.0
  }

  /** Behaviour counts from five samples on, and a speed only when it deviates by more than seven tenths: typing with
      20 points per unit up to 25, the mouse with 15 up to 20. */
  lemma BehaviourExactly(typing: Option<real>, mouse: Option<real>, baseline: Baseline, s: Signal)
    requires s == EvaluateBehavior(typing, mouse, baseline)
    ensures var t, m := Deviation(typing, baseline.typingSpeed), Deviation(mouse, baseline.mouseSpeed);
            && (baseline.sampleCount < 5 || (t <= 0.7 && m <= 0.7) ==> s == Signal(0, 1.0))
            && (baseline.sampleCount >= 5 && (t > 0.7 || m > 0.7) ==>
                  s == Signal(Round((if t > 0.7 then Min(20.0 * t, 25.0) else 0.0) + (if m > 0.7 then Min(15.0 * m, 20.0) else 0.0)), 1.25))
  {
    DeviationIsBounded(typing, baseline.typingSpeed, 20.0, 25.0);
    DeviationIsBounded(mouse, baseline.mouseSpeed, 15.0, 20.0);
    var score := DeviationPoints(typing, baseline.typingSpeed, 20.0, 25.0)
               + DeviationPoints(mouse, baseline.mouseSpeed, 15.0, 20.0);
    RoundBetween(score, 0, 45);
  }

  // ----- Levels and actions ------------------------------------------------------------------------------

  /** The bands of the final score, and the actions at the realm's thresholds. */
  lemma BandsExactly(score: int, t: Thresholds)
    requires t.alert <= t.stepUp <= t.block
    ensures ScoreToRiskLevel(score) == LOW <==> score < 30
    ensures ScoreToRiskLevel(score) == MEDIUM <==> 30 <= score < 60
    ensures ScoreToRiskLevel(score) == HIGH <==> 60 <= score < 80
    ensures ScoreToRiskLevel(score) == CRITICAL <==> 80 <= score
    ensures DetermineAction(score, t) == MONITOR <==> score < t.alert
    ensures DetermineAction(score, t) == ALERT <==> t.alert <= score < t.stepUp
    ensures DetermineAction(score, t) == STEP_UP <==> t.stepUp <= score < t.block
    ensures DetermineAction(score, t) == TERMINATE <==> t.block <= score
  {
  }

  // ----- What an assessment takes off ----------------------------------------------------------------------

  /** The points an assessment above LOW takes off. */
  predicate TakesOff(level: Level, points: nat)
  {
    (level == CRITICAL && points == 30) || (level == HIGH && points == 15) || (level == MEDIUM && points == 5)
  }

  /** Straight after another assessment there is no decay: the points go, down to nothing, or two are gained, up to a
      hundred. */
  lemma AssessedAtOnce(trust: real, level: Level, points: nat)
    requires IsPercent(trust)
    ensures TakesOff(level, points) ==> CalculateTrust(trust, level, 0) == Floored(trust - points as real)
    ensures CalculateTrust(trust, LOW, 0) == Min(trust + 2.0, 100.0)
  {
    assert Decay(0) == 0.0 && Kept(trust, 0) == trust;
    var t := trust.Floor;
    WholeStays(t - points);
    WholeStays(t + 2);
    assert trust + Adjustment(LOW) as real == (t + 2) as real;
    if TakesOff(level, points) {
      assert trust + Adjustment(level) as real == (t - points) as real;
    }
  }

  lemma WholeStays(n: int)
    ensures Round(n as real) == n
  {
  }

  /** Decay runs at five per cent an hour and stops at half. */
  lemma DecayExactly(elapsed: int)
    requires elapsed >= 0
    ensures elapsed <= 10 * HOUR ==> Decay(elapsed) == elapsed as real / HOUR as real / 20.0
    ensures elapsed >= 10 * HOUR ==> Decay(elapsed) == 0.5
  {
    if elapsed >= 10 * HOUR {
      assert elapsed as real / 3600000.0 >= 10.0;
    } else {
      assert elapsed as real / 3600000.0 <= 10.0;
    }
  }

  /** After `elapsed` the points come off what decay leaves, to the nearest whole. */
  lemma AssessedLater(trust: real, level: Level, points: nat, elapsed: int)
    requires IsPercent(trust) && elapsed >= 0 && TakesOff(level, points)
    ensures var left := trust * (1.0 - Decay(elapsed)) - points as real;
            var result := CalculateTrust(trust, level, elapsed);
            && IsPercent(result)
            && (left <= -0.5 ==> result == 0.0)
            && (left >= -0.5 ==> result - 0.5 <= left < result + 0.5)
  {
    DecayShrinks(trust, elapsed);
    var left := Kept(trust, elapsed) - points as real;
    assert left == Kept(trust, elapsed) + Adjustment(level) as real;
    Nearest(left);
  }

  lemma Nearest(x: real)
    ensures Round(x) as real - 0.5 <= x < Round(x) as real + 0.5
  {
  }

  // ----- Runs ------------------------------------------------------------------------------------------------

  /** Every assessment of the session comes out at the level, and the session is not deleted. */
  predicate OnlyAt(es: seq<Event>, sid: Sid, level: Level)
  {
    forall e :: e in es ==>
      && (e.Assess? && e.sid == sid ==> ScoreToRiskLevel(e.score) == level)
      && !(e.Remove? && e.sid == sid)
  }

  lemma LevelTakesOff(trust: real, level: Level, points: nat, elapsed: int)
    requires IsPercent(trust) && elapsed >= 0 && TakesOff(level, points)
    ensures CalculateTrust(trust, level, elapsed) <= Floored(trust - points as real)
  {
    DecayShrinks(trust, elapsed);
    var kept := Kept(trust, elapsed);
    assert (trust.Floor - points) as real == trust - points as real;
    var lo: int := -(points as int);
    RoundBetween(kept - points as real, lo, trust.Floor - points);
    assert kept + Adjustment(level) as real == kept - points as real;
  }

  lemma StepTakesOff(s: State, s': State, e: Event, sid: Sid, level: Level, points: nat)
    requires Inv(s) && Enabled(s, e) && s' == Step(s, e) && OnlyAt([e], sid, level) && TakesOff(level, points)
    ensures TrustOf(s', sid) <= Floored(TrustOf(s, sid) - (if e.Assess? && e.sid == sid then points as real else 0.0))
  {
    assert e in [e];
    if e.Assess? && e.sid == sid {
      var p := if sid in s.table then s.table[sid] else NewProfile(e.at);
      assert s'.table[sid] == Reassess(p, e.at, e.score, e.thresholds);
      LevelTakesOff(p.trust, level, points, e.at - p.lastEvaluated.GetOr(p.created));
    } else if e.Sweep? && sid in e.taken - e.failed {
      SweepHalves(s.table[sid], e.at);
    }
  }

  /** What `n` assessments take off: `n` times the points. */
  function Off(points: nat, n: nat): (r: real)
    ensures r >= 0.0
  {
    if n == 0 then 0.0 else points as real + Off(points, n - 1)
  }

  lemma {:induction false} OffIsProduct(points: nat, n: nat)
    ensures Off(points, n) == (points * n) as real
  {
    if n > 0 {
      OffIsProduct(points, n - 1);
      assert points * n == points + points * (n - 1);
    }
  }

  predicate IsOff(before: real, after: real, points: nat, n: nat)
  {
    after <= Floored(before - Off(points, n))
  }

  lemma OffInARow(before: real, between: real, after: real, points: nat, hit: nat, n: nat) returns (both: nat)
    requires hit <= 1 && IsOff(before, between, points, hit) && IsOff(between, after, points, n)
    ensures both == hit + n && IsOff(before, after, points, both)
  {
    both := hit + n;
    assert Off(points, 1) == points as real + Off(points, 0) && Off(points, 1 + n) == points as real + Off(points, n);
  }

  lemma NothingOff(s: State, sid: Sid, points: nat) returns (trust: real, n: nat)
    requires Inv(s)
    ensures trust == TrustOf(s, sid) && n == 0 && IsOff(trust, trust, points, n)
  {
    trust, n := TrustOf(s, sid), 0;
  }

  lemma StepIsOff(s: State, s': State, e: Event, sid: Sid, level: Level, points: nat, before: real)
    returns (after: real, hit: nat)
    requires Inv(s) && Enabled(s, e) && s' == Step(s, e) && OnlyAt([e], sid, level) && TakesOff(level, points)
    requires before == TrustOf(s, sid)
    ensures after == TrustOf(s', sid) && hit == (if e.Assess? && e.sid == sid then 1 else 0)
    ensures IsOff(before, after, points, hit)
  {
    StepTakesOff(s, s', e, sid, level, points);
    after, hit := TrustOf(s', sid), if e.Assess? && e.sid == sid then 1 else 0;
    assert Off(points, 1) == points as real + Off(points, 0);
  }

  lemma {:induction false} RunTakesOff(s: State, es: seq<Event>, sid: Sid, level: Level, points: nat, before: real)
    returns (after: real, n: nat)
    requires Inv(s) && ValidRun(s, es) && OnlyAt(es, sid, level) && TakesOff(level, points) && before == TrustOf(s, sid)
    ensures after == TrustOf(Run(s, es), sid) && n == Assessments(es, sid)
    ensures IsOff(before, after, points, n)
    decreases |es|
  {
    if es == [] {
      after, n := NothingOff(s, sid, points);
    } else {
      var s1 := Step(s, es[0]);
      assert OnlyAt([es[0]], sid, level) && OnlyAt(es[1..], sid, level);
      StepKeepsInv(s, s1, es[0]);
      var between, hit := StepIsOff(s, s1, es[0], sid, level, points, before);
      after, n := RunTakesOff(s1, es[1..], sid, level, points, between);
      n := OffInARow(before, between, after, points, hit, n);
    }
  }

  /** In every run, n assessments at one level, with any sweeps and other sessions in between, leave at most the trust
      less n times the level's points: 30 for CRITICAL, 15 for HIGH, 5 for MEDIUM. */
  lemma {:induction false} AssessmentsDrainTrust(s: State, es: seq<Event>, sid: Sid, level: Level, points: nat)
    requires Inv(s) && ValidRun(s, es) && OnlyAt(es, sid, level) && TakesOff(level, points)
    ensures TrustOf(Run(s, es), sid) <= Floored(TrustOf(s, sid) - (points * Assessments(es, sid)) as real)
  {
    var after, n := RunTakesOff(s, es, sid, level, points, TrustOf(s, sid));
    OffIsProduct(points, n);
  }

  /** Four CRITICAL ones leave a new session nothing. */
  lemma {:induction false} FourCriticalAssessmentsEndTrust(clock: int, es: seq<Event>, sid: Sid)
    requires ValidRun(State(clock, map[]), es) && OnlyAt(es, sid, CRITICAL) && Assessments(es, sid) >= 4
    ensures TrustOf(Run(State(clock, map[]), es), sid) <= 0.0
  {
    AssessmentsDrainTrust(State(clock, map[]), es, sid, CRITICAL, 30);
  }

  /** What an assessment leaves in the profile besides the trust. */
  lemma ProfileExactly(s: State, e: Event)
    requires Enabled(s, e) && e.Assess?
    ensures var p := Step(s, e).table[e.sid];
            && p.score == e.score && p.level == ScoreToRiskLevel(e.score) && p.lastEvaluated == Some(e.at)
            && (p.terminate <==> DetermineAction(e.score, e.thresholds) == TERMINATE)
            && (e.sid in s.table ==> p.created == s.table[e.sid].created) && (e.sid !in s.table ==> p.created == e.at)
    ensures forall sid :: sid != e.sid ==>
              (sid in Step(s, e).table <==> sid in s.table) && (sid in s.table ==> Step(s, e).table[sid] == s.table[sid])
  {
  }

  // ----- What single observations score ----------------------------------------------------------------------

  /** The session evaluator with one finding, or none. */
  lemma FindingScores()
    ensures Aggregate(EvaluatorSignals(Findings(false, false, false, false, false, false))) == 0
    ensures Aggregate(EvaluatorSignals(Findings(true, true, false, false, false, false))) == 25
    ensures Aggregate(EvaluatorSignals(Findings(true, false, true, false, false, false))) == 0
    ensures Aggregate(EvaluatorSignals(Findings(true, false, false, false, false, false))) == 5
    ensures Aggregate(EvaluatorSignals(Findings(false, false, false, true, false, false))) == 30
    ensures Aggregate(EvaluatorSignals(Findings(false, false, false, false, true, false))) == 20
    ensures Aggregate(EvaluatorSignals(Findings(false, false, false, false, false, true))) == 40
  {
    AggregateOne(Signal(0, 1.0));
    AggregateOne(Signal(25, 1.5));
    AggregateOne(Signal(0, 1.5));
    AggregateOne(Signal(5, 1.5));
    AggregateOne(Signal(30, 1.25));
    AggregateOne(Signal(20, 1.25));
    AggregateOne(Signal(40, 2.0));
  }

  lemma AggregateOne(s: Signal)
    requires s.score <= 100
    ensures Aggregate([s]) == s.score
  {
    assert [s][1..] == [];
    assert WeightedSum([s]) == s.score as real * s.weight && TotalWeight([s]) == s.weight;
    assert s.score as real * s.weight / s.weight == s.score as real;
    WholeStays(s.score);
  }

  /** Two findings count by their weights: travel weighs more than an anomaly, an anomaly as much as a risky network. */
  lemma TravelAndAnomaly()
    ensures Aggregate(EvaluatorSignals(Findings(false, false, false, false, true, true))) == 32
    ensures Aggregate(EvaluatorSignals(Findings(false, false, false, true, true, false))) == 25
    ensures Aggregate(EvaluatorSignals(Findings(true, true, false, false, false, true))) == 34
  {
    AggregateTwo(Signal(20, 1.25), Signal(40, 2.0));
    AggregateTwo(Signal(30, 1.25), Signal(20, 1.25));
    AggregateTwo(Signal(25, 1.5), Signal(40, 2.0));
  }

  lemma AggregateTwo(a: Signal, b: Signal)
    ensures var score := Round((a.score as real * a.weight + b.score as real * b.weight) / (a.weight + b.weight));
            Aggregate([a, b]) == if score <= 100 then score else 100
  {
    assert [a, b][1..] == [b] && [b][1..] == [];
    assert WeightedSum([b]) == b.score as real * b.weight && TotalWeight([b]) == b.weight;
    assert WeightedSum([a, b]) == a.score as real * a.weight + WeightedSum([b]) && TotalWeight([a, b]) == a.weight + TotalWeight([b]);
  }

  /** A posture with nothing wrong. */
  const CLEAN := Posture(true, true, true, true, false, None, false)

  function QuietScore(posture: Posture, now: int): int
  {
    Aggregate(ServiceSignals(Observation(Some(posture), None, None, Baseline(0.0, 0.0, 0)), now))
  }

  lemma QuietScoreIs(posture: Posture, now: int)
    ensures var device := EvaluateDevicePosture(posture, now);
            var score := Round(device.score as real * device.weight / (device.weight + 2.0));
            QuietScore(posture, now) == if score <= 100 then score else 100
  {
    var device := EvaluateDevicePosture(posture, now);
    var signals := ServiceSignals(Observation(Some(posture), None, None, Baseline(0.0, 0.0, 0)), now);
    assert signals == [device, Signal(0, 1.0), Signal(0, 1.0)];
    ThreeSignals(device, Signal(0, 1.0), Signal(0, 1.0));
  }

  /** What the risk service makes of one defect of the device, with nothing known about behaviour. The scan counts as
      old after seven full days. */
  lemma DefectScores(now: int, scanned: int)
    ensures QuietScore(CLEAN, now) == 0
    ensures QuietScore(CLEAN.(jailbroken := true), now) == 28
    ensures QuietScore(CLEAN.(encryptedDisk := false), now) == 13
    ensures QuietScore(CLEAN.(screenLock := false), now) == 10
    ensures QuietScore(CLEAN.(antivirus := false), now) == 6 == QuietScore(CLEAN.(firewall := false), now)
    ensures QuietScore(CLEAN.(nonCompliant := true), now) == 10
    ensures QuietScore(CLEAN.(lastSecurityScan := Some(scanned)), now) == if now - scanned >= 8 * DAY then 3 else 0
  {
    QuietScoreIs(CLEAN, now);
    QuietScoreIs(CLEAN.(jailbroken := true), now);
    QuietScoreIs(CLEAN.(encryptedDisk := false), now);
    QuietScoreIs(CLEAN.(screenLock := false), now);
    QuietScoreIs(CLEAN.(antivirus := false), now);
    QuietScoreIs(CLEAN.(firewall := false), now);
    QuietScoreIs(CLEAN.(nonCompliant := true), now);
    QuietScoreIs(CLEAN.(lastSecurityScan := Some(scanned)), now);
  }

  /** Defects are looked at in one order, worst first: a jailbreak hides everything else. */
  lemma WorstDefectCounts(posture: Posture, now: int)
    ensures posture.jailbroken ==> QuietScore(posture, now) == 28
    ensures !posture.jailbroken && !posture.encryptedDisk ==> QuietScore(posture, now) == 13
    ensures !posture.jailbroken && posture.encryptedDisk && !posture.screenLock ==> QuietScore(posture, now) == 10
    ensures QuietScore(UNKNOWN_POSTURE, now) == 13
  {
    QuietScoreIs(posture, now);
    QuietScoreIs(UNKNOWN_POSTURE, now);
  }
}
