/**
 * Trust scores: every assessment applies decay and a risk adjustment, an hourly sweep decays the scores of
 * idle sessions. Trust is a floating-point column, so that it stays whole is itself a claim.
 */
module TrustScore {
  import opened Collections
  import opened Wrappers
  import opened ContinuousSignals

  type Sid = string

  datatype Profile = Profile(
    trust: real, score: int, level: Level, terminate: bool, lastEvaluated: Option<int>, created: int)

  /** Times are milliseconds. */
  datatype State = State(clock: int, table: map<Sid, Profile>)

  const HOUR := 3600000

  const BATCH := 500

  // ----- The recurrence ------------------------------------------------------------------------------

  /** Five per cent an hour, at most half. */
  function Decay(elapsed: int): real
  {
    Min(elapsed as real / 3600000.0 * 0.05, 0.5)
  }

  function Adjustment(level: Level): int
  {
    match level
    case CRITICAL => -30
    case HIGH => -15
    case MEDIUM => -5
    case LOW => 2
  }

  function Clamp(x: int): int
  {
    if x < 0 then 0 else if x > 100 then 100 else x
  }

  /** What decay leaves. */
  function Kept(trust: real, elapsed: int): real
  {
    trust * (1.0 - Decay(elapsed))
  }

  function CalculateTrust(trust: real, level: Level, elapsed: int): real
  {
    Clamp(Round(Kept(trust, elapsed) + Adjustment(level) as real)) as real
  }

  function DecayedTrust(trust: real, elapsed: int): real
  {
    var rounded := Round(Kept(trust, elapsed));
    (if rounded < 0 then 0 else rounded) as real
  }

  // ----- The two writers -----------------------------------------------------------------------------

  function NewProfile(at: int): Profile
  {
    Profile(100.0, 0, LOW, false, None, at)
  }

  function Reassess(p: Profile, at: int, score: int, thresholds: Thresholds): Profile
  {
    p.(score := score,
       level := ScoreToRiskLevel(score),
       trust := CalculateTrust(p.trust, ScoreToRiskLevel(score), at - p.lastEvaluated.GetOr(p.created)),
       terminate := DetermineAction(score, thresholds).TERMINATE?,
       lastEvaluated := Some(at))
  }

  predicate IsIdle(p: Profile, at: int)
  {
    && !p.terminate && p.trust > 0.0
    && p.lastEvaluated.Some? && p.lastEvaluated.value < at - DAY
  }

  function Idle(table: map<Sid, Profile>, at: int): set<Sid>
  {
    set sid | sid in table && IsIdle(table[sid], at)
  }

  /** One row of the sweep; only rows that were evaluated before are ever swept. */
  function SweepRow(p: Profile, at: int): Profile
  {
    p.(trust := DecayedTrust(p.trust, at - p.lastEvaluated.GetOr(0)))
  }

  datatype Event =
    | Assess(sid: Sid, at: int, score: int, thresholds: Thresholds)
    | Sweep(at: int, taken: set<Sid>, failed: set<Sid>)
    | Remove(sid: Sid, at: int)

  /** Time does not run backwards; a sweep takes idle rows only, all of them unless they exceed a batch. */
  predicate Enabled(s: State, e: Event)
  {
    && s.clock <= e.at
    && (e.Sweep? ==>
          && e.taken <= Idle(s.table, e.at)
          && (|e.taken| == BATCH || |e.taken| == |Idle(s.table, e.at)|))
  }

  function Apply(table: map<Sid, Profile>, e: Event): map<Sid, Profile>
  {
    match e
    case Assess(sid, at, score, thresholds) =>
      table[sid := Reassess(if sid in table then table[sid] else NewProfile(at), at, score, thresholds)]
    case Sweep(at, taken, failed) =>
      map sid | sid in table :: if sid in taken - failed then SweepRow(table[sid], at) else table[sid]
    case Remove(sid, _) => table - {sid}
  }

  function Step(s: State, e: Event): State
  {
    State(e.at, Apply(s.table, e))
  }

  /** The sweep's rows are independent of each other. */
  lemma SweepOneMore(table: map<Sid, Profile>, at: int, taken: set<Sid>, failed: set<Sid>, sid: Sid)
    requires sid in table && sid !in taken
    ensures var before := Apply(table, Sweep(at, taken, failed));
            && sid in before && before[sid] == table[sid]
            && Apply(table, Sweep(at, taken + {sid}, failed))
               == before[sid := if sid in failed then table[sid] else SweepRow(table[sid], at)]
  {
  }

  predicate ValidRun(s: State, es: seq<Event>)
    decreases |es|
  {
    es == [] || (Enabled(s, es[0]) && ValidRun(Step(s, es[0]), es[1..]))
  }

  function Run(s: State, es: seq<Event>): State
    decreases |es|
  {
    if es == [] then s else Run(Step(s, es[0]), es[1..])
  }

  // ----- Trust stays a whole number of per cent --------------------------------------------------------

  predicate IsPercent(trust: real)
  {
    0.0 <= trust <= 100.0 && trust == trust.Floor as real
  }

  ghost predicate Inv(s: State)
  {
    forall sid :: sid in s.table ==>
      IsPercent(s.table[sid].trust) && s.table[sid].lastEvaluated.GetOr(s.table[sid].created) <= s.clock
  }

  lemma DecayRange(elapsed: int)
    requires elapsed >= 0
    ensures 0.0 <= Decay(elapsed) <= 0.5
    ensures elapsed > DAY ==> Decay(elapsed) == 0.5
  {
    if elapsed > DAY {
      assert elapsed as real / 3600000.0 > 24.0;
    }
  }

  lemma DecayShrinks(trust: real, elapsed: int)
    requires trust >= 0.0 && elapsed >= 0
    ensures 0.0 <= Kept(trust, elapsed) <= trust
  {
    DecayRange(elapsed);
    Scaled(0.0, 1.0 - Decay(elapsed), trust);
    Scaled(1.0 - Decay(elapsed), 1.0, trust);
  }

  /** A sweep halves a whole score, rounding up. */
  lemma SweepHalves(p: Profile, at: int)
    requires IsIdle(p, at) && IsPercent(p.trust)
    ensures SweepRow(p, at).trust == ((p.trust.Floor + 1) / 2) as real
  {
    var t := p.trust.Floor;
    DecayRange(at - p.lastEvaluated.value);
    assert p.trust * 0.5 == t as real / 2.0;
    var half := (t + 1) / 2;
    assert t == 2 * half || t == 2 * half - 1;
    assert half as real <= t as real / 2.0 + 0.5 < half as real + 1.0;
  }

  lemma StepKeepsInv(s: State, s': State, e: Event)
    requires Inv(s) && Enabled(s, e) && s' == Step(s, e)
    ensures Inv(s')
  {
    forall sid | sid in s'.table
      ensures IsPercent(s'.table[sid].trust) && s'.table[sid].lastEvaluated.GetOr(s'.table[sid].created) <= s'.clock
    {
      if e.Sweep? && sid in e.taken - e.failed {
        SweepHalves(s.table[sid], e.at);
      }
    }
  }

  lemma {:induction false} RunKeepsInv(s: State, es: seq<Event>)
    requires Inv(s) && ValidRun(s, es)
    ensures Inv(Run(s, es))
    decreases |es|
  {
    if es != [] {
      StepKeepsInv(s, Step(s, es[0]), es[0]);
      RunKeepsInv(Step(s, es[0]), es[1..]);
    }
  }

  /** In every run of assessments and sweeps from an empty table, trust is a whole number from 0 to 100. */
  lemma {:induction false} TrustIsAlwaysAPercentage(clock: int, es: seq<Event>, sid: Sid)
    requires ValidRun(State(clock, map[]), es) && sid in Run(State(clock, map[]), es).table
    ensures IsPercent(Run(State(clock, map[]), es).table[sid].trust)
  {
    RunKeepsInv(State(clock, map[]), es);
  }

  // ----- Trust of a session, assessed or not -----------------------------------------------------------

  function TrustOf(s: State, sid: Sid): real
  {
    if sid in s.table then s.table[sid].trust else 100.0
  }

  function Assessments(es: seq<Event>, sid: Sid): nat
  {
    if es == [] then 0
    else (if es[0].Assess? && es[0].sid == sid then 1 else 0) + Assessments(es[1..], sid)
  }

  function Floored(x: real): real
  {
    if x < 0.0 then 0.0 else x
  }

  // ----- Sweeps of an idle session -------------------------------------------------------------------

  /** A sweep takes only sessions that are to go on, have trust left and were last evaluated more than a day ago, and
      while those fit in one batch of 500 it takes them all. */
  lemma IdleSessionIsSwept(s: State, e: Event, sid: Sid)
    requires Enabled(s, e) && e.Sweep? && sid in s.table
    ensures var p := s.table[sid];
            var idle := !p.terminate && p.trust > 0.0 && p.lastEvaluated.Some? && e.at - p.lastEvaluated.value > 24 * HOUR;
            && (sid in e.taken ==> idle)
            && (idle && |Idle(s.table, e.at)| <= 500 ==> sid in e.taken)
  {
    SubsetSize(e.taken, Idle(s.table, e.at));
  }

  function Sweeps(es: seq<Event>, sid: Sid): nat
  {
    if es == [] then 0
    else (if es[0].Sweep? && sid in es[0].taken - es[0].failed then 1 else 0) + Sweeps(es[1..], sid)
  }

  predicate LeavesAlone(es: seq<Event>, sid: Sid)
  {
    forall e :: e in es ==> e.Sweep? || e.sid != sid
  }

  /** `r` is `t` divided by 2^k, rounded up. */
  predicate IsCeiling(r: int, t: int, k: nat)
  {
    (r - 1) * Pow2(k) < t <= r * Pow2(k)
  }

  lemma Multiplied(a: int, b: int, p: nat)
    requires a <= b
    ensures a * p <= b * p
  {
  }

  /** Halving and then dividing by 2^k is dividing by 2^(k+1), rounding up throughout. */
  lemma CeilingOfHalf(r: int, t: int, k: nat)
    requires IsCeiling(r, (t + 1) / 2, k)
    ensures IsCeiling(r, t, k + 1)
  {
    var a, b := (r - 1) * Pow2(k), r * Pow2(k);
    assert 2 * a < t <= 2 * b;
    assert (r - 1) * (2 * Pow2(k)) == 2 * a && r * (2 * Pow2(k)) == 2 * b;
  }

  /** k sweeps of a session that nobody assesses leave exactly its trust divided by 2^k, rounded up. */
  lemma {:induction false} SweepsHalveTrust(s: State, es: seq<Event>, sid: Sid)
    requires Inv(s) && ValidRun(s, es) && LeavesAlone(es, sid)
    requires sid in s.table && s.table[sid].trust > 0.0
    ensures sid in Run(s, es).table
    ensures IsCeiling(Run(s, es).table[sid].trust.Floor, s.table[sid].trust.Floor, Sweeps(es, sid))
    decreases |es|
  {
    var t := s.table[sid].trust.Floor;
    if es == [] {
      assert Pow2(0) == 1;
    } else {
      var s1 := Step(s, es[0]);
      StepKeepsInv(s, s1, es[0]);
      assert LeavesAlone(es[1..], sid);
      if es[0].Sweep? && sid in es[0].taken - es[0].failed {
        SweepHalves(s.table[sid], es[0].at);
        SweepsHalveTrust(s1, es[1..], sid);
        CeilingOfHalf(Run(s, es).table[sid].trust.Floor, t, Sweeps(es[1..], sid));
      } else {
        assert es[0] in es;
        SweepsHalveTrust(s1, es[1..], sid);
      }
    }
  }

  lemma {:induction false} Pow2Grows(k: nat)
    ensures Pow2(k) >= 1 && (k >= 7 ==> Pow2(k) >= 128)
  {
    if k > 7 {
      Pow2Grows(k - 1);
    } else {
      assert Pow2(7) == 128;
      if k > 0 {
        Pow2Grows(k - 1);
      }
    }
  }

  /** Sweeps never take trust to zero, and seven of them leave it at one. */
  lemma {:induction false} SweepsStopAtOne(s: State, es: seq<Event>, sid: Sid)
    requires Inv(s) && ValidRun(s, es) && LeavesAlone(es, sid)
    requires sid in s.table && s.table[sid].trust > 0.0
    ensures sid in Run(s, es).table && Run(s, es).table[sid].trust >= 1.0
    ensures Sweeps(es, sid) >= 7 ==> Run(s, es).table[sid].trust == 1.0
  {
    SweepsHalveTrust(s, es, sid);
    RunKeepsInv(s, es);
    var r, k := Run(s, es).table[sid].trust.Floor, Sweeps(es, sid);
    Pow2Grows(k);
    if r <= 0 {
      Multiplied(r, 0, Pow2(k));
    }
    if r >= 2 {
      Multiplied(1, r - 1, Pow2(k));
    }
  }

  // ----- What a quiet session gains ------------------------------------------------------------------

  /** A LOW assessment raises trust exactly while the decay costs at most a point and a half. */
  lemma LowRiskRaisesTrustIff(trust: real, elapsed: int)
    requires IsPercent(trust) && elapsed >= 0
    ensures CalculateTrust(trust, LOW, elapsed) > trust <==> trust < 100.0 && trust * Decay(elapsed) <= 1.5
  {
    DecayShrinks(trust, elapsed);
    RaisedIff(Kept(trust, elapsed), trust);
    Distribute(trust, 1.0, -Decay(elapsed));
  }

  lemma RaisedIff(kept: real, trust: real)
    requires 0.0 <= kept <= trust && IsPercent(trust)
    ensures Clamp(Round(kept + 2.0)) as real > trust <==> trust < 100.0 && trust - kept <= 1.5
  {
    var r := Round(kept + 2.0);
    assert r as real <= kept + 2.5 < r as real + 1.0;
    assert r >= trust.Floor + 1 <==> trust - kept <= 1.5;
  }

  /** At the hourly pace the scheduler sets for LOW sessions, only scores up to 30 rise. */
  lemma HourlyLowRiskRaisesOnlyUpToThirty(trust: real)
    requires IsPercent(trust)
    ensures CalculateTrust(trust, LOW, HOUR) > trust <==> trust <= 30.0
  {
    assert Decay(HOUR) == 0.05;
    LowRiskRaisesTrustIff(trust, HOUR);
  }
}
