/** The session risk profiles and their writers: two assessment paths and the decay sweep. */
module TrustService {
  import opened Wrappers
  import opened ContinuousSignals
  import T = TrustScore

  class RiskProfiles {
    var clock: int
    var profiles: map<T.Sid, T.Profile>

    function State(): T.State
      reads this
    {
      T.State(clock, profiles)
    }

    constructor (now: int)
      ensures State() == T.State(now, map[])
    {
      clock, profiles := now, map[];
    }

    method GetOrCreateProfile(sid: T.Sid, at: int) returns (p: T.Profile)
      modifies `profiles
      ensures p == (if sid in old(profiles) then old(profiles)[sid] else T.NewProfile(at))
      ensures profiles == old(profiles)[sid := p]
    {
      if sid !in profiles {
        profiles := profiles[sid := T.NewProfile(at)];
      }
      p := profiles[sid];
    }

    /** The part both paths share: score, level, action, trust and the profile update. */
    method Persist(sid: T.Sid, p: T.Profile, score: int, thresholds: Thresholds, at: int)
      requires sid in profiles && profiles[sid] == p
      modifies this
      ensures State() == T.State(at, old(profiles)[sid := T.Reassess(p, at, score, thresholds)])
    {
      var level := ScoreToRiskLevel(score);
      var action := DetermineAction(score, thresholds);
      var since := at - p.lastEvaluated.GetOr(p.created);
      var trust := T.CalculateTrust(p.trust, level, since);
      profiles := profiles[sid := T.Profile(trust, score, level, action == TERMINATE, Some(at), p.created)];
      clock := at;
    }

    /** The risk service: its own three signals, then the policies that fired. */
    method AssessContinuousRisk(sid: T.Sid, o: Observation, contribution: int, thresholds: Thresholds, at: int)
      returns (score: int)
      requires clock <= at
      modifies this
      ensures score == FinalScore(Aggregate(ServiceSignals(o, at)), contribution)
      ensures State() == T.Step(old(State()), T.Assess(sid, at, score, thresholds))
    {
      var p := GetOrCreateProfile(sid, at);
      var risk := Aggregate(ServiceSignals(o, at));
      score := if risk + contribution <= 100 then risk + contribution else 100;
      Persist(sid, p, score, thresholds, at);
    }

    /** The session evaluator: the same update from other signals. */
    method EvaluateSession(sid: T.Sid, f: Findings, contribution: int, thresholds: Thresholds, at: int)
      returns (score: int)
      requires clock <= at
      modifies this
      ensures score == FinalScore(Aggregate(EvaluatorSignals(f)), contribution)
      ensures State() == T.Step(old(State()), T.Assess(sid, at, score, thresholds))
    {
      var p := GetOrCreateProfile(sid, at);
      var risk := Aggregate(EvaluatorSignals(f));
      score := if risk + contribution <= 100 then risk + contribution else 100;
      Persist(sid, p, score, thresholds, at);
    }

    /** One row: written only when the score moves. */
    method SweepProfile(sid: T.Sid, fails: bool, at: int)
      requires sid in profiles
      modifies `profiles
      ensures profiles == old(profiles)[sid := if fails then old(profiles)[sid] else T.SweepRow(old(profiles)[sid], at)]
    {
      var p := profiles[sid];
      var trust := T.DecayedTrust(p.trust, at - p.lastEvaluated.GetOr(0));
      if trust != p.trust && !fails {
        profiles := profiles[sid := p.(trust := trust)];
      }
    }

    /** `rows` is the batch the query returned, in no particular order; `failed` the rows whose update threw. */
    method ApplyTrustDecay(rows: set<T.Sid>, failed: set<T.Sid>, at: int)
      requires T.Enabled(State(), T.Sweep(at, rows, failed))
      modifies this
      ensures State() == T.Step(old(State()), T.Sweep(at, rows, failed))
    {
      ghost var before := profiles;
      assert rows <= T.Idle(before, at);
      assert forall sid :: sid in rows ==> sid in before;
      assert profiles == T.Apply(before, T.Sweep(at, {}, failed));
      var rest := rows;
      while rest != {}
        invariant rest <= rows
        invariant profiles == T.Apply(before, T.Sweep(at, rows - rest, failed))
        decreases rest
      {
        var sid :| sid in rest;
        T.SweepOneMore(before, at, rows - rest, failed, sid);
        assert rows - (rest - {sid}) == rows - rest + {sid};
        SweepProfile(sid, sid in failed, at);
        rest := rest - {sid};
      }
      assert rows - rest == rows;
      clock := at;
    }
  }
}
