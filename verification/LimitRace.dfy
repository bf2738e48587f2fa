/**
 * Session grants interleaved call by call: each counts the user's active sessions, evicts the surplus of what
 * it counted, and creates its own. How far the limit can then be exceeded.
 */
module LimitRace {
  import opened Collections

  type SessionId = string
  type RequestId = nat

  datatype Phase = Arrived | Evicting | Creating | Finished

  /** What the query answered, what it leads the request to evict, and two history variables: the requests in
      flight at the query, this one included, and the query's number. */
  datatype Process = Process(phase: Phase, counted: set<SessionId>, evict: set<SessionId>, flight: set<RequestId>, turn: nat)

  /** One user's active sessions, and which request created which session. */
  datatype State = State(active: set<SessionId>, creator: map<SessionId, RequestId>, procs: map<RequestId, Process>, turns: nat)

  /** The surplus of `n` sessions under the limit. */
  function Surplus(n: nat, max: nat): nat
  {
    if n < max then 0 else n - max + 1
  }

  predicate IsInFlight(p: Process)
  {
    p.phase.Evicting? || p.phase.Creating?
  }

  function InFlight(s: State): set<RequestId>
  {
    set id | id in s.procs && IsInFlight(s.procs[id])
  }

  datatype Event =
    | Arrive(id: RequestId)
    | Count(id: RequestId, evict: set<SessionId>)   // the oldest ones of the answer
    | Evict(id: RequestId)
    | Create(id: RequestId, sid: SessionId)
    | End(sid: SessionId)                            // expiry, logout, revocation

  predicate Enabled(s: State, e: Event, max: nat)
    requires max > 0
  {
    match e
    case Arrive(id) => id !in s.procs
    case Count(id, evict) =>
      id in s.procs && s.procs[id].phase.Arrived? && evict <= s.active && |evict| == Surplus(|s.active|, max)
    case Evict(id) => id in s.procs && s.procs[id].phase.Evicting?
    case Create(id, sid) => id in s.procs && s.procs[id].phase.Creating? && sid !in s.creator && sid !in s.active
    case End(_) => true
  }

  function Step(s: State, e: Event): State
    requires e.Count? || e.Evict? || e.Create? ==> e.id in s.procs
  {
    match e
    case Arrive(id) => s.(procs := s.procs[id := Process(Arrived, {}, {}, {}, 0)])
    case Count(id, evict) =>
      s.(procs := s.procs[id := Process(Evicting, s.active, evict, InFlight(s) + {id}, s.turns)], turns := s.turns + 1)
    case Evict(id) =>
      s.(active := s.active - s.procs[id].evict, procs := s.procs[id := s.procs[id].(phase := Creating)])
    case Create(id, sid) =>
      s.(active := s.active + {sid}, creator := s.creator[sid := id],
         procs := s.procs[id := s.procs[id].(phase := Finished)])
    case End(sid) => s.(active := s.active - {sid})
  }

  /** Never more than `width` requests between their query and their insert. */
  predicate ValidRun(s: State, es: seq<Event>, max: nat, width: nat)
    requires max > 0
    decreases |es|
  {
    |InFlight(s)| <= width &&
    (es == [] || (Enabled(s, es[0], max) && ValidRun(Step(s, es[0]), es[1..], max, width)))
  }

  function Run(s: State, es: seq<Event>, max: nat, width: nat): State
    requires max > 0 && ValidRun(s, es, max, width)
    decreases |es|
  {
    if es == [] then s else Run(Step(s, es[0]), es[1..], max, width)
  }

  predicate Initial(s: State)
  {
    s.active == {} && s.creator == map[] && s.procs == map[]
  }

  // ----- The invariant -----------------------------------------------------------------------------------

  predicate HasEvicted(p: Process)
  {
    p.phase.Creating? || p.phase.Finished?
  }

  /** What a request that counted has left of the sessions it saw. */
  function Kept(p: Process): set<SessionId>
  {
    if p.phase.Evicting? then p.counted else p.counted - p.evict
  }

  /** Created by a request in flight at the query of `p`, or by one whose query came later. */
  predicate CameLater(s: State, p: Process, sid: SessionId)
  {
    && sid in s.creator && s.creator[sid] in s.procs
    && (s.creator[sid] in p.flight || s.procs[s.creator[sid]].turn > p.turn)
  }

  predicate Explains(s: State, id: RequestId, sid: SessionId)
    requires id in s.procs
  {
    sid in Kept(s.procs[id]) || CameLater(s, s.procs[id], sid)
  }

  predicate ProcessOk(s: State, id: RequestId, max: nat, width: nat)
    requires id in s.procs
  {
    var p := s.procs[id];
    !p.phase.Arrived? ==>
      && p.turn < s.turns && id in p.flight && |p.flight| <= width
      && p.evict <= p.counted && |p.counted - p.evict| + 1 <= max
  }

  /** Of two requests in flight, the one that counted first was in flight when the other counted. */
  predicate Overlap(s: State, h: RequestId, p: RequestId)
    requires h in s.procs && p in s.procs
  {
    !s.procs[h].phase.Arrived? && IsInFlight(s.procs[p]) ==>
      p in s.procs[h].flight || s.procs[p].turn > s.procs[h].turn
  }

  ghost predicate ProcessesOk(s: State, max: nat, width: nat)
  {
    forall id :: id in s.procs ==> ProcessOk(s, id, max, width)
  }

  /** A session was created by a request that is done, and by one that created no other. */
  ghost predicate CreatorsOk(s: State)
  {
    && s.active <= s.creator.Keys
    && (forall sid :: sid in s.creator ==> s.creator[sid] in s.procs && s.procs[s.creator[sid]].phase.Finished?)
    && (forall a, b :: a in s.creator && b in s.creator && s.creator[a] == s.creator[b] ==> a == b)
  }

  ghost predicate OverlapsOk(s: State)
  {
    forall h, p :: h in s.procs && p in s.procs ==> Overlap(s, h, p)
  }

  /** Whoever counted can say of every active session where it comes from. */
  ghost predicate Explained(s: State)
  {
    forall h, sid :: h in s.procs && !s.procs[h].phase.Arrived? && sid in s.active ==> Explains(s, h, sid)
  }

  ghost predicate Inv(s: State, max: nat, width: nat)
  {
    ProcessesOk(s, max, width) && CreatorsOk(s) && OverlapsOk(s) && Explained(s)
  }

  lemma SurplusLeaves(counted: set<SessionId>, evict: set<SessionId>, max: nat)
    requires max > 0 && evict <= counted && |evict| == Surplus(|counted|, max)
    ensures |counted - evict| + 1 <= max
  {
    assert counted == (counted - evict) + evict;
  }

  lemma StepKeepsProcesses(s: State, s': State, e: Event, max: nat, width: nat)
    requires max > 0 && ProcessesOk(s, max, width) && Enabled(s, e, max) && s' == Step(s, e) && |InFlight(s')| <= width
    ensures ProcessesOk(s', max, width)
  {
    if e.Count? {
      SurplusLeaves(s.active, e.evict, max);
      assert InFlight(s') == InFlight(s) + {e.id};
    }
    forall id | id in s'.procs ensures ProcessOk(s', id, max, width) {
      if id in s.procs {
        assert ProcessOk(s, id, max, width);
      }
    }
  }

  lemma StepKeepsCreators(s: State, s': State, e: Event, max: nat)
    requires max > 0 && CreatorsOk(s) && Enabled(s, e, max) && s' == Step(s, e)
    ensures CreatorsOk(s')
  {
    forall sid | sid in s'.creator ensures s'.creator[sid] in s'.procs && s'.procs[s'.creator[sid]].phase.Finished? {
      assert sid in s.creator || (e.Create? && sid == e.sid);
    }
  }

  lemma StepKeepsOverlaps(s: State, s': State, e: Event, max: nat, width: nat)
    requires max > 0 && ProcessesOk(s, max, width) && OverlapsOk(s) && Enabled(s, e, max) && s' == Step(s, e)
    ensures OverlapsOk(s')
  {
    forall h, p | h in s'.procs && p in s'.procs ensures Overlap(s', h, p) {
      if h in s.procs && p in s.procs {
        assert Overlap(s, h, p) && ProcessOk(s, h, max, width);
        assert IsInFlight(s.procs[p]) ==> p in InFlight(s);
      }
    }
  }

  /** A session that is there before and after the step. */
  lemma StaysExplained(s: State, s': State, e: Event, max: nat, h: RequestId, sid: SessionId)
    requires max > 0 && CreatorsOk(s) && Enabled(s, e, max) && s' == Step(s, e)
    requires h in s.procs && !s'.procs[h].phase.Arrived? && sid in s.active && sid in s'.active
    requires !s.procs[h].phase.Arrived? ==> Explains(s, h, sid)
    ensures Explains(s', h, sid)
  {
    assert sid in s.creator && s.procs[s.creator[sid]].phase.Finished?;
  }

  lemma StepKeepsExplained(s: State, s': State, e: Event, max: nat)
    requires max > 0 && CreatorsOk(s) && OverlapsOk(s) && Explained(s) && Enabled(s, e, max) && s' == Step(s, e)
    ensures Explained(s')
  {
    forall h, sid | h in s'.procs && !s'.procs[h].phase.Arrived? && sid in s'.active ensures Explains(s', h, sid) {
      if sid in s.active {
        StaysExplained(s, s', e, max, h, sid);
      } else {
        assert e.Create? && Overlap(s, h, e.id);
      }
    }
  }

  lemma StepKeepsInv(s: State, s': State, e: Event, max: nat, width: nat)
    requires max > 0 && Inv(s, max, width) && Enabled(s, e, max) && s' == Step(s, e) && |InFlight(s')| <= width
    ensures Inv(s', max, width)
  {
    StepKeepsProcesses(s, s', e, max, width);
    StepKeepsCreators(s, s', e, max);
    StepKeepsOverlaps(s, s', e, max, width);
    StepKeepsExplained(s, s', e, max);
  }

  lemma {:induction false} RunKeepsInv(s: State, es: seq<Event>, max: nat, width: nat)
    requires max > 0 && Inv(s, max, width) && ValidRun(s, es, max, width)
    ensures Inv(Run(s, es, max, width), max, width)
    decreases |es|
  {
    if es != [] {
      StepKeepsInv(s, Step(s, es[0]), es[0], max, width);
      RunKeepsInv(Step(s, es[0]), es[1..], max, width);
    }
  }

  // ----- The bound -----------------------------------------------------------------------------------------

  /** Among the requests that have evicted, the one whose query came last. */
  lemma {:induction false} LastEvictor(s: State, ids: set<RequestId>) returns (g: RequestId)
    requires ids != {} && ids <= s.procs.Keys
    ensures g in ids && forall id :: id in ids ==> s.procs[id].turn <= s.procs[g].turn
  {
    var first :| first in ids;
    g := first;
    if ids != {first} {
      var h := LastEvictor(s, ids - {first});
      g := if s.procs[h].turn > s.procs[first].turn then h else first;
      assert ids == (ids - {first}) + {first};
    }
  }

  lemma {:induction false} OneSessionEach(creator: map<SessionId, RequestId>, sids: set<SessionId>, ids: set<RequestId>)
    requires forall sid :: sid in sids ==> sid in creator && creator[sid] in ids
    requires forall a, b :: a in sids && b in sids && creator[a] == creator[b] ==> a == b
    ensures |sids| <= |ids|
  {
    if sids != {} {
      var sid :| sid in sids;
      OneSessionEach(creator, sids - {sid}, ids - {creator[sid]});
    }
  }

  lemma ActiveIsBounded(s: State, max: nat, width: nat)
    requires max > 0 && Inv(s, max, width)
    ensures |s.active| + 1 <= max + width || s.active == {}
  {
    var evictors := set id | id in s.procs && HasEvicted(s.procs[id]);
    if s.active != {} {
      var some :| some in s.active;
      assert s.creator[some] in evictors;
      var g := LastEvictor(s, evictors);
      var p := s.procs[g];
      assert ProcessOk(s, g, max, width);
      var others := s.active - Kept(p);
      forall sid | sid in others ensures s.creator[sid] in p.flight {
        assert Explains(s, g, sid);
        assert s.creator[sid] in evictors;
      }
      OneSessionEach(s.creator, others, p.flight);
      SubsetSize(s.active, Kept(p) + others);
    }
  }

  /** However grants interleave, with at most `width` of them between their query and their insert at any time,
      the user's active sessions exceed the limit by at most `width - 1`. */
  lemma {:induction false} LimitExceededByOverlapOnly(s: State, es: seq<Event>, max: nat, width: nat)
    requires max > 0 && width > 0 && Initial(s) && ValidRun(s, es, max, width)
    ensures |Run(s, es, max, width).active| <= max + (width - 1)
  {
    RunKeepsInv(s, es, max, width);
    ActiveIsBounded(Run(s, es, max, width), max, width);
  }

  // ----- The bound is met ----------------------------------------------------------------------------------

  /** Requests `0..done` have created a session each, `done..counted` have counted and found nothing to evict. */
  ghost predicate Underway(s: State, names: seq<SessionId>, done: nat, counted: nat)
  {
    && done <= counted <= |names|
    && (forall id :: id in s.procs <==> 0 <= id < counted)
    && (forall id :: done <= id < counted ==> s.procs[id].phase.Evicting? && s.procs[id].evict == {})
    && s.active == s.creator.Keys && |s.active| == done && |InFlight(s)| == counted - done
    && (forall i :: done <= i < |names| ==> names[i] !in s.active)
  }

  lemma Prepend(s: State, e: Event, es: seq<Event>, max: nat, width: nat)
    requires max > 0 && |InFlight(s)| <= width && Enabled(s, e, max) && ValidRun(Step(s, e), es, max, width)
    ensures ValidRun(s, [e] + es, max, width) && Run(s, [e] + es, max, width) == Run(Step(s, e), es, max, width)
  {
    assert ([e] + es)[1..] == es;
  }

  lemma Arrives(s: State, s1: State, id: RequestId)
    requires id !in s.procs && s1 == Step(s, Arrive(id))
    ensures InFlight(s1) == InFlight(s) && s1.active == s.active
  {
  }

  lemma FindsNoSurplus(s: State, s': State, id: RequestId, max: nat)
    requires max > 0 && id in s.procs && s.procs[id].phase.Arrived? && |s.active| < max && s' == Step(s, Count(id, {}))
    ensures Enabled(s, Count(id, {}), max) && s'.procs[id].phase.Evicting? && s'.procs[id].evict == {}
    ensures id !in InFlight(s) && InFlight(s') == InFlight(s) + {id} && s'.active == s.active && s'.creator == s.creator
    ensures s'.procs == s.procs[id := s'.procs[id]]
  {
  }

  lemma OneMoreCounted(s: State, s': State, names: seq<SessionId>, done: nat, counted: nat, p: Process)
    requires Underway(s, names, done, counted) && counted < |names| && p.phase.Evicting? && p.evict == {}
    requires s'.procs == s.procs[counted := p] && s'.active == s.active && s'.creator == s.creator
    requires counted !in InFlight(s) && InFlight(s') == InFlight(s) + {counted}
    ensures Underway(s', names, done, counted + 1)
  {
  }

  lemma Counts(s: State, s': State, names: seq<SessionId>, done: nat, counted: nat, id: RequestId, max: nat)
    requires max > 0 && Underway(s, names, done, counted) && counted < |names| && done < max && id == counted
    requires s' == Step(Step(s, Arrive(id)), Count(id, {}))
    ensures Enabled(s, Arrive(id), max) && InFlight(Step(s, Arrive(id))) == InFlight(s)
    ensures Enabled(Step(s, Arrive(id)), Count(id, {}), max)
    ensures Underway(s', names, done, counted + 1)
  {
    var s1 := Step(s, Arrive(id));
    Arrives(s, s1, id);
    FindsNoSurplus(s1, s', id, max);
    OneMoreCounted(s, s', names, done, counted, s'.procs[id]);
  }

  lemma Creates(s: State, s': State, names: seq<SessionId>, done: nat, counted: nat, id: RequestId, max: nat)
    requires max > 0 && Distinct(names) && Underway(s, names, done, counted) && done < counted && id == done
    requires s' == Step(Step(s, Evict(id)), Create(id, names[done]))
    ensures Enabled(s, Evict(id), max) && InFlight(Step(s, Evict(id))) == InFlight(s)
    ensures Enabled(Step(s, Evict(id)), Create(id, names[done]), max)
    ensures Underway(s', names, done + 1, counted)
  {
    var s1 := Step(s, Evict(id));
    assert s1.active == s.active;
    assert InFlight(s1) == InFlight(s);
    assert s'.active == s.active + {names[done]};
    assert InFlight(s') == InFlight(s) - {id};
  }

  /** The two calls of a request that counts. */
  lemma PrependCount(s: State, names: seq<SessionId>, done: nat, counted: nat, rest: seq<Event>, max: nat, width: nat)
    returns (es: seq<Event>)
    requires max > 0 && Underway(s, names, done, counted) && counted < |names| && done < max && counted - done < width
    requires ValidRun(Step(Step(s, Arrive(counted)), Count(counted, {})), rest, max, width)
    ensures ValidRun(s, es, max, width)
    ensures Run(s, es, max, width) == Run(Step(Step(s, Arrive(counted)), Count(counted, {})), rest, max, width)
  {
    var s1 := Step(s, Arrive(counted));
    Counts(s, Step(s1, Count(counted, {})), names, done, counted, counted, max);
    Prepend(s1, Count(counted, {}), rest, max, width);
    Prepend(s, Arrive(counted), [Count(counted, {})] + rest, max, width);
    es := [Arrive(counted)] + ([Count(counted, {})] + rest);
  }

  lemma PrependCreate(s: State, names: seq<SessionId>, done: nat, counted: nat, rest: seq<Event>, max: nat, width: nat)
    returns (es: seq<Event>)
    requires max > 0 && Distinct(names) && Underway(s, names, done, counted) && done < counted && counted - done <= width
    requires ValidRun(Step(Step(s, Evict(done)), Create(done, names[done])), rest, max, width)
    ensures ValidRun(s, es, max, width)
    ensures Run(s, es, max, width) == Run(Step(Step(s, Evict(done)), Create(done, names[done])), rest, max, width)
  {
    var s1 := Step(s, Evict(done));
    Creates(s, Step(s1, Create(done, names[done])), names, done, counted, done, max);
    Prepend(s1, Create(done, names[done]), rest, max, width);
    Prepend(s, Evict(done), [Create(done, names[done])] + rest, max, width);
    es := [Evict(done)] + ([Create(done, names[done])] + rest);
  }

  lemma {:induction false} AllCreate(s: State, names: seq<SessionId>, done: nat, counted: nat, max: nat, width: nat)
    returns (es: seq<Event>)
    requires max > 0 && Distinct(names) && Underway(s, names, done, counted) && counted - done <= width
    ensures ValidRun(s, es, max, width) && |Run(s, es, max, width).active| == counted
    decreases counted - done
  {
    if done == counted {
      es := [];
    } else {
      var s' := Step(Step(s, Evict(done)), Create(done, names[done]));
      Creates(s, s', names, done, counted, done, max);
      var rest := AllCreate(s', names, done + 1, counted, max, width);
      es := PrependCreate(s, names, done, counted, rest, max, width);
    }
  }

  /** From `max - 1` sessions, `width` requests count before the first of them creates. */
  lemma {:induction false} AllCount(s: State, names: seq<SessionId>, counted: nat, max: nat, width: nat)
    returns (es: seq<Event>)
    requires max > 0 && Distinct(names) && |names| == max - 1 + width && Underway(s, names, max - 1, counted)
    ensures ValidRun(s, es, max, width) && |Run(s, es, max, width).active| == |names|
    decreases |names| - counted
  {
    if counted == |names| {
      es := AllCreate(s, names, max - 1, counted, max, width);
    } else {
      var s' := Step(Step(s, Arrive(counted)), Count(counted, {}));
      Counts(s, s', names, max - 1, counted, counted, max);
      var rest := AllCount(s', names, counted + 1, max, width);
      es := PrependCount(s, names, max - 1, counted, rest, max, width);
    }
  }

  lemma {:induction false} OneByOneThenTogether(s: State, names: seq<SessionId>, done: nat, max: nat, width: nat)
    returns (es: seq<Event>)
    requires width > 0 && Distinct(names) && |names| == max - 1 + width && done < max && Underway(s, names, done, done)
    ensures ValidRun(s, es, max, width) && |Run(s, es, max, width).active| == |names|
    decreases max - done
  {
    if done == max - 1 {
      es := AllCount(s, names, done, max, width);
    } else {
      var s1 := Step(Step(s, Arrive(done)), Count(done, {}));
      Counts(s, s1, names, done, done, done, max);
      var s2 := Step(Step(s1, Evict(done)), Create(done, names[done]));
      Creates(s1, s2, names, done, done + 1, done, max);
      var rest := OneByOneThenTogether(s2, names, done + 1, max, width);
      rest := PrependCreate(s1, names, done, done + 1, rest, max, width);
      es := PrependCount(s, names, done, done, rest, max, width);
    }
  }

  /** For every limit and width some run ends with `max + (width - 1)` active sessions: one request after the
      other until one place is left, then `width` requests that all see it. */
  lemma LimitIsExceededByOverlap(s: State, names: seq<SessionId>, max: nat, width: nat) returns (es: seq<Event>)
    requires max > 0 && width > 0 && Initial(s) && Distinct(names) && |names| == max + (width - 1)
    ensures ValidRun(s, es, max, width) && |Run(s, es, max, width).active| == max + (width - 1)
  {
    assert InFlight(s) == {};
    es := OneByOneThenTogether(s, names, 0, max, width);
  }
}
