/**
 * Refresh requests interleaved call by call: each reads the presented row, revokes it, and creates its
 * successor in separate database calls. How many live tokens a session can then have.
 */
module RefreshRace {
  import opened Collections
  import opened Wrappers

  type SessionId = string
  type Hash = string
  type RequestId = nat

  datatype Row = Row(sessionId: SessionId, clientId: Option<string>, revoked: bool, expiresAt: int)

  /** What a request does next; the row is the copy it read. */
  datatype Phase =
    | Reading | Rotating(row: Row) | Replaying(sid: SessionId) | Issuing(sid: SessionId) | Issued(hash: Hash) | Refused

  /** `read` remembers the live row the request read, and when. */
  datatype Process = Process(presented: Hash, client: string, phase: Phase, read: Option<(Row, int)>)

  /** `created` and `used` hold every session id and token hash there ever was. */
  datatype State = State(clock: int, sessions: set<SessionId>, tokens: map<Hash, Row>, procs: map<RequestId, Process>,
                         created: set<SessionId>, used: set<Hash>)

  // ----- The calls -----------------------------------------------------------------------------------

  function Read(s: State, p: Process): Phase
  {
    if p.presented !in s.tokens then Refused
    else
      var row := s.tokens[p.presented];
      if row.revoked then (if row.sessionId in s.sessions then Replaying(row.sessionId) else Refused)
      else if row.expiresAt < s.clock || row.clientId != Some(p.client) then Refused
      else Rotating(row)
  }

  function Put(s: State, id: RequestId, p: Process, phase: Phase): State
  {
    s.(procs := s.procs[id := p.(phase := phase)])
  }

  /** The update fails when the row is gone. */
  function Rotate(s: State, id: RequestId, p: Process, row: Row): State
  {
    if p.presented !in s.tokens then Put(s, id, p, Refused)
    else
      Put(s.(tokens := s.tokens[p.presented := s.tokens[p.presented].(revoked := true)]), id, p, Issuing(row.sessionId))
  }

  function RevokeAll(tokens: map<Hash, Row>, sid: SessionId): map<Hash, Row>
  {
    map h | h in tokens :: if tokens[h].sessionId == sid then tokens[h].(revoked := true) else tokens[h]
  }

  /** What deleting the session leaves. */
  function Outside(tokens: map<Hash, Row>, sid: SessionId): map<Hash, Row>
  {
    map h | h in tokens && tokens[h].sessionId != sid :: tokens[h]
  }

  /** The insert fails when the session is gone. */
  function IssueToken(s: State, id: RequestId, p: Process, sid: SessionId, hash: Hash, expiresAt: int): State
  {
    if sid !in s.sessions then Put(s, id, p, Refused)
    else
      Put(s.(tokens := s.tokens[hash := Row(sid, Some(p.client), false, expiresAt)], used := s.used + {hash}),
          id, p, Issued(hash))
  }

  function Advance(s: State, id: RequestId, hash: Hash, expiresAt: int): State
    requires id in s.procs
  {
    var p := s.procs[id];
    match p.phase
    case Reading =>
      var phase := Read(s, p);
      Put(s, id, p.(read := if phase.Rotating? then Some((phase.row, s.clock)) else None), phase)
    case Rotating(row) => Rotate(s, id, p, row)
    case Replaying(sid) => Put(s.(tokens := RevokeAll(s.tokens, sid)), id, p, Refused)
    case Issuing(sid) => IssueToken(s, id, p, sid, hash, expiresAt)
    case _ => s
  }

  // ----- Runs ----------------------------------------------------------------------------------------

  datatype Event =
    | Tick(ms: nat)
    | Open(sid: SessionId, hash: Hash, boundTo: Option<string>, expiresAt: int)   // a grant
    | Arrive(id: RequestId, presented: Hash, client: string)
    | Call(id: RequestId, hash: Hash, expiresAt: int)
    | Revoke(hash: Hash)
    | End(sid: SessionId)            // deletes the session, and its tokens by the cascade
    | CleanUp(gone: set<Hash>)       // expired rows

  predicate Enabled(s: State, e: Event)
  {
    match e
    case Open(sid, hash, _, _) => sid !in s.created && hash !in s.used
    case Arrive(id, _, _) => id !in s.procs
    case Call(id, hash, _) => id in s.procs && hash !in s.used
    case _ => true
  }

  function Step(s: State, e: Event): State
    requires Enabled(s, e)
  {
    match e
    case Tick(ms) => s.(clock := s.clock + ms)
    case Open(sid, hash, boundTo, expiresAt) =>
      s.(sessions := s.sessions + {sid}, created := s.created + {sid}, used := s.used + {hash},
         tokens := s.tokens[hash := Row(sid, boundTo, false, expiresAt)])
    case Arrive(id, presented, client) => s.(procs := s.procs[id := Process(presented, client, Reading, None)])
    case Call(id, hash, expiresAt) => Advance(s, id, hash, expiresAt)
    case Revoke(hash) =>
      if hash in s.tokens then s.(tokens := s.tokens[hash := s.tokens[hash].(revoked := true)]) else s
    case End(sid) =>
      s.(sessions := s.sessions - {sid}, tokens := Outside(s.tokens, sid))
    case CleanUp(gone) => s.(tokens := s.tokens - gone)
  }

  predicate ValidRun(s: State, es: seq<Event>)
    decreases |es|
  {
    es == [] || (Enabled(s, es[0]) && ValidRun(Step(s, es[0]), es[1..]))
  }

  function Run(s: State, es: seq<Event>): State
    requires ValidRun(s, es)
    decreases |es|
  {
    if es == [] then s else Run(Step(s, es[0]), es[1..])
  }

  predicate Initial(s: State)
  {
    s.sessions == {} && s.tokens == map[] && s.procs == map[] && s.created == {} && s.used == {}
  }

  // ----- Live and pending tokens -----------------------------------------------------------------------

  function Live(tokens: map<Hash, Row>, sid: SessionId): set<Hash>
  {
    set h | h in tokens && tokens[h].sessionId == sid && !tokens[h].revoked
  }

  /** The requests that have rotated and not issued yet. */
  function Pending(procs: map<RequestId, Process>, sid: SessionId): set<RequestId>
  {
    set id | id in procs && procs[id].phase == Issuing(sid)
  }

  function Weight(s: State, sid: SessionId): nat
  {
    |Live(s.tokens, sid)| + |Pending(s.procs, sid)|
  }

  /** The call rotates a row of the session that was revoked since the request read it. */
  predicate IsLate(s: State, e: Event, sid: SessionId)
  {
    && e.Call? && e.id in s.procs
    && var p := s.procs[e.id];
    && p.phase.Rotating? && p.phase.row.sessionId == sid
    && p.presented in s.tokens && s.tokens[p.presented].revoked
  }

  function LateRotations(s: State, es: seq<Event>, sid: SessionId): nat
    requires ValidRun(s, es)
    decreases |es|
  {
    if es == [] then 0 else (if IsLate(s, es[0], sid) then 1 else 0) + LateRotations(Step(s, es[0]), es[1..], sid)
  }

  /** What the step takes from the session's live and pending tokens: live rows revoked or deleted other than by
      their own rotation, and an issue that finds the session gone. */
  function Lost(s: State, e: Event, sid: SessionId): nat
  {
    match e
    case Call(id, _, _) =>
      if id !in s.procs then 0
      else if s.procs[id].phase == Replaying(sid) then |Live(s.tokens, sid)|
      else if s.procs[id].phase == Issuing(sid) && sid !in s.sessions then 1
      else 0
    case Revoke(hash) => if hash in Live(s.tokens, sid) then 1 else 0
    case End(own) => if own == sid then |Live(s.tokens, sid)| else 0
    case CleanUp(gone) => |Live(s.tokens, sid) * gone|
    case _ => 0
  }

  function Losses(s: State, es: seq<Event>, sid: SessionId): nat
    requires ValidRun(s, es)
    decreases |es|
  {
    if es == [] then 0 else Lost(s, es[0], sid) + Losses(Step(s, es[0]), es[1..], sid)
  }

  /** A request's copy of its row is right about the session the row belongs to. */
  predicate CopyOk(s: State, p: Process)
  {
    match p.phase
    case Rotating(row) =>
      row.sessionId in s.created && (p.presented in s.tokens ==> s.tokens[p.presented].sessionId == row.sessionId)
      && p.presented in s.used
    case Issuing(sid) => sid in s.created
    case _ => true
  }

  ghost predicate Inv(s: State)
  {
    && (forall h :: h in s.tokens ==> h in s.used && s.tokens[h].sessionId in s.created)
    && (forall id :: id in s.procs ==> CopyOk(s, s.procs[id]))
  }

  lemma CallKeepsInv(s: State, s': State, id: RequestId, hash: Hash, expiresAt: int)
    requires Inv(s) && id in s.procs && hash !in s.used && s' == Advance(s, id, hash, expiresAt)
    ensures Inv(s') && s.created == s'.created
  {
    assert CopyOk(s, s.procs[id]);
    forall x | x in s'.procs ensures CopyOk(s', s'.procs[x]) {
      assert CopyOk(s, s.procs[x]);
    }
  }

  lemma StepKeepsInv(s: State, s': State, e: Event)
    requires Inv(s) && Enabled(s, e) && s' == Step(s, e)
    ensures Inv(s') && s.created <= s'.created
  {
    match e
    case Call(id, hash, expiresAt) => CallKeepsInv(s, s', id, hash, expiresAt);
    case _ =>
      forall id | id in s'.procs ensures CopyOk(s', s'.procs[id]) {
        if id in s.procs {
          assert CopyOk(s, s.procs[id]);
        }
      }
  }

  // ----- The law ---------------------------------------------------------------------------------------

  lemma InsertedIsLive(tokens: map<Hash, Row>, hash: Hash, row: Row, sid: SessionId)
    requires hash !in tokens && !row.revoked
    ensures |Live(tokens[hash := row], sid)| == |Live(tokens, sid)| + (if row.sessionId == sid then 1 else 0)
  {
    if row.sessionId == sid {
      assert Live(tokens[hash := row], sid) == Live(tokens, sid) + {hash};
    } else {
      assert Live(tokens[hash := row], sid) == Live(tokens, sid);
    }
  }

  lemma RevokedIsNotLive(tokens: map<Hash, Row>, hash: Hash, sid: SessionId)
    requires hash in tokens
    ensures var row := tokens[hash];
            |Live(tokens[hash := row.(revoked := true)], sid)|
            == |Live(tokens, sid)| - (if row.sessionId == sid && !row.revoked then 1 else 0)
  {
    var row := tokens[hash];
    if row.sessionId == sid && !row.revoked {
      assert Live(tokens[hash := row.(revoked := true)], sid) == Live(tokens, sid) - {hash};
    } else {
      assert Live(tokens[hash := row.(revoked := true)], sid) == Live(tokens, sid);
    }
  }

  predicate IsPending(procs: map<RequestId, Process>, id: RequestId, sid: SessionId)
  {
    id in procs && procs[id].phase == Issuing(sid)
  }

  lemma PutChangesPending(procs: map<RequestId, Process>, id: RequestId, p: Process, sid: SessionId)
    ensures |Pending(procs[id := p], sid)|
            == |Pending(procs, sid)| - (if IsPending(procs, id, sid) then 1 else 0) + (if p.phase == Issuing(sid) then 1 else 0)
  {
    var rest := Pending(procs, sid) - {id};
    assert Pending(procs[id := p], sid) == if p.phase == Issuing(sid) then rest + {id} else rest;
  }

  lemma RotateWeighs(s: State, s': State, id: RequestId, sid: SessionId)
    requires Inv(s) && id in s.procs && s.procs[id].phase.Rotating?
    requires s' == Rotate(s, id, s.procs[id], s.procs[id].phase.row)
    ensures Weight(s', sid) == Weight(s, sid) + (if IsLate(s, Call(id, "", 0), sid) then 1 else 0)
  {
    var p := s.procs[id];
    assert CopyOk(s, p);
    PutChangesPending(s.procs, id, s'.procs[id], sid);
    if p.presented in s.tokens {
      RevokedIsNotLive(s.tokens, p.presented, sid);
    }
  }

  lemma IssueWeighs(s: State, s': State, id: RequestId, own: SessionId, hash: Hash, expiresAt: int, sid: SessionId)
    requires Inv(s) && id in s.procs && s.procs[id].phase == Issuing(own) && hash !in s.used
    requires s' == IssueToken(s, id, s.procs[id], own, hash, expiresAt)
    ensures Weight(s', sid) + (if own == sid && sid !in s.sessions then 1 else 0) == Weight(s, sid)
  {
    PutChangesPending(s.procs, id, s'.procs[id], sid);
    if own in s.sessions {
      InsertedIsLive(s.tokens, hash, Row(own, Some(s.procs[id].client), false, expiresAt), sid);
    }
  }

  lemma ReplayWeighs(tokens: map<Hash, Row>, own: SessionId, sid: SessionId)
    ensures Live(RevokeAll(tokens, own), sid) == if own == sid then {} else Live(tokens, sid)
  {
  }

  lemma CallWeighs(s: State, s': State, id: RequestId, hash: Hash, expiresAt: int, sid: SessionId)
    requires Inv(s) && id in s.procs && hash !in s.used && s' == Advance(s, id, hash, expiresAt)
    ensures var e := Call(id, hash, expiresAt);
            Weight(s', sid) + Lost(s, e, sid) == Weight(s, sid) + (if IsLate(s, e, sid) then 1 else 0)
  {
    match s.procs[id].phase
    case Rotating(_) => RotateWeighs(s, s', id, sid);
    case Issuing(own) => IssueWeighs(s, s', id, own, hash, expiresAt, sid);
    case Replaying(own) =>
      PutChangesPending(s.procs, id, s'.procs[id], sid);
      ReplayWeighs(s.tokens, own, sid);
    case Reading => PutChangesPending(s.procs, id, s'.procs[id], sid);
    case _ =>
  }

  lemma LiveOutside(tokens: map<Hash, Row>, own: SessionId, sid: SessionId)
    ensures Live(Outside(tokens, own), sid) == if own == sid then {} else Live(tokens, sid)
  {
  }

  lemma LiveWithout(tokens: map<Hash, Row>, gone: set<Hash>, sid: SessionId)
    ensures |Live(tokens - gone, sid)| + |Live(tokens, sid) * gone| == |Live(tokens, sid)|
  {
    var live := Live(tokens, sid);
    assert Live(tokens - gone, sid) == live - gone && live == (live - gone) + live * gone;
  }

  lemma RemovalWeighs(s: State, s': State, e: Event, sid: SessionId)
    requires (e.Revoke? || e.End? || e.CleanUp?) && s' == Step(s, e)
    ensures Weight(s', sid) + Lost(s, e, sid) == Weight(s, sid)
  {
    match e
    case Revoke(hash) =>
      if hash in s.tokens {
        RevokedIsNotLive(s.tokens, hash, sid);
      }
    case End(own) => LiveOutside(s.tokens, own, sid);
    case CleanUp(gone) => LiveWithout(s.tokens, gone, sid);
  }

  /** Live and pending tokens are conserved but for the opening, late rotations, and losses. */
  lemma StepWeighs(s: State, s': State, e: Event, sid: SessionId)
    requires Inv(s) && Enabled(s, e) && s' == Step(s, e)
    ensures Weight(s', sid) + Lost(s, e, sid)
         == Weight(s, sid) + (if IsLate(s, e, sid) then 1 else 0) + (if e.Open? && e.sid == sid then 1 else 0)
  {
    match e
    case Tick(_) =>
    case Open(own, hash, boundTo, expiresAt) => InsertedIsLive(s.tokens, hash, Row(own, boundTo, false, expiresAt), sid);
    case Call(id, hash, expiresAt) => CallWeighs(s, s', id, hash, expiresAt, sid);
    case Arrive(id, presented, client) => PutChangesPending(s.procs, id, Process(presented, client, Reading, None), sid);
    case _ => RemovalWeighs(s, s', e, sid);
  }

  /** Whether the run opens the session. */
  function Opened(s: State, es: seq<Event>, sid: SessionId): nat
    requires ValidRun(s, es)
  {
    if sid in Run(s, es).created && sid !in s.created then 1 else 0
  }

  lemma {:induction false} CreatedStays(s: State, es: seq<Event>, sid: SessionId)
    requires ValidRun(s, es) && sid in s.created
    ensures sid in Run(s, es).created
    decreases |es|
  {
    if es != [] {
      CreatedStays(Step(s, es[0]), es[1..], sid);
    }
  }

  lemma {:induction false} OnlyOpenCreates(s: State, e: Event, sid: SessionId)
    requires Enabled(s, e)
    ensures sid in Step(s, e).created <==> sid in s.created || (e.Open? && e.sid == sid)
  {
  }

  /** In every run, live and pending tokens at the end and those lost on the way make up exactly those at the
      start, one for a session the run opens, and one for every rotation that came late. */
  lemma {:induction false} TokensAreConserved(s: State, es: seq<Event>, sid: SessionId)
    requires Inv(s) && ValidRun(s, es)
    ensures Weight(Run(s, es), sid) + Losses(s, es, sid) == Weight(s, sid) + LateRotations(s, es, sid) + Opened(s, es, sid)
    decreases |es|
  {
    if es != [] {
      var s1 := Step(s, es[0]);
      StepKeepsInv(s, s1, es[0]);
      StepWeighs(s, s1, es[0], sid);
      OnlyOpenCreates(s, es[0], sid);
      if sid in s1.created {
        CreatedStays(s1, es[1..], sid);
      }
      TokensAreConserved(s1, es[1..], sid);
    }
  }

  /** The live and pending tokens of a session never exceed one more than its late rotations. */
  lemma {:induction false} LateRotationsBoundLiveTokens(s: State, es: seq<Event>, sid: SessionId)
    requires Initial(s) && ValidRun(s, es)
    ensures Weight(Run(s, es), sid) <= 1 + LateRotations(s, es, sid)
  {
    TokensAreConserved(s, es, sid);
    assert Live(s.tokens, sid) == {} && Pending(s.procs, sid) == {};
  }

  /** After any run a session that was opened has at most one live token exactly when its late rotations are
      made up for by losses and by requests that have yet to issue. */
  lemma {:induction false} OneLiveTokenIff(s: State, es: seq<Event>, sid: SessionId)
    requires Initial(s) && ValidRun(s, es) && sid in Run(s, es).created
    ensures var end := Run(s, es);
            |Live(end.tokens, sid)| <= 1 <==> LateRotations(s, es, sid) <= Losses(s, es, sid) + |Pending(end.procs, sid)|
  {
    TokensAreConserved(s, es, sid);
    assert Live(s.tokens, sid) == {} && Pending(s.procs, sid) == {};
  }

  /** Nothing lost and nobody about to issue: one live token and one more for each late rotation, so one live
      token exactly when no rotation came late. */
  lemma {:induction false} OneLiveTokenUnlessLate(s: State, es: seq<Event>, sid: SessionId)
    requires Initial(s) && ValidRun(s, es) && sid in Run(s, es).created
    requires Losses(s, es, sid) == 0 && Pending(Run(s, es).procs, sid) == {}
    ensures |Live(Run(s, es).tokens, sid)| == 1 + LateRotations(s, es, sid)
    ensures |Live(Run(s, es).tokens, sid)| <= 1 <==> LateRotations(s, es, sid) == 0
  {
    TokensAreConserved(s, es, sid);
    assert Live(s.tokens, sid) == {} && Pending(s.procs, sid) == {};
  }

  // ----- Replays -----------------------------------------------------------------------------------------

  /** The last call of a replay, after which nothing of the session is live. What is live or pending after any
      continuation, and what it lost, are exactly the requests that had rotated before and the late rotations. */
  lemma {:induction false} ReplayLeavesOnlyPending(s: State, id: RequestId, hash: Hash, es: seq<Event>, sid: SessionId)
    requires Inv(s) && id in s.procs && s.procs[id].phase == Replaying(sid) && sid in s.created && hash !in s.used
    requires ValidRun(Step(s, Call(id, hash, 0)), es)
    ensures var s1 := Step(s, Call(id, hash, 0));
            && Live(s1.tokens, sid) == {}
            && Weight(Run(s1, es), sid) + Losses(s1, es, sid) == |Pending(s.procs, sid)| + LateRotations(s1, es, sid)
  {
    var s1 := Step(s, Call(id, hash, 0));
    StepKeepsInv(s, s1, Call(id, hash, 0));
    ReplayWeighs(s.tokens, sid, sid);
    assert Pending(s1.procs, sid) == Pending(s.procs, sid);
    TokensAreConserved(s1, es, sid);
  }

  /** A continuation that loses nothing and leaves nobody about to issue revives the session exactly when some
      request had rotated before the replay or a late rotation follows it. */
  lemma {:induction false} ReplayRevivedIff(s: State, id: RequestId, hash: Hash, es: seq<Event>, sid: SessionId)
    requires Inv(s) && id in s.procs && s.procs[id].phase == Replaying(sid) && sid in s.created && hash !in s.used
    requires ValidRun(Step(s, Call(id, hash, 0)), es)
    requires var s1 := Step(s, Call(id, hash, 0)); Losses(s1, es, sid) == 0 && Pending(Run(s1, es).procs, sid) == {}
    ensures var s1 := Step(s, Call(id, hash, 0));
            Live(Run(s1, es).tokens, sid) != {} <==> Pending(s.procs, sid) != {} || LateRotations(s1, es, sid) > 0
  {
    ReplayLeavesOnlyPending(s, id, hash, es, sid);
  }

  /** A replay that never is undone: nobody had rotated, and no rotation comes late. */
  lemma {:induction false} ReplayIsFinalUnlessRaced(s: State, id: RequestId, hash: Hash, es: seq<Event>, sid: SessionId)
    requires Inv(s) && id in s.procs && s.procs[id].phase == Replaying(sid) && sid in s.created && hash !in s.used
    requires ValidRun(Step(s, Call(id, hash, 0)), es)
    requires Pending(s.procs, sid) == {} && LateRotations(Step(s, Call(id, hash, 0)), es, sid) == 0
    ensures Live(Run(Step(s, Call(id, hash, 0)), es).tokens, sid) == {}
  {
    ReplayLeavesOnlyPending(s, id, hash, es, sid);
  }

  // ----- The bound is met --------------------------------------------------------------------------------

  /** Two requests read the same live row before either rotates it: one rotation is late, and the session ends
      up with two live tokens. */
  lemma TwoReadersTwoTokens(s0: State)
    requires Initial(s0) && s0.clock == 0
    ensures var s1 := Step(s0, Open("s", "t", Some("c"), 100));
            var s2 := Step(Step(s1, Arrive(1, "t", "c")), Arrive(2, "t", "c"));
            var s3 := Step(Step(s2, Call(1, "u", 100)), Call(2, "u", 100));
            var s4 := Step(s3, Call(1, "u", 100));
            var s5 := Step(Step(Step(s4, Call(2, "u", 100)), Call(1, "u", 100)), Call(2, "v", 100));
            IsLate(s4, Call(2, "u", 100), "s") && Live(s5.tokens, "s") == {"u", "v"}
  {
    var row := Row("s", Some("c"), false, 100);
    var s1 := Step(s0, Open("s", "t", Some("c"), 100));
    var s2 := Step(Step(s1, Arrive(1, "t", "c")), Arrive(2, "t", "c"));
    var s3 := Step(Step(s2, Call(1, "u", 100)), Call(2, "u", 100));
    assert s3.procs[1].phase == Rotating(row) && s3.procs[2].phase == Rotating(row);
    var s4 := Step(s3, Call(1, "u", 100));
    var s5 := Step(s4, Call(2, "u", 100));
    assert s5.tokens == map["t" := row.(revoked := true)];
    assert s5.procs[1].phase == Issuing("s") && s5.procs[2].phase == Issuing("s");
    var s6 := Step(s5, Call(1, "u", 100));
    assert s6.tokens == map["t" := row.(revoked := true), "u" := row];
  }

  /** One request has rotated the token, another replays it, and the first then issues: the session that the
      replay revoked has a live token again. */
  lemma ReplayUndone(s0: State)
    requires Initial(s0) && s0.clock == 0
    ensures var s1 := Step(Step(s0, Open("s", "t", Some("c"), 100)), Arrive(1, "t", "c"));
            var s2 := Step(Step(s1, Call(1, "u", 100)), Call(1, "u", 100));
            var s3 := Step(Step(s2, Arrive(2, "t", "c")), Call(2, "v", 100));
            var s4 := Step(s3, Call(2, "v", 100));
            var s5 := Step(s4, Call(1, "u", 100));
            && s3.procs[2].phase == Replaying("s") && Pending(s3.procs, "s") == {1}
            && Live(s4.tokens, "s") == {} && Live(s5.tokens, "s") == {"u"}
  {
    var row := Row("s", Some("c"), false, 100);
    var s1 := Step(Step(s0, Open("s", "t", Some("c"), 100)), Arrive(1, "t", "c"));
    assert s1.tokens == map["t" := row];
    var s2 := Step(Step(s1, Call(1, "u", 100)), Call(1, "u", 100));
    assert s2.tokens == map["t" := row.(revoked := true)] && s2.procs[1].phase == Issuing("s");
    var s3 := Step(Step(s2, Arrive(2, "t", "c")), Call(2, "v", 100));
    assert s3.procs[2].phase == Replaying("s");
    var s4 := Step(s3, Call(2, "v", 100));
    assert s4.tokens == map["t" := row.(revoked := true)];
  }
}
