/**
 * When a device-code poll is granted: the answer to a poll that runs alone, call by call for polls that interleave,
 * and what every opened session owes to the answers its request was given.
 */
module DeviceGrantChecks {
  import opened Wrappers
  import opened DeviceGrant

  // ----- A poll alone ----------------------------------------------------------------------------------

  /** Somebody approved the code for `user`, in the realm, and it can still be redeemed at `now`. */
  predicate ApprovedFor(row: Option<Row>, realmId: string, now: int, user: string)
  {
    && row.Some? && row.value.realmId == realmId && now <= row.value.expiresAt
    && row.value.approved && !row.value.denied && row.value.userId == user && user != ""
  }

  /** The last recorded poll, if any, is at least the interval ago. */
  predicate OnTime(row: Row, now: int)
  {
    row.lastPolledAt.Some? ==> now - row.lastPolledAt.value >= row.interval * 1000
  }

  /** A poll is granted for a user exactly when the code is approved for that user, in the realm, unexpired and not
      denied, the poll is not early, the user exists, and a second factor is neither set up nor required. */
  lemma GrantedExactly(row: Option<Row>, realmId: string, now: int, facts: UserFacts,
                       after: Option<Row>, answer: Result<string, GrantError>, user: string)
    requires (after, answer) == Poll(row, realmId, now, facts)
    ensures answer == Ok(user) <==>
            && ApprovedFor(row, realmId, now, user) && OnTime(row.value, now)
            && facts == UserFacts(true, false, false)
    ensures answer.Ok? ==> after == None
  {
  }

  /** Every refusal, and the row it leaves. */
  lemma RefusedExactly(row: Option<Row>, realmId: string, now: int, facts: UserFacts,
                       after: Option<Row>, answer: Result<string, GrantError>)
    requires (after, answer) == Poll(row, realmId, now, facts)
    ensures answer == Err(ExpiredToken) <==> row.Some? && row.value.realmId == realmId && row.value.expiresAt < now
    ensures answer == Err(AccessDenied) <==>
            row.Some? && row.value.realmId == realmId && now <= row.value.expiresAt && row.value.denied
    ensures answer == Err(AuthorizationPending) <==>
            || row == None || row.value.realmId != realmId
            || (now <= row.value.expiresAt && !row.value.denied && (!row.value.approved || row.value.userId == ""))
    ensures answer == Err(SlowDown) <==>
            row.Some? && ApprovedFor(row, realmId, now, row.value.userId) && !OnTime(row.value, now)
    ensures answer == Err(UserMissing) <==>
            row.Some? && ApprovedFor(row, realmId, now, row.value.userId) && OnTime(row.value, now) && !facts.userExists
    ensures answer == Err(MfaNeeded) <==>
            && row.Some? && ApprovedFor(row, realmId, now, row.value.userId) && OnTime(row.value, now)
            && facts.userExists && (facts.mfaEnabled || facts.mfaRequired)
    ensures answer.Err? ==> after == match answer.error
                                     case SlowDown => Some(row.value.(lastPolledAt := Some(now), interval := row.value.interval + 5))
                                     case UserMissing | MfaNeeded => Some(row.value.(lastPolledAt := Some(now)))
                                     case _ => row
    ensures answer.Err? ==> answer.error != RowGone && answer.error != SessionGone
  {
  }

  // ----- Interleaved polls, call by call -----------------------------------------------------------------

  /** The first call goes on exactly with a code that is approved, and on time unless it is told to slow down. */
  lemma ReadsExactly(s: State, s': State, id: RequestId, facts: UserFacts, found: set<SessionId>, sid: SessionId)
    requires id in s.procs && s.procs[id].phase.Received? && s' == Advance(s, id, facts, found, sid)
    ensures var p := s'.procs[id];
            var row := if p.code in s.rows then Some(s.rows[p.code]) else None;
            var goes := row.Some? && ApprovedFor(row, p.realmId, s.db.clock, row.value.userId);
            && (p.phase == Recording <==> goes && OnTime(row.value, s.db.clock))
            && (p.phase == Slowing <==> goes && !OnTime(row.value, s.db.clock))
            && (if goes then p.read == row && p.readAt == s.db.clock else p.phase.Failed? && p.read == s.procs[id].read)
            && p == s.procs[id].(phase := p.phase, read := p.read, readAt := p.readAt)
    ensures s' == s.(procs := s.procs[id := s'.procs[id]])
  {
  }

  /** Each query on the user is remembered as it was answered, and the request goes on exactly when the user exists
      and has no second factor set up or required. No table changes. */
  lemma AsksExactly(s: State, s': State, id: RequestId, facts: UserFacts, found: set<SessionId>, sid: SessionId)
    requires id in s.procs && s' == Advance(s, id, facts, found, sid)
    requires s.procs[id].phase.LookingUpUser? || s.procs[id].phase.CheckingMfa? || s.procs[id].phase.CheckingMfaPolicy?
    ensures var p, p' := s.procs[id], s'.procs[id];
            match p.phase
            case LookingUpUser =>
              && p' == p.(phase := p'.phase, told := p.told.(userExists := Some(facts.userExists)))
              && p'.phase == if facts.userExists then CheckingMfa else Failed(UserMissing)
            case CheckingMfa =>
              && p' == p.(phase := p'.phase, told := p.told.(mfaEnabled := Some(facts.mfaEnabled)))
              && p'.phase == if facts.mfaEnabled then Failed(MfaNeeded) else CheckingMfaPolicy
            case CheckingMfaPolicy =>
              && p' == p.(phase := p'.phase, told := p.told.(mfaRequired := Some(facts.mfaRequired)))
              && p'.phase == if facts.mfaRequired then Failed(MfaNeeded) else Deleting
            case _ => false
    ensures s' == s.(procs := s.procs[id := s'.procs[id]])
  {
  }

  /** The writes on the row: an absent row fails the request; otherwise the poll is recorded, with a longer interval
      when it was early, or the row deleted, and no other row changes. */
  lemma WritesExactly(s: State, s': State, id: RequestId, facts: UserFacts, found: set<SessionId>, sid: SessionId)
    requires id in s.procs && s.procs[id].read.Some? && s' == Advance(s, id, facts, found, sid)
    requires s.procs[id].phase.Slowing? || s.procs[id].phase.Recording? || s.procs[id].phase.Deleting?
    ensures var p, p', now := s.procs[id], s'.procs[id], s.db.clock;
            if p.code !in s.rows then p'.phase == Failed(RowGone) && s'.rows == s.rows
            else
              match p.phase
              case Slowing =>
                && p'.phase == Failed(SlowDown)
                && s'.rows == s.rows[p.code := s.rows[p.code].(lastPolledAt := Some(now), interval := p.read.value.interval + 5)]
              case Recording =>
                p'.phase == LookingUpUser && s'.rows == s.rows[p.code := s.rows[p.code].(lastPolledAt := Some(now))]
              case Deleting => p'.phase == FindingSessions && s'.rows == s.rows - {p.code}
              case _ => false
    ensures s'.db == s.db && s'.openedBy == s.openedBy
  {
  }

  /** The call that opens the session does so for the user who approved the code, the last one issues its token. */
  lemma OpensExactly(s: State, s': State, id: RequestId, facts: UserFacts, found: set<SessionId>, sid: SessionId)
    requires id in s.procs && s' == Advance(s, id, facts, found, sid)
    ensures s.procs[id].phase.Limited? && s.procs[id].read.Some? ==>
              && s'.db == s.db.(sessions := s.db.sessions[sid := s.procs[id].read.value.userId])
              && s'.openedBy == s.openedBy[sid := id] && s'.procs[id].session == Some(sid)
              && s'.procs[id].openedFor == Some(s.procs[id].read.value.userId)
    ensures s.procs[id].phase.SessionOpen? && s.procs[id].session.Some? ==>
              var own := s.procs[id].session.value;
              if own in s.db.sessions then
                s'.procs[id].phase == Completed && s'.db == s.db.(tokens := s.db.tokens + multiset{own})
              else s'.procs[id].phase == Failed(SessionGone) && s'.db == s.db
  {
  }

  /** The user's decision is written to the code while its row exists, and the clean-up deletes exactly the codes that
      have expired. */
  lemma DecisionsAndCleanup(s: State, s': State, e: Event)
    requires (e.Decide? || e.Cleanup?) && s' == Step(s, e)
    ensures e.Decide? ==>
              s'.rows == if e.code !in s.rows then s.rows
                         else s.rows[e.code := s.rows[e.code].(approved := e.approved, denied := e.denied, userId := e.userId)]
    ensures e.Cleanup? ==>
              && (forall c :: c in s'.rows <==> c in s.rows && s.db.clock <= s.rows[c].expiresAt)
              && (forall c :: c in s'.rows ==> s'.rows[c] == s.rows[c])
    ensures s' == s.(rows := s'.rows)
  {
  }

  // ----- Runs --------------------------------------------------------------------------------------------

  predicate PastQueries(p: Process)
  {
    p.phase.Deleting? || PastDelete(p.phase) || p.session.Some?
  }

  /** What a request has been told by the time it gets somewhere. */
  predicate Asked(p: Process)
  {
    && ((!p.phase.Received? && !p.phase.Slowing? && !p.phase.Failed?) || p.session.Some? ==>
          p.read.Some? && ApprovedFor(p.read, p.realmId, p.readAt, p.read.value.userId) && OnTime(p.read.value, p.readAt))
    && (p.phase.CheckingMfa? || p.phase.CheckingMfaPolicy? || PastQueries(p) ==> p.told.userExists == Some(true))
    && (p.phase.CheckingMfaPolicy? || PastQueries(p) ==> p.told.mfaEnabled == Some(false))
    && (PastQueries(p) ==> p.told.mfaRequired == Some(false))
    && (p.session.Some? ==> p.read.Some? && p.openedFor == Some(p.read.value.userId))
  }

  ghost predicate AllAsked(s: State)
  {
    forall id :: id in s.procs ==> Asked(s.procs[id])
  }

  lemma LocalCallAsks(db: Database, p: Process, facts: UserFacts, found: set<SessionId>)
    requires Asked(p) && LocalOk(p)
    ensures Asked(LocalCall(db, p, facts, found).1)
  {
  }

  lemma ReadAsks(s: State, p: Process)
    requires p.session.None? && LocalOk(p)
    ensures Asked(Read(s, p))
  {
  }

  lemma WriteAsks(s: State, s': State, id: RequestId, p: Process, row: Row, next: Phase)
    requires Asked(p) && s' == Write(s, id, p, row, next)
    requires next.Failed? || (p.phase.Recording? && next.LookingUpUser?)
    ensures id in s'.procs && s'.procs == s.procs[id := s'.procs[id]] && Asked(s'.procs[id])
  {
  }

  lemma DeleteAsks(s: State, s': State, id: RequestId, p: Process)
    requires Asked(p) && p.phase.Deleting? && s' == Delete(s, id, p)
    ensures id in s'.procs && s'.procs == s.procs[id := s'.procs[id]] && Asked(s'.procs[id])
  {
  }

  lemma OpenAsks(s: State, s': State, id: RequestId, p: Process, sid: SessionId)
    requires Asked(p) && p.phase.Limited? && p.read.Some? && s' == Open(s, id, p, p.read.value.userId, sid)
    ensures id in s'.procs && s'.procs == s.procs[id := s'.procs[id]] && Asked(s'.procs[id])
  {
  }

  lemma CallAsks(s: State, s': State, id: RequestId, facts: UserFacts, found: set<SessionId>, sid: SessionId)
    requires id in s.procs && Asked(s.procs[id]) && LocalOk(s.procs[id]) && s' == Advance(s, id, facts, found, sid)
    ensures id in s'.procs && s'.procs == s.procs[id := s'.procs[id]] && Asked(s'.procs[id])
  {
    var p := s.procs[id];
    match p.phase
    case Received => ReadAsks(s, p);
    case Slowing =>
      WriteAsks(s, s', id, p, Slowed(StoredRow(s, p), p.read.value, s.db.clock), Failed(SlowDown));
    case Recording => WriteAsks(s, s', id, p, Recorded(StoredRow(s, p), s.db.clock), LookingUpUser);
    case Deleting => DeleteAsks(s, s', id, p);
    case Limited => OpenAsks(s, s', id, p, sid);
    case _ => LocalCallAsks(s.db, p, facts, found);
  }

  lemma StepKeepsAsked(s: State, s': State, e: Event)
    requires Inv(s) && AllAsked(s) && Enabled(s, e) && s' == Step(s, e)
    ensures AllAsked(s')
  {
    if e.Call? {
      assert Asked(s.procs[e.id]) && LocalOk(s.procs[e.id]);
      CallAsks(s, s', e.id, e.facts, e.found, e.sid);
    }
    forall x | x in s'.procs ensures Asked(s'.procs[x]) {
      assert x in s.procs ==> Asked(s.procs[x]);
    }
  }

  lemma {:induction false} RunKeepsAsked(s: State, es: seq<Event>)
    requires Inv(s) && AllAsked(s) && ValidRun(s, es)
    ensures AllAsked(Run(s, es))
    decreases |es|
  {
    if es != [] {
      StepKeepsInv(s, Step(s, es[0]), es[0]);
      StepKeepsAsked(s, Step(s, es[0]), es[0]);
      RunKeepsAsked(Step(s, es[0]), es[1..]);
    }
  }

  /** Under any interleaving, a session opened with a device code belongs to a request that read the code approved
      for the session's user, unexpired and not early, and that was then told that the user exists and that a second
      factor is neither set up nor required. */
  lemma {:induction false} SessionsNeedNoSecondFactor(s0: State, es: seq<Event>, sid: SessionId)
    requires Initial(s0) && ValidRun(s0, es) && sid in Run(s0, es).openedBy
    ensures var s := Run(s0, es);
            && s.openedBy[sid] in s.procs
            && var p := s.procs[s.openedBy[sid]];
            && p.told == Told(Some(true), Some(false), Some(false))
            && p.openedFor.Some? && ApprovedFor(p.read, p.realmId, p.readAt, p.openedFor.value)
            && OnTime(p.read.value, p.readAt)
  {
    RunKeepsInv(s0, es);
    RunKeepsAsked(s0, es);
    var s := Run(s0, es);
    assert OpenedOk(s, sid) && Asked(s.procs[s.openedBy[sid]]);
  }
}
