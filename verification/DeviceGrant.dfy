/**
 * The device-code grant (RFC 8628), twice: as one request that runs alone, and as one step per
 * database call with any number of polls interleaved. The checks and row updates are shared.
 */
module DeviceGrant {
  import opened Wrappers

  type DeviceCode = string
  type RequestId = nat
  type SessionId = string

  datatype Row = Row(realmId: string, userId: string, approved: bool, denied: bool,
                     interval: int, lastPolledAt: Option<int>, expiresAt: int)

  datatype GrantError = AuthorizationPending | ExpiredToken | AccessDenied | SlowDown | UserMissing | MfaNeeded | RowGone | SessionGone

  /** What the user tables say when the grant asks. */
  datatype UserFacts = UserFacts(userExists: bool, mfaEnabled: bool, mfaRequired: bool)

  /** The checks on the row just read, before any write. */
  function CheckRow(row: Option<Row>, realmId: string, now: int): Option<GrantError>
  {
    if row.None? || row.value.realmId != realmId then Some(AuthorizationPending)
    else if row.value.expiresAt < now then Some(ExpiredToken)
    else if row.value.denied then Some(AccessDenied)
    else if !row.value.approved || row.value.userId == "" then Some(AuthorizationPending)
    else None
  }

  predicate TooEarly(row: Row, now: int)
  {
    row.lastPolledAt.Some? && now - row.lastPolledAt.value < row.interval * 1000
  }

  /** The write of an early poll. `read` is the copy the request checked, `row` the stored row. */
  function Slowed(row: Row, read: Row, now: int): Row
  {
    row.(lastPolledAt := Some(now), interval := read.interval + 5)
  }

  function Recorded(row: Row, now: int): Row
  {
    row.(lastPolledAt := Some(now))
  }

  function CheckUser(facts: UserFacts): Option<GrantError>
  {
    if !facts.userExists then Some(UserMissing)
    else if facts.mfaEnabled || facts.mfaRequired then Some(MfaNeeded)
    else None
  }

  // ----- One request alone -------------------------------------------------------------------------

  /** A poll at time `now` that no other request overlaps: the row afterwards and the answer, which is
      the approving user when tokens are issued. */
  function Poll(row: Option<Row>, realmId: string, now: int, facts: UserFacts): (Option<Row>, Result<string, GrantError>)
  {
    match CheckRow(row, realmId, now)
    case Some(error) => (row, Err(error))
    case None =>
      var read := row.value;
      if TooEarly(read, now) then (Some(Slowed(read, read, now)), Err(SlowDown))
      else
        match CheckUser(facts)
        case Some(error) => (Some(Recorded(read, now)), Err(error))
        case None => (None, Ok(read.userId))
  }

  class DeviceCodes {
    var rows: map<DeviceCode, Row>

    function Lookup(code: DeviceCode): Option<Row>
      reads this
    {
      if code in rows then Some(rows[code]) else None
    }

    method PollAlone(code: DeviceCode, realmId: string, now: int, facts: UserFacts) returns (reply: Result<string, GrantError>)
      modifies this
      ensures (Lookup(code), reply) == Poll(old(Lookup(code)), realmId, now, facts)
      ensures forall c :: c != code ==> Lookup(c) == old(Lookup(c))
    {
      if code !in rows || rows[code].realmId != realmId {
        return Err(AuthorizationPending);
      }
      var deviceCode := rows[code];
      if deviceCode.expiresAt < now {
        return Err(ExpiredToken);
      }
      if deviceCode.denied {
        return Err(AccessDenied);
      }
      if !deviceCode.approved || deviceCode.userId == "" {
        return Err(AuthorizationPending);
      }
      if deviceCode.lastPolledAt.Some? {
        var elapsed := now - deviceCode.lastPolledAt.value;
        if elapsed < deviceCode.interval * 1000 {
          rows := rows[code := deviceCode.(lastPolledAt := Some(now), interval := deviceCode.interval + 5)];
          return Err(SlowDown);
        }
      }
      rows := rows[code := deviceCode.(lastPolledAt := Some(now))];
      if !facts.userExists {
        return Err(UserMissing);
      }
      if facts.mfaEnabled || facts.mfaRequired {
        return Err(MfaNeeded);
      }
      rows := rows - {code};
      return Ok(deviceCode.userId);
    }
  }

  // ----- Serialised polls of an approved code --------------------------------------------------------

  datatype PollEvent = PollEvent(now: int, facts: UserFacts)

  function AfterPolls(row: Option<Row>, realmId: string, polls: seq<PollEvent>): Option<Row>
  {
    if polls == [] then row
    else Poll(AfterPolls(row, realmId, polls[..|polls| - 1]), realmId, polls[|polls| - 1].now, polls[|polls| - 1].facts).0
  }

  /** The answer to poll number `i`. */
  function Answer(row: Option<Row>, realmId: string, polls: seq<PollEvent>, i: nat): Result<string, GrantError>
    requires i < |polls|
  {
    Poll(AfterPolls(row, realmId, polls[..i]), realmId, polls[i].now, polls[i].facts).1
  }

  function EarlyPolls(row: Option<Row>, realmId: string, polls: seq<PollEvent>): nat
  {
    if polls == [] then 0
    else
      var n := |polls| - 1;
      var before := AfterPolls(row, realmId, polls[..n]);
      EarlyPolls(row, realmId, polls[..n])
      + (if Poll(before, realmId, polls[n].now, polls[n].facts).1 == Err(SlowDown) then 1 else 0)
  }

  /** Approved, not denied, and unexpired throughout the polls. */
  predicate Live(row: Row, realmId: string, polls: seq<PollEvent>)
  {
    && row.realmId == realmId && row.approved && !row.denied && row.userId != ""
    && forall i :: 0 <= i < |polls| ==> polls[i].now <= row.expiresAt
  }

  /** While an approved code survives, its interval is the initial one plus five per early poll, and
      the last recorded poll is the previous one. */
  lemma {:induction false} IntervalCountsEarlyPolls(row: Row, realmId: string, polls: seq<PollEvent>)
    requires Live(row, realmId, polls)
    ensures var after := AfterPolls(Some(row), realmId, polls);
            after.Some? ==>
              after.value == row.(interval := row.interval + 5 * EarlyPolls(Some(row), realmId, polls),
                                  lastPolledAt := if polls == [] then row.lastPolledAt else Some(polls[|polls| - 1].now))
    decreases |polls|
  {
    if polls != [] {
      var n := |polls| - 1;
      var before := polls[..n];
      assert forall i :: 0 <= i < n ==> before[i] == polls[i];
      IntervalCountsEarlyPolls(row, realmId, before);
      if AfterPolls(Some(row), realmId, before).None? {
        assert AfterPolls(Some(row), realmId, polls).None?;
      }
    }
  }

  /** The poll before poll number `i`, if the code was polled before. */
  function PolledBefore(row: Row, polls: seq<PollEvent>, i: nat): Option<int>
    requires i <= |polls|
  {
    if i == 0 then row.lastPolledAt else Some(polls[i - 1].now)
  }

  /** A poll that reaches the code is answered `slow_down` exactly when there was a poll before, and it comes
      less than the current interval after it: the initial interval plus five seconds per early poll so far. */
  lemma {:induction false} SlowDownExactlyWhenEarly(row: Row, realmId: string, polls: seq<PollEvent>, i: nat)
    requires Live(row, realmId, polls) && i < |polls|
    requires AfterPolls(Some(row), realmId, polls[..i]).Some?
    ensures Answer(Some(row), realmId, polls, i) == Err(SlowDown) <==>
            var last := PolledBefore(row, polls, i);
            last.Some? && polls[i].now - last.value < (row.interval + 5 * EarlyPolls(Some(row), realmId, polls[..i])) * 1000
  {
    var before := polls[..i];
    assert forall j :: 0 <= j < i ==> before[j] == polls[j];
    IntervalCountsEarlyPolls(row, realmId, before);
    assert i > 0 ==> before[|before| - 1] == polls[i - 1];
  }

  /** Not approved, not denied, and unexpired throughout the polls. */
  predicate Pending(row: Row, realmId: string, polls: seq<PollEvent>)
  {
    && row.realmId == realmId && !row.denied && !row.approved
    && forall i :: 0 <= i < |polls| ==> polls[i].now <= row.expiresAt
  }

  /** However often and fast a code is polled before anybody approves it, every answer is
      `authorization_pending` and the row stays as it is: a first poll after approval is never early. */
  lemma {:induction false} PendingPollsLeaveNoTrace(row: Row, realmId: string, polls: seq<PollEvent>)
    requires Pending(row, realmId, polls)
    ensures AfterPolls(Some(row), realmId, polls) == Some(row)
    ensures forall i :: 0 <= i < |polls| ==> Answer(Some(row), realmId, polls, i) == Err(AuthorizationPending)
    decreases |polls|
  {
    if polls != [] {
      var n := |polls| - 1;
      var before := polls[..n];
      PendingPollsLeaveNoTrace(row, realmId, before);
      PendingPollsAreNotThrottled(row, realmId, polls[n].now, polls[n].facts);
      forall i | 0 <= i < n ensures Answer(Some(row), realmId, polls, i) == Err(AuthorizationPending) {
        assert before[..i] == polls[..i] && before[i] == polls[i];
        assert Answer(Some(row), realmId, before, i) == Err(AuthorizationPending);
      }
    }
  }

  /** One such poll. */
  lemma PendingPollsAreNotThrottled(row: Row, realmId: string, now: int, facts: UserFacts)
    requires row.realmId == realmId && !row.denied && !row.approved && now <= row.expiresAt
    ensures Poll(Some(row), realmId, now, facts) == (Some(row), Err(AuthorizationPending))
  {
  }

  /** Serialised polls issue tokens at most once: a granted poll removes the code. */
  lemma {:induction false} GrantEndsTheCode(row: Option<Row>, realmId: string, polls: seq<PollEvent>, i: nat, j: nat)
    requires i < j < |polls| && Answer(row, realmId, polls, i).Ok?
    ensures AfterPolls(row, realmId, polls[..j]).None?
    ensures Answer(row, realmId, polls, j) == Err(AuthorizationPending)
    decreases j
  {
    if j == i + 1 {
      assert polls[..j][..i] == polls[..i];
    } else {
      GrantEndsTheCode(row, realmId, polls, i, j - 1);
      assert polls[..j][..j - 1] == polls[..j - 1];
    }
  }

  // ----- Interleaved polls ---------------------------------------------------------------------------

  datatype Phase =
    | Received | Slowing | Recording | LookingUpUser | CheckingMfa | CheckingMfaPolicy | Deleting
    | FindingSessions | Revoking(evict: set<SessionId>) | Dropping(evict: set<SessionId>)
    | Limited | SessionOpen | Completed | Failed(error: GrantError)

  /** What the queries on the user answered, as far as they were asked. */
  datatype Told = Told(userExists: Option<bool>, mfaEnabled: Option<bool>, mfaRequired: Option<bool>)

  /** A request with its local variables: the row it read and the session it created. History variables: when it
      read the row, what it was told about the user, the user it opened the session for. */
  datatype Process = Process(code: DeviceCode, realmId: string, read: Option<Row>, session: Option<SessionId>, phase: Phase,
                             readAt: int, told: Told, openedFor: Option<string>)

  datatype Database = Database(clock: int, sessions: map<SessionId, string>, revoked: set<SessionId>, tokens: multiset<SessionId>)

  /** `minted`, `deletedBy` and `openedBy` are history variables. */
  datatype State = State(db: Database, rows: map<DeviceCode, Row>, procs: map<RequestId, Process>,
                         minted: set<DeviceCode>, deletedBy: map<DeviceCode, RequestId>, openedBy: map<SessionId, RequestId>)

  function Read(s: State, p: Process): Process
  {
    var found := if p.code in s.rows then Some(s.rows[p.code]) else None;
    match CheckRow(found, p.realmId, s.db.clock)
    case Some(error) => p.(phase := Failed(error))
    case None => p.(read := found, readAt := s.db.clock, phase := if TooEarly(found.value, s.db.clock) then Slowing else Recording)
  }

  function Fail(s: State, id: RequestId, p: Process, error: GrantError): State
  {
    s.(procs := s.procs[id := p.(phase := Failed(error))])
  }

  /** `update` and `delete` of an absent row throw. */
  function Write(s: State, id: RequestId, p: Process, row: Row, next: Phase): State
  {
    if p.code !in s.rows then Fail(s, id, p, RowGone)
    else s.(rows := s.rows[p.code := row], procs := s.procs[id := p.(phase := next)])
  }

  function Delete(s: State, id: RequestId, p: Process): State
  {
    if p.code !in s.rows then Fail(s, id, p, RowGone)
    else s.(rows := s.rows - {p.code}, deletedBy := s.deletedBy[p.code := id],
            procs := s.procs[id := p.(phase := FindingSessions)])
  }

  function Open(s: State, id: RequestId, p: Process, user: string, sid: SessionId): State
  {
    s.(db := s.db.(sessions := s.db.sessions[sid := user]), openedBy := s.openedBy[sid := id],
       procs := s.procs[id := p.(session := Some(sid), openedFor := Some(user), phase := SessionOpen)])
  }

  /** The calls on users, sessions and refresh tokens. */
  function LocalCall(db: Database, p: Process, facts: UserFacts, found: set<SessionId>): (Database, Process)
  {
    match (p.phase, p.session)
    case (LookingUpUser, _) =>
      (db, p.(told := p.told.(userExists := Some(facts.userExists)),
              phase := if facts.userExists then CheckingMfa else Failed(UserMissing)))
    case (CheckingMfa, _) =>
      (db, p.(told := p.told.(mfaEnabled := Some(facts.mfaEnabled)),
              phase := if facts.mfaEnabled then Failed(MfaNeeded) else CheckingMfaPolicy))
    case (CheckingMfaPolicy, _) =>
      (db, p.(told := p.told.(mfaRequired := Some(facts.mfaRequired)),
              phase := if facts.mfaRequired then Failed(MfaNeeded) else Deleting))
    case (FindingSessions, _) => (db, p.(phase := Revoking(found)))
    case (Revoking(evict), _) => (db.(revoked := db.revoked + evict), p.(phase := Dropping(evict)))
    case (Dropping(evict), _) => (db.(sessions := db.sessions - evict), p.(phase := Limited))
    case (SessionOpen, Some(own)) =>
      if own !in db.sessions then (db, p.(phase := Failed(SessionGone)))
      else (db.(tokens := db.tokens + multiset{own}), p.(phase := Completed))
    case _ => (db, p)
  }

  function StoredRow(s: State, p: Process): Row
    requires p.read.Some?
  {
    if p.code in s.rows then s.rows[p.code] else p.read.value
  }

  /** The next database call of request `id`. `facts` answers the user queries, `found` the
      active-session query, `sid` is drawn for a new session. */
  function Advance(s: State, id: RequestId, facts: UserFacts, found: set<SessionId>, sid: SessionId): State
    requires id in s.procs
  {
    var p := s.procs[id];
    if p.phase.Received? then s.(procs := s.procs[id := Read(s, p)])
    else if p.phase.Slowing? && p.read.Some? then
      Write(s, id, p, Slowed(StoredRow(s, p), p.read.value, s.db.clock), Failed(SlowDown))
    else if p.phase.Recording? && p.read.Some? then
      Write(s, id, p, Recorded(StoredRow(s, p), s.db.clock), LookingUpUser)
    else if p.phase.Deleting? then Delete(s, id, p)
    else if p.phase.Limited? && p.read.Some? then Open(s, id, p, p.read.value.userId, sid)
    else
      var r := LocalCall(s.db, p, facts, found);
      s.(db := r.0, procs := s.procs[id := r.1])
  }

  datatype Event =
    | Authorize(code: DeviceCode, row: Row)
    | Decide(code: DeviceCode, approved: bool, denied: bool, userId: string)
    | Arrive(id: RequestId, code: DeviceCode, realmId: string)
    | Call(id: RequestId, facts: UserFacts, found: set<SessionId>, sid: SessionId)
    | Cleanup
    | Outside(db: Database)

  predicate Enabled(s: State, e: Event)
  {
    match e
    case Authorize(code, _) => code !in s.minted
    case Arrive(id, _, _) => id !in s.procs
    case Call(id, _, _, sid) => id in s.procs && sid !in s.openedBy
    case _ => true
  }

  function Step(s: State, e: Event): State
    requires Enabled(s, e)
  {
    match e
    case Authorize(code, row) => s.(rows := s.rows[code := row], minted := s.minted + {code})
    case Decide(code, approved, denied, userId) =>
      if code in s.rows then
        s.(rows := s.rows[code := s.rows[code].(approved := approved, denied := denied, userId := userId)])
      else s
    case Arrive(id, code, realmId) => s.(procs := s.procs[id := Process(code, realmId, None, None, Received, 0, Told(None, None, None), None)])
    case Call(id, facts, found, sid) => Advance(s, id, facts, found, sid)
    case Cleanup => s.(rows := map c | c in s.rows && s.rows[c].expiresAt >= s.db.clock :: s.rows[c])
    case Outside(db) => s.(db := db)
  }

  predicate ValidRun(s: State, es: seq<Event>)
    decreases |es|
  {
    es == [] || (Enabled(s, es[0]) && ValidRun(Step(s, es[0]), es[1..]))
  }

  function Run(s: State, es: seq<Event>): State
    requires ValidRun(s, es)
    decreases |es|
  {
    if es == [] then s else Run(Step(s, es[0]), es[1..])
  }

  predicate Initial(s: State)
  {
    s.rows == map[] && s.procs == map[] && s.minted == {} && s.deletedBy == map[] && s.openedBy == map[]
  }

  // ----- The invariant -------------------------------------------------------------------------------

  predicate PastDelete(p: Phase)
  {
    p.FindingSessions? || p.Revoking? || p.Dropping? || p.Limited? || p.SessionOpen? || p.Completed?
  }

  /** The row a request acts on was approved by a user when the request read it. */
  predicate LocalOk(p: Process)
  {
    && (p.read.Some? ==> p.read.value.approved && !p.read.value.denied && p.read.value.userId != "" && p.read.value.realmId == p.realmId)
    && (!p.phase.Received? && !p.phase.Failed? ==> p.read.Some?)
    && (p.session.Some? ==> p.read.Some?)
    && (!p.phase.SessionOpen? && !p.phase.Completed? && !p.phase.Failed? ==> p.session.None?)
  }

  predicate ClaimOk(s: State, id: RequestId)
    requires id in s.procs
  {
    var p := s.procs[id];
    PastDelete(p.phase) || p.session.Some? ==> p.code in s.deletedBy && s.deletedBy[p.code] == id
  }

  predicate OpenedOk(s: State, sid: SessionId)
    requires sid in s.openedBy
  {
    s.openedBy[sid] in s.procs && s.procs[s.openedBy[sid]].session == Some(sid)
  }

  ghost predicate Inv(s: State)
  {
    && (forall c :: c in s.rows ==> c in s.minted && c !in s.deletedBy)
    && (forall c :: c in s.deletedBy ==> c in s.minted)
    && (forall id :: id in s.procs ==> LocalOk(s.procs[id]))
    && (forall id :: id in s.procs ==> ClaimOk(s, id))
    && (forall sid :: sid in s.openedBy ==> OpenedOk(s, sid))
  }

  /** A call that changes at most the caller's process, existing rows and the session tables. */
  lemma PutKeepsInv(s: State, s': State, id: RequestId, p: Process)
    requires Inv(s) && id in s.procs && s' == s.(db := s'.db, rows := s'.rows, procs := s.procs[id := p])
    requires s'.rows.Keys <= s.rows.Keys
    requires p.code == s.procs[id].code && p.session == s.procs[id].session && LocalOk(p)
    requires PastDelete(p.phase) ==> PastDelete(s.procs[id].phase)
    ensures Inv(s')
  {
    forall x | x in s'.procs ensures ClaimOk(s', x) {
      assert ClaimOk(s, x);
    }
    forall x | x in s'.openedBy ensures OpenedOk(s', x) {
      assert OpenedOk(s, x);
    }
  }

  lemma WriteKeepsInv(s: State, s': State, id: RequestId, p: Process, row: Row, next: Phase)
    requires Inv(s) && id in s.procs && p == s.procs[id] && p.read.Some? && p.session.None?
    requires (next.Failed? || next.LookingUpUser?) && s' == Write(s, id, p, row, next)
    ensures Inv(s')
  {
    assert LocalOk(p);
    PutKeepsInv(s, s', id, s'.procs[id]);
  }

  lemma DeleteKeepsInv(s: State, s': State, id: RequestId, p: Process)
    requires Inv(s) && id in s.procs && p == s.procs[id] && p.phase.Deleting? && p.code in s.rows && s' == Delete(s, id, p)
    ensures Inv(s')
  {
    assert LocalOk(p);
    forall x | x in s'.procs ensures ClaimOk(s', x) && LocalOk(s'.procs[x]) {
      assert ClaimOk(s, x) && LocalOk(s.procs[x]);
    }
    forall x | x in s'.openedBy ensures OpenedOk(s', x) {
      assert OpenedOk(s, x);
    }
  }

  lemma OpenKeepsInv(s: State, s': State, id: RequestId, p: Process, user: string, sid: SessionId)
    requires Inv(s) && id in s.procs && p == s.procs[id] && p.phase.Limited? && sid !in s.openedBy
    requires s' == Open(s, id, p, user, sid)
    ensures Inv(s')
  {
    assert LocalOk(p) && ClaimOk(s, id);
    forall x | x in s'.procs ensures ClaimOk(s', x) && LocalOk(s'.procs[x]) {
      assert ClaimOk(s, x) && LocalOk(s.procs[x]);
    }
    forall x | x in s'.openedBy ensures OpenedOk(s', x) {
      if x != sid { assert OpenedOk(s, x); }
    }
  }

  lemma CallKeepsInv(s: State, s': State, id: RequestId, facts: UserFacts, found: set<SessionId>, sid: SessionId)
    requires Inv(s) && id in s.procs && sid !in s.openedBy && s' == Advance(s, id, facts, found, sid)
    ensures Inv(s')
  {
    var p := s.procs[id];
    assert LocalOk(p);
    if p.phase.Deleting? && p.code in s.rows {
      DeleteKeepsInv(s, s', id, p);
    } else if p.phase.Limited? && p.read.Some? {
      OpenKeepsInv(s, s', id, p, p.read.value.userId, sid);
    } else if p.phase.Received? {
      PutKeepsInv(s, s', id, Read(s, p));
    } else if p.phase.Slowing? {
      WriteKeepsInv(s, s', id, p, Slowed(StoredRow(s, p), p.read.value, s.db.clock), Failed(SlowDown));
    } else if p.phase.Recording? {
      WriteKeepsInv(s, s', id, p, Recorded(StoredRow(s, p), s.db.clock), LookingUpUser);
    } else if p.phase.Deleting? {
      PutKeepsInv(s, s', id, p.(phase := Failed(RowGone)));
    } else {
      LocalCallIsOk(s.db, p, facts, found);
      PutKeepsInv(s, s', id, LocalCall(s.db, p, facts, found).1);
    }
  }

  lemma LocalCallIsOk(db: Database, p: Process, facts: UserFacts, found: set<SessionId>)
    requires LocalOk(p)
    ensures var p' := LocalCall(db, p, facts, found).1;
            && LocalOk(p') && p'.code == p.code && p'.session == p.session
            && (PastDelete(p'.phase) ==> PastDelete(p.phase))
  {
  }

  lemma StepKeepsInv(s: State, s': State, e: Event)
    requires Inv(s) && Enabled(s, e) && s' == Step(s, e)
    ensures Inv(s')
  {
    match e
    case Call(id, facts, found, sid) => CallKeepsInv(s, s', id, facts, found, sid);
    case _ =>
      forall x | x in s'.procs ensures ClaimOk(s', x) && LocalOk(s'.procs[x]) {
        assert x in s.procs ==> ClaimOk(s, x) && LocalOk(s.procs[x]);
      }
      forall x | x in s'.openedBy ensures OpenedOk(s', x) {
        assert OpenedOk(s, x);
      }
  }

  lemma {:induction false} RunKeepsInv(s: State, es: seq<Event>)
    requires Inv(s) && ValidRun(s, es)
    ensures Inv(Run(s, es))
    decreases |es|
  {
    if es != [] {
      StepKeepsInv(s, Step(s, es[0]), es[0]);
      RunKeepsInv(Step(s, es[0]), es[1..]);
    }
  }

  /** Under any interleaving of polls, a device code yields at most one session, opened by a request
      that had read the code approved by a user, not denied, in its realm. */
  lemma {:induction false} DeviceCodeYieldsOneSession(s0: State, es: seq<Event>)
    requires Initial(s0) && ValidRun(s0, es)
    ensures var s := Run(s0, es);
            && (forall a | a in s.openedBy :: s.openedBy[a] in s.procs)
            && (forall a, b | a in s.openedBy && b in s.openedBy ::
                  s.procs[s.openedBy[a]].code == s.procs[s.openedBy[b]].code ==> a == b)
            && (forall a | a in s.openedBy ::
                  var p := s.procs[s.openedBy[a]];
                  p.read.Some? && p.read.value.approved && !p.read.value.denied && p.read.value.realmId == p.realmId)
  {
    var s := Run(s0, es);
    RunKeepsInv(s0, es);
    forall a | a in s.openedBy
      ensures s.openedBy[a] in s.procs
      ensures var p := s.procs[s.openedBy[a]];
              && p.session == Some(a) && LocalOk(p) && p.read.Some?
              && p.code in s.deletedBy && s.deletedBy[p.code] == s.openedBy[a]
    {
      assert OpenedOk(s, a);
      assert LocalOk(s.procs[s.openedBy[a]]) && ClaimOk(s, s.openedBy[a]);
    }
  }
}
