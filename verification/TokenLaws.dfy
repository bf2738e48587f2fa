/**
 * What each operation leaves in the session and token tables, row by row, and for how long the refresh token it
 * hands out can be used.
 */
module TokenLaws {
  import opened Wrappers
  import opened SessionTokens
  import opened SessionTokenSafety
  import opened SessionLimit

  // ----- Scopes ----------------------------------------------------------------------------------------

  lemma {:induction false} SupportedKeepsCounts(scope: seq<Scope>, x: Scope)
    ensures multiset(Supported(scope))[x] == if IsSupported(x) then multiset(scope)[x] else 0
  {
    if scope != [] {
      assert scope == [scope[0]] + scope[1..];
      SupportedKeepsCounts(scope[1..], x);
    }
  }

  /** The recognised part of the request in its order, or `openid` alone. */
  predicate Grants(granted: seq<Scope>, requested: seq<Scope>)
  {
    granted == if Supported(requested) == [] then [OpenId] else Supported(requested)
  }

  // ----- The rows of a grant -----------------------------------------------------------------------------

  /** `token` is a fresh row of session `sid`, bound to the client, running for `lifespan` seconds from `now`. */
  predicate IsFresh(token: Token, sid: SessionId, client: string, requested: seq<Scope>, now: int, lifespan: int)
  {
    && token.sessionId == sid && token.clientId == Some(client) && Grants(token.scope, requested)
    && !token.revoked && !token.isOffline && token.expiresAt == now + lifespan * 1000
  }

  /** The authentication level each kind of grant puts on the session row. */
  predicate Records(acr: Option<Acr>, kind: GrantKind)
  {
    match kind
    case PasswordGrant => acr == Some(PasswordAcr)
    case MfaOtpGrant => acr == Some(MfaAcr)
    case CodeGrant(Some(satisfied)) => acr == Some(satisfied)
    case CodeGrant(None) => acr == Some(PasswordAcr)
    case DeviceGrant => acr == None
  }

  /** `s'` differs from `s` in the new rows `sid` and `hash` and in sessions of `gone` deleted with their tokens. */
  ghost predicate AddsRows(s: State, s': State, sid: SessionId, hash: Hash, gone: set<SessionId>)
  {
    && s'.clock == s.clock && s'.users == s.users
    && (forall x :: x != sid ==> (x in s'.sessions <==> x in s.sessions && x !in gone))
    && (forall x :: x != sid && x in s'.sessions ==> s'.sessions[x] == s.sessions[x])
    && (forall h :: h != hash ==> (h in s'.tokens <==> h in s.tokens && s.tokens[h].sessionId !in gone))
    && (forall h :: h != hash && h in s'.tokens ==> s'.tokens[h] == s.tokens[h])
  }

  /** A grant that opens a session: the session row carries the user, the level, its creation and its expiry, the
      token row session, client, scope and expiry; the oldest sessions over the limit go, and nothing else changes. */
  lemma GrantWritesItsRows(s: State, s': State, e: Event)
    requires Inv(s) && Enabled(s, e) && e.Grant? && s' == Step(s, e)
    ensures e.sid in s'.sessions && e.hash in s'.tokens
    ensures var session := s'.sessions[e.sid];
            && session.userId == e.user && Records(session.satisfiedAcr, e.kind)
            && session.createdAt == s.clock && session.expiresAt == s.clock + e.realm.refreshTokenLifespan * 1000
    ensures IsFresh(s'.tokens[e.hash], e.sid, e.client, e.scope, s.clock, e.realm.refreshTokenLifespan)
    ensures AddsRows(s, s', e.sid, e.hash, Elements(e.order[..EvictionCount(|e.order|, e.realm.maxSessionsPerUser)]))
  {
    var s1 := EnforceSessionLimit(s, e.realm, e.order);
    EnforceDeletesThePrefix(s, e.realm, e.order);
    GrantAfterLimit(s1, s', e);
  }

  /** The part after the session limit. */
  lemma GrantAfterLimit(s1: State, s': State, e: Event)
    requires e.Grant? && s' == OpenSession(s1, e.kind, e.realm, e.user, e.client, e.scope, e.sid, e.hash).state
    ensures s'.clock == s1.clock && s'.users == s1.users
    ensures e.sid in s'.sessions && s'.sessions == s1.sessions[e.sid := s'.sessions[e.sid]]
    ensures e.hash in s'.tokens && s'.tokens == s1.tokens[e.hash := s'.tokens[e.hash]]
    ensures var session := s'.sessions[e.sid];
            && session.userId == e.user && Records(session.satisfiedAcr, e.kind)
            && session.createdAt == s1.clock && session.expiresAt == s1.clock + e.realm.refreshTokenLifespan * 1000
    ensures IsFresh(s'.tokens[e.hash], e.sid, e.client, e.scope, s1.clock, e.realm.refreshTokenLifespan)
  {
  }

  /** The user's unexpired session rows. */
  function Unexpired(s: State, user: UserId): set<SessionId>
  {
    set x | x in s.sessions && s.sessions[x].userId == user && s.sessions[x].expiresAt > s.clock
  }

  lemma ActiveIsUnexpired(s: State, realm: Realm, user: UserId)
    requires user in s.users && s.users[user] == realm.id
    ensures Active(s, realm, user) == Unexpired(s, user)
  {
  }

  lemma GoneAreOldest(s: State, s': State, e: Event) returns (gone: set<SessionId>)
    requires Inv(s) && Enabled(s, e) && e.Grant? && s' == Step(s, e)
    ensures gone == s.sessions.Keys - s'.sessions.Keys
    ensures Oldest(s, gone, Active(s, e.realm, e.user))
    ensures |gone| == EvictionCount(|Active(s, e.realm, e.user)|, e.realm.maxSessionsPerUser)
  {
    gone := Elements(e.order[..EvictionCount(|e.order|, e.realm.maxSessionsPerUser)]);
    LimitEvictsTheOldest(s, e.realm, e.user, e.order);
    GrantWritesItsRows(s, s', e);
    GoneAre(s, s', e.sid, e.hash, gone);
  }

  lemma GoneAre(s: State, s': State, sid: SessionId, hash: Hash, gone: set<SessionId>)
    requires AddsRows(s, s', sid, hash, gone) && sid !in s.sessions && gone <= s.sessions.Keys
    ensures gone == s.sessions.Keys - s'.sessions.Keys
  {
  }

  /** With a limit, a grant to a user of the realm leaves at most that many unexpired sessions of the user; what it
      deletes are unexpired sessions of that user, none created after one of them that stays. */
  lemma {:induction false} GrantKeepsTheNewest(s: State, s': State, e: Event)
    requires Inv(s) && Enabled(s, e) && e.Grant? && s' == Step(s, e)
    requires s.users[e.user] == e.realm.id && e.realm.maxSessionsPerUser > 0
    ensures |Unexpired(s', e.user)| <= e.realm.maxSessionsPerUser
    ensures var n, max := |Unexpired(s, e.user)|, e.realm.maxSessionsPerUser;
            |s.sessions.Keys - s'.sessions.Keys| == if n < max then 0 else n - max + 1
    ensures forall x :: x in s.sessions && x !in s'.sessions ==>
              && x in Unexpired(s, e.user)
              && forall y :: y in s'.sessions && y in Unexpired(s, e.user) ==> s.sessions[x].createdAt <= s.sessions[y].createdAt
  {
    var gone := GoneAreOldest(s, s', e);
    GrantRespectsLimit(s, e, e.realm);
    ActiveIsUnexpired(s, e.realm, e.user);
    ActiveIsUnexpired(s', e.realm, e.user);
  }

  /** A refresh revokes the row presented and adds one of the same session; an empty request asks for the old scope. */
  lemma RefreshWritesItsRows(s: State, s': State, e: Event)
    requires Inv(s) && Enabled(s, e) && Rotates(s, e) && s' == Step(s, e)
    ensures e.presented in s.tokens && e.hash in s'.tokens && e.hash != e.presented
    ensures var stored := s.tokens[e.presented];
            && IsFresh(s'.tokens[e.hash], stored.sessionId, e.client, if e.scope == [] then stored.scope else e.scope,
                       s.clock, e.realm.refreshTokenLifespan)
            && s'.tokens == s.tokens[e.presented := stored.(revoked := true)][e.hash := s'.tokens[e.hash]]
    ensures s'.sessions == s.sessions && s'.clock == s.clock && s'.users == s.users
  {
  }

  /** Every answer of a refresh: the first reason to refuse it, or the session's client and level. */
  lemma RefreshAnswers(s: State, e: Event, reply: Result<Issue, GrantError>)
    requires Inv(s) && e.Refresh?
    requires reply == RefreshGrant(s, e.realm, e.client, e.presented, e.scope, e.hash).reply
    ensures reply == Err(InvalidToken) <==>
            e.presented !in s.tokens || s.tokens[e.presented].revoked || s.tokens[e.presented].expiresAt < s.clock
    ensures reply == Err(UnboundToken) <==> reply != Err(InvalidToken) && s.tokens[e.presented].clientId == None
    ensures reply == Err(WrongClient) <==>
            reply != Err(InvalidToken) && s.tokens[e.presented].clientId.Some? && s.tokens[e.presented].clientId != Some(e.client)
    ensures reply != Err(MissingSession)
    ensures reply.Ok? ==>
              var sid := s.tokens[e.presented].sessionId;
              reply.value == Issue(sid, Some(e.client), s.sessions[sid].satisfiedAcr.GetOr(PasswordAcr))
  {
  }

  /** The sessions the trim of a service account drops. */
  function Trimmed(order: seq<SessionId>): set<SessionId>
  {
    if |order| <= SERVICE_ACCOUNT_SESSION_LIMIT then {} else Elements(order[SERVICE_ACCOUNT_SESSION_LIMIT..])
  }

  lemma TrimDrops(s: State, order: seq<SessionId>)
    ensures TrimServiceSessions(s, order) == DeleteSessions(s, Trimmed(order))
  {
    if Trimmed(order) == {} {
      assert s.sessions - {} == s.sessions && TokensOutside(s.tokens, {}) == s.tokens;
    }
    EvictIsDelete(s, Trimmed(order));
  }

  lemma ServiceAfterTrim(s1: State, s2: State, s': State, e: Event, gone: set<SessionId>)
    requires e.ServiceGrant? && s' == IssueTokens(s2, e.realm, Some(e.client), e.sid, e.scope, None, e.hash).state
    requires s2 == DeleteSessions(s1, gone) && e.sid in s1.sessions && e.hash !in s1.tokens
    ensures e.sid in s'.sessions <==> e.sid !in gone
    ensures s'.clock == s1.clock && s'.users == s1.users && s'.sessions == s1.sessions - gone
    ensures e.hash in s'.tokens <==> e.sid in s'.sessions
    ensures if e.hash in s'.tokens then s'.tokens == TokensOutside(s1.tokens, gone)[e.hash := s'.tokens[e.hash]]
            else s'.tokens == TokensOutside(s1.tokens, gone)
    ensures e.sid in s'.sessions ==>
              IsFresh(s'.tokens[e.hash], e.sid, e.client, e.scope, s1.clock, e.realm.refreshTokenLifespan)
  {
  }

  /** A service-account grant: its session row is there unless the trim took it, in which case no token is issued. */
  lemma ServiceGrantWritesItsRows(s: State, s': State, e: Event, gone: set<SessionId>)
    requires Inv(s) && Enabled(s, e) && e.ServiceGrant? && s' == Step(s, e) && gone == Trimmed(e.order)
    ensures e.sid in s'.sessions <==> e.sid !in gone
    ensures e.hash in s'.tokens <==> e.sid in s'.sessions
    ensures e.sid in s'.sessions ==>
              s'.sessions[e.sid] == Session(e.user, None, s.clock, s.clock + e.realm.refreshTokenLifespan * 1000)
    ensures e.sid in s'.sessions ==>
              IsFresh(s'.tokens[e.hash], e.sid, e.client, e.scope, s.clock, e.realm.refreshTokenLifespan)
    ensures AddsRows(s, s', e.sid, e.hash, gone)
  {
    var s1 := ServiceSession(s, e.realm, e.user, e.sid);
    TrimDrops(s1, e.order);
    ServiceAfterTrim(s1, DeleteSessions(s1, gone), s', e, gone);
    ServiceFrame(s, s', e.sid, e.hash, s1.sessions[e.sid], gone);
  }

  lemma ServiceFrame(s: State, s': State, sid: SessionId, hash: Hash, session: Session, gone: set<SessionId>)
    requires Inv(s) && sid !in s.created && hash !in s.issued
    requires s'.clock == s.clock && s'.users == s.users && s'.sessions == s.sessions[sid := session] - gone
    requires hash in s'.tokens ==> s'.tokens == TokensOutside(s.tokens, gone)[hash := s'.tokens[hash]]
    requires hash !in s'.tokens ==> s'.tokens == TokensOutside(s.tokens, gone)
    ensures AddsRows(s, s', sid, hash, gone)
  {
  }

  /** Impersonation: both rows run for the impersonation's duration, and the token is bound to no client. */
  lemma ImpersonationWritesItsRows(s: State, s': State, e: Event)
    requires Inv(s) && Enabled(s, e) && e.Impersonation? && s' == Step(s, e)
    ensures e.sid in s'.sessions && s'.sessions[e.sid] == Session(e.user, None, s.clock, s.clock + e.duration * 1000)
    ensures e.hash in s'.tokens
         && s'.tokens[e.hash] == Token(e.sid, None, [OpenId], false, false, s.clock + e.duration * 1000)
    ensures AddsRows(s, s', e.sid, e.hash, {})
  {
  }

  // ----- What ends sessions and tokens ---------------------------------------------------------------------

  /** `s'` is `s` without the sessions of `gone` and their tokens. */
  ghost predicate Drops(s: State, s': State, gone: set<SessionId>)
  {
    && s'.clock == s.clock && s'.users == s.users && s'.sessions == s.sessions - gone
    && (forall h :: h in s'.tokens <==> h in s.tokens && s.tokens[h].sessionId !in gone)
    && (forall h :: h in s'.tokens ==> s'.tokens[h] == s.tokens[h])
  }

  lemma EndingDropsTheSession(s: State, s': State, e: Event)
    requires (e.RevokeSession? || e.EndSession?) && s' == Step(s, e)
    ensures Drops(s, s', {e.sid})
  {
    if e.EndSession? {
      EvictIsDelete(s, {e.sid});
    }
  }

  lemma RevokingRevokesOne(s: State, s': State, h: Hash)
    requires s' == Step(s, RevokeToken(h))
    ensures s' == s.(tokens := s'.tokens) && s'.tokens.Keys == s.tokens.Keys
    ensures forall x :: x in s.tokens ==>
              s'.tokens[x] == if x == h then s.tokens[x].(revoked := true) else s.tokens[x]
  {
  }

  /** The hourly clean-up keeps exactly the rows that have not expired, of sessions that have not. */
  lemma CleanupKeepsTheUnexpired(s: State, s': State)
    requires Linked(s) && s' == Step(s, Cleanup)
    ensures s'.clock == s.clock && s'.users == s.users
    ensures forall x :: x in s'.sessions <==> x in s.sessions && s.sessions[x].expiresAt >= s.clock
    ensures forall x :: x in s'.sessions ==> s'.sessions[x] == s.sessions[x]
    ensures forall h :: h in s'.tokens <==>
              h in s.tokens && s.tokens[h].expiresAt >= s.clock && s.sessions[s.tokens[h].sessionId].expiresAt >= s.clock
    ensures forall h :: h in s'.tokens ==> s'.tokens[h] == s.tokens[h]
  {
  }

  /** A session that was ended buys nothing in any continuation. */
  lemma {:induction false} EndedSessionStaysDead(s: State, e: Event, es: seq<Event>, ask: Event)
    requires Inv(s) && (e.RevokeSession? || e.EndSession?) && e.sid in s.created && ValidRun(Step(s, e), es)
    requires var end := Run(Step(s, e), es);
             ask.Refresh? && Enabled(end, ask) && ask.presented in end.tokens && end.tokens[ask.presented].sessionId == e.sid
    ensures !Rotates(Run(Step(s, e), es), ask)
  {
    var s1 := Step(s, e);
    StepKeepsInv(s, e);
    EndingDropsTheSession(s, s1, e);
    CreatedGrows(s, e);
    RunKeepsDead(s1, es, e.sid);
  }

  // ----- How long a token lives ----------------------------------------------------------------------------

  /** The event leaves the session and its tokens alone: it neither ends nor evicts the session, nor revokes or
      presents one of its tokens with effect, nor cleans it up after it expired. */
  predicate Spares(s: State, e: Event, sid: SessionId)
  {
    match e
    case Grant(_, realm, _, _, _, _, _, order) =>
      sid !in Elements(order[..EvictionCount(|order|, realm.maxSessionsPerUser)])
    case ServiceGrant(_, _, _, _, _, _, order) => sid !in Trimmed(order)
    case Refresh(_, _, presented, _, _) =>
      presented in s.tokens && s.tokens[presented].sessionId == sid ==> !Rotates(s, e) && !s.tokens[presented].revoked
    case RevokeToken(presented) => presented in s.tokens ==> s.tokens[presented].sessionId != sid
    case RevokeSession(x) => x != sid
    case EndSession(x) => x != sid
    case Cleanup => sid in s.sessions ==> s.sessions[sid].expiresAt >= s.clock
    case _ => true
  }

  ghost predicate Spared(s: State, es: seq<Event>, sid: SessionId)
    decreases |es|
  {
    es == [] || (Spares(s, es[0], sid) && Spared(Step(s, es[0]), es[1..], sid))
  }

  /** The session is there and the token too, unless it has expired and was cleaned up. */
  predicate Stands(s: State, sid: SessionId, h: Hash, token: Token)
  {
    && sid in s.sessions && token.sessionId == sid && h in s.issued
    && (if h in s.tokens then s.tokens[h] == token else token.expiresAt < s.clock)
  }

  lemma GrantSpares(s: State, s': State, e: Event, sid: SessionId, h: Hash, token: Token)
    requires Inv(s) && Enabled(s, e) && (e.Grant? || e.ServiceGrant? || e.Impersonation?) && s' == Step(s, e)
    requires Spares(s, e, sid) && Stands(s, sid, h, token)
    ensures Stands(s', sid, h, token)
  {
    IssuedGrows(s, e);
    match e
    case Grant(_, _, _, _, _, _, _, _) => GrantWritesItsRows(s, s', e);
    case ServiceGrant(_, _, _, _, _, _, _) => ServiceGrantWritesItsRows(s, s', e, Trimmed(e.order));
    case Impersonation(_, _, _, _) => ImpersonationWritesItsRows(s, s', e);
  }

  lemma RefreshSpares(s: State, s': State, e: Event, sid: SessionId, h: Hash, token: Token)
    requires Inv(s) && Enabled(s, e) && e.Refresh? && s' == Step(s, e)
    requires Spares(s, e, sid) && Stands(s, sid, h, token)
    ensures Stands(s', sid, h, token)
  {
    IssuedGrows(s, e);
    if Rotates(s, e) {
      RefreshWritesItsRows(s, s', e);
    } else if Replays(s, e) {
      assert s' == s.(tokens := RevokeTokens(s.tokens, {s.tokens[e.presented].sessionId}, true));
    } else {
      RefusalKeeps(s, e);
    }
  }

  lemma StepSpares(s: State, s': State, e: Event, sid: SessionId, h: Hash, token: Token)
    requires Inv(s) && Enabled(s, e) && Spares(s, e, sid) && Stands(s, sid, h, token) && s' == Step(s, e)
    ensures Stands(s', sid, h, token)
  {
    match e
    case Refresh(_, _, _, _, _) => RefreshSpares(s, s', e, sid, h, token);
    case RevokeToken(presented) => RevokingRevokesOne(s, s', presented);
    case RevokeSession(_) => EndingDropsTheSession(s, s', e);
    case EndSession(_) => EndingDropsTheSession(s, s', e);
    case Cleanup => CleanupKeepsTheUnexpired(s, s');
    case Tick(_) =>
    case _ => GrantSpares(s, s', e, sid, h, token);
  }

  lemma {:induction false} RunSpares(s: State, es: seq<Event>, sid: SessionId, h: Hash, token: Token)
    requires Inv(s) && ValidRun(s, es) && Spared(s, es, sid) && Stands(s, sid, h, token)
    ensures Inv(Run(s, es)) && Stands(Run(s, es), sid, h, token)
    decreases |es|
  {
    if es != [] {
      StepKeepsInv(s, es[0]);
      StepSpares(s, Step(s, es[0]), es[0], sid, h, token);
      RunSpares(Step(s, es[0]), es[1..], sid, h, token);
    }
  }

  /** The event hands out a token to a client. */
  predicate HandsOut(s: State, e: Event)
  {
    e.Grant? || (e.ServiceGrant? && e.sid !in Trimmed(e.order)) || Rotates(s, e)
  }

  lemma HandedOutStands(s: State, s': State, e: Event)
    requires Inv(s) && Enabled(s, e) && HandsOut(s, e) && s' == Step(s, e)
    ensures Target(s, e).Some? && e.hash in s'.tokens
    ensures Stands(s', Target(s, e).value, e.hash, s'.tokens[e.hash])
    ensures var token := s'.tokens[e.hash];
            && !token.revoked && token.clientId == Some(e.client)
            && token.expiresAt == s.clock + e.realm.refreshTokenLifespan * 1000
  {
    StepKeepsInv(s, e);
    match e
    case Grant(_, _, _, _, _, _, _, _) => GrantWritesItsRows(s, s', e);
    case ServiceGrant(_, _, _, _, _, _, _) => ServiceGrantWritesItsRows(s, s', e, Trimmed(e.order));
    case _ => RefreshWritesItsRows(s, s', e);
  }

  /** After a grant or refresh that handed out a token, and whatever happens next that leaves the session and its
      tokens alone, presenting the token succeeds exactly for its client and up to the refresh lifespan after its
      issue. */
  lemma {:induction false} TokenLivesExactly(s: State, e: Event, es: seq<Event>, ask: Event)
    requires Inv(s) && Enabled(s, e) && HandsOut(s, e)
    requires ValidRun(Step(s, e), es) && Target(s, e).Some? && Spared(Step(s, e), es, Target(s, e).value)
    requires ask.Refresh? && ask.presented == e.hash && Enabled(Run(Step(s, e), es), ask)
    ensures Rotates(Run(Step(s, e), es), ask) <==>
            ask.client == e.client && Run(Step(s, e), es).clock <= s.clock + e.realm.refreshTokenLifespan * 1000
  {
    var s1 := Step(s, e);
    StepKeepsInv(s, e);
    HandedOutStands(s, s1, e);
    RunSpares(s1, es, Target(s, e).value, e.hash, s1.tokens[e.hash]);
    RefreshReplacesTheLiveToken(Run(s1, es), ask);
  }

  // ----- Tokens of an impersonation ------------------------------------------------------------------------

  ghost predicate Unbound(s: State, h: Hash)
  {
    h in s.issued && (h in s.tokens ==> s.tokens[h].clientId.None?)
  }

  lemma {:induction false} UnboundIsNeverRedeemed(s: State, es: seq<Event>, h: Hash)
    requires Inv(s) && ValidRun(s, es) && Unbound(s, h)
    ensures Redemptions(s, es, h) == 0
    decreases |es|
  {
    if es != [] {
      var s' := Step(s, es[0]);
      StepKeepsInv(s, es[0]);
      StepTracesTokens(s, es[0], h);
      IssuedGrows(s, es[0]);
      assert Unbound(s', h);
      UnboundIsNeverRedeemed(s', es[1..], h);
    }
  }

  /** The refresh token of an impersonation is bound to no client, so no run ever redeems it. */
  lemma {:induction false} ImpersonationTokenIsNeverRedeemed(s: State, e: Event, es: seq<Event>)
    requires Inv(s) && Enabled(s, e) && e.Impersonation? && ValidRun(Step(s, e), es)
    ensures Redemptions(Step(s, e), es, e.hash) == 0
  {
    StepKeepsInv(s, e);
    ImpersonationWritesItsRows(s, Step(s, e), e);
    UnboundIsNeverRedeemed(Step(s, e), es, e.hash);
  }
}
