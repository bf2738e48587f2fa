/** What every run of grants, refreshes, revocations and clean-ups keeps. */
module SessionTokenSafety {
  import opened Wrappers
  import opened SessionTokens

  ghost predicate OneLiveToken(s: State)
  {
    forall h1, h2 | h1 in s.tokens && h2 in s.tokens && s.tokens[h1].sessionId == s.tokens[h2].sessionId ::
      !s.tokens[h1].revoked && !s.tokens[h2].revoked ==> h1 == h2
  }

  /** All refresh tokens ever issued under a session carry one client and one acr. */
  ghost predicate OneBinding(s: State)
  {
    forall h1, h2 | h1 in s.issued && h2 in s.issued && s.issued[h1].sessionId == s.issued[h2].sessionId ::
      s.issued[h1] == s.issued[h2]
  }

  ghost predicate Linked(s: State)
  {
    && s.sessions.Keys <= s.created
    && (forall h :: h in s.issued ==> s.issued[h].sessionId in s.created)
    && (forall h :: h in s.tokens ==>
          && h in s.issued
          && s.tokens[h].sessionId in s.sessions
          && s.issued[h].sessionId == s.tokens[h].sessionId
          && s.issued[h].clientId == s.tokens[h].clientId)
    && (forall h :: h in s.issued && s.issued[h].sessionId in s.sessions ==>
          s.issued[h].acr == s.sessions[s.issued[h].sessionId].satisfiedAcr.GetOr(PasswordAcr))
  }

  ghost predicate Inv(s: State)
  {
    Linked(s) && OneLiveToken(s) && OneBinding(s)
  }

  // ----- The invariant -----------------------------------------------------------------------------

  /** `s'` is `s` with tokens revoked and with sessions and tokens removed, nothing else. */
  ghost predicate Weakens(s: State, s': State)
  {
    && s'.created == s.created && s'.issued == s.issued
    && (forall sid :: sid in s'.sessions ==> sid in s.sessions && s'.sessions[sid] == s.sessions[sid])
    && (forall h :: h in s'.tokens ==>
          && h in s.tokens
          && s'.tokens[h].sessionId in s'.sessions
          && s'.tokens[h].(revoked := s.tokens[h].revoked) == s.tokens[h]
          && (s.tokens[h].revoked ==> s'.tokens[h].revoked))
  }

  lemma WeakensKeepsInv(s: State, s': State)
    requires Inv(s) && Weakens(s, s')
    ensures Inv(s')
  {
  }

  lemma EvictWeakens(s: State, sids: set<SessionId>)
    requires Linked(s)
    ensures Weakens(s, Evict(s, sids))
  {
  }

  lemma LimitWeakens(s: State, realm: Realm, order: seq<SessionId>)
    requires Linked(s)
    ensures Weakens(s, EnforceSessionLimit(s, realm, order))
  {
    var max := realm.maxSessionsPerUser;
    if max > 0 && |order| >= max {
      EvictWeakens(s, Elements(order[..|order| - max + 1]));
    }
  }

  lemma LimitKeepsInv(s: State, realm: Realm, order: seq<SessionId>)
    requires Inv(s)
    ensures var s' := EnforceSessionLimit(s, realm, order);
            Inv(s') && s'.created == s.created && s'.issued == s.issued
  {
    LimitWeakens(s, realm, order);
    WeakensKeepsInv(s, EnforceSessionLimit(s, realm, order));
  }

  lemma TrimWeakens(s: State, order: seq<SessionId>)
    requires Linked(s)
    ensures Weakens(s, TrimServiceSessions(s, order))
  {
    if |order| > SERVICE_ACCOUNT_SESSION_LIMIT {
      EvictWeakens(s, Elements(order[SERVICE_ACCOUNT_SESSION_LIMIT..]));
    }
  }

  lemma CreateKeepsInv(s: State, sid: SessionId, session: Session)
    requires Inv(s) && sid !in s.created
    ensures Inv(CreateSession(s, sid, session))
  {
  }

  lemma AddTokenKeepsInv(s: State, hash: Hash, token: Token, issue: Issue)
    requires Inv(s) && hash !in s.issued && token.sessionId in s.sessions
    requires issue.sessionId == token.sessionId && issue.clientId == token.clientId
    requires issue.acr == s.sessions[token.sessionId].satisfiedAcr.GetOr(PasswordAcr)
    requires forall h :: h in s.tokens && s.tokens[h].sessionId == token.sessionId ==> s.tokens[h].revoked
    requires forall h :: h in s.issued && s.issued[h].sessionId == token.sessionId ==> s.issued[h].clientId == token.clientId
    ensures Inv(s.(tokens := s.tokens[hash := token], issued := s.issued[hash := issue]))
  {
  }

  /** Issuing is safe on a session without a live token, for the binding it already has. */
  lemma IssueKeepsInv(s: State, realm: Realm, client: Option<string>, sid: SessionId, scope: seq<Scope>,
                      acr: Option<Acr>, hash: Hash)
    requires Inv(s) && hash !in s.issued
    requires forall h :: h in s.tokens && s.tokens[h].sessionId == sid ==> s.tokens[h].revoked
    requires forall h :: h in s.issued && s.issued[h].sessionId == sid ==> s.issued[h].clientId == client
    requires sid in s.sessions ==> s.sessions[sid].satisfiedAcr.GetOr(PasswordAcr) == acr.GetOr(PasswordAcr)
    ensures Inv(IssueTokens(s, realm, client, sid, scope, acr, hash).state)
  {
    if sid in s.sessions {
      var s' := IssueTokens(s, realm, client, sid, scope, acr, hash).state;
      AddTokenKeepsInv(s, hash, s'.tokens[hash], s'.issued[hash]);
    }
  }

  lemma AcrAgrees(kind: GrantKind)
    ensures kind.StoredAcr().GetOr(PasswordAcr) == kind.PassedAcr().GetOr(PasswordAcr)
  {
  }

  /** Tables with a new session and its first refresh token. */
  function Opened(s: State, session: Session, hash: Hash, token: Token, issue: Issue): State
  {
    State(s.clock, s.users, s.sessions[token.sessionId := session], s.tokens[hash := token],
          s.created + {token.sessionId}, s.issued[hash := issue])
  }

  lemma OpenedKeepsInv(s: State, session: Session, hash: Hash, token: Token, issue: Issue)
    requires Inv(s) && token.sessionId !in s.created && hash !in s.issued
    requires issue == Issue(token.sessionId, token.clientId, session.satisfiedAcr.GetOr(PasswordAcr))
    ensures Inv(Opened(s, session, hash, token, issue))
  {
  }

  lemma OpenKeepsInv(s: State, kind: GrantKind, realm: Realm, user: UserId, client: string, scope: seq<Scope>,
                     sid: SessionId, hash: Hash)
    requires Inv(s) && sid !in s.created && hash !in s.issued
    ensures Inv(OpenSession(s, kind, realm, user, client, scope, sid, hash).state)
  {
    var s' := OpenSession(s, kind, realm, user, client, scope, sid, hash).state;
    var session, token, issue := s'.sessions[sid], s'.tokens[hash], s'.issued[hash];
    AcrAgrees(kind);
    OpenedKeepsInv(s, session, hash, token, issue);
    assert s' == Opened(s, session, hash, token, issue);
  }

  lemma GrantKeepsInv(s: State, kind: GrantKind, realm: Realm, user: UserId, client: string, scope: seq<Scope>,
                      sid: SessionId, hash: Hash, order: seq<SessionId>)
    requires Inv(s) && sid !in s.created && hash !in s.issued
    ensures Inv(SessionGrant(s, kind, realm, user, client, scope, sid, hash, order).state)
  {
    LimitKeepsInv(s, realm, order);
    OpenKeepsInv(EnforceSessionLimit(s, realm, order), kind, realm, user, client, scope, sid, hash);
  }

  lemma ServiceGrantKeepsInv(s: State, realm: Realm, user: UserId, client: string, scope: seq<Scope>,
                             sid: SessionId, hash: Hash, order: seq<SessionId>)
    requires Inv(s) && sid !in s.created && hash !in s.issued
    ensures Inv(ServiceAccountGrant(s, realm, user, client, scope, sid, hash, order).state)
  {
    var s1 := ServiceSession(s, realm, user, sid);
    CreateKeepsInv(s, sid, s1.sessions[sid]);
    TrimWeakens(s1, order);
    var s2 := TrimServiceSessions(s1, order);
    WeakensKeepsInv(s1, s2);
    IssueKeepsInv(s2, realm, Some(client), sid, scope, None, hash);
  }

  lemma ImpersonationKeepsInv(s: State, user: UserId, duration: int, sid: SessionId, hash: Hash)
    requires Inv(s) && sid !in s.created && hash !in s.issued
    ensures Inv(Impersonate(s, user, duration, sid, hash))
  {
    var s' := Impersonate(s, user, duration, sid, hash);
    var session, token, issue := s'.sessions[sid], s'.tokens[hash], s'.issued[hash];
    OpenedKeepsInv(s, session, hash, token, issue);
    assert s' == Opened(s, session, hash, token, issue);
  }

  predicate Rotates(s: State, e: Event)
  {
    e.Refresh? && RefreshGrant(s, e.realm, e.client, e.presented, e.scope, e.hash).reply.Ok?
  }

  function Rotated(s: State, h: Hash): State
    requires h in s.tokens
  {
    s.(tokens := s.tokens[h := s.tokens[h].(revoked := true)])
  }

  lemma RefreshKeepsInv(s: State, e: Event)
    requires Inv(s) && Enabled(s, e) && Rotates(s, e)
    ensures Inv(Step(s, e))
  {
    var stored := s.tokens[e.presented];
    var s1 := Rotated(s, e.presented);
    assert Weakens(s, s1);
    WeakensKeepsInv(s, s1);
    var acr := s.sessions[stored.sessionId].satisfiedAcr.GetOr(PasswordAcr);
    IssueKeepsInv(s1, e.realm, Some(e.client), stored.sessionId,
                  if e.scope != [] then e.scope else stored.scope, Some(acr), e.hash);
  }

  /** Every event that issues nothing only weakens the tables. */
  lemma OtherStepsWeaken(s: State, s': State, e: Event)
    requires Linked(s) && s' == Step(s, e)
    requires !e.Grant? && !e.ServiceGrant? && !e.Impersonation? && !Rotates(s, e)
    ensures Weakens(s, s')
  {
    match e
    case EndSession(sid) => EvictWeakens(s, {sid});
    case RevokeSession(sid) => RevokeSessionWeakens(s, sid);
    case Cleanup => CleanupWeakens(s);
    case Refresh(_, _, _, _, _) => RefusedRefreshWeakens(s, s', e);
    case _ =>
  }

  predicate Replays(s: State, e: Event)
  {
    && e.Refresh? && e.presented in s.tokens
    && s.tokens[e.presented].revoked && s.tokens[e.presented].sessionId in s.sessions
  }

  lemma ReplayRevokes(s: State, s': State, e: Event)
    requires Linked(s) && Replays(s, e) && s' == Step(s, e)
    ensures Weakens(s, s')
  {
    assert s' == s.(tokens := RevokeTokens(s.tokens, {s.tokens[e.presented].sessionId}, true));
  }

  /** Every other refusal leaves the tables alone: a linked token never lacks its session. */
  lemma RefusalKeeps(s: State, e: Event)
    requires Linked(s) && e.Refresh? && !Rotates(s, e) && !Replays(s, e)
    ensures Step(s, e) == s
  {
  }

  /** A refresh that issues nothing at most revokes. */
  lemma RefusedRefreshWeakens(s: State, s': State, e: Event)
    requires Linked(s) && e.Refresh? && !Rotates(s, e) && s' == Step(s, e)
    ensures Weakens(s, s')
  {
    if Replays(s, e) {
      ReplayRevokes(s, s', e);
    } else {
      RefusalKeeps(s, e);
    }
  }

  lemma RevokeSessionWeakens(s: State, sid: SessionId)
    requires Linked(s)
    ensures Weakens(s, DeleteSessions(RevokeSessionTokens(s, sid), {sid}))
  {
  }

  lemma CleanupWeakens(s: State)
    requires Linked(s)
    ensures Weakens(s, CleanupExpired(s))
  {
  }

  lemma StepKeepsInv(s: State, e: Event)
    requires Inv(s) && Enabled(s, e)
    ensures Inv(Step(s, e))
  {
    match e
    case Grant(kind, realm, user, client, scope, sid, hash, order) =>
      GrantKeepsInv(s, kind, realm, user, client, scope, sid, hash, order);
    case ServiceGrant(realm, user, client, scope, sid, hash, order) =>
      ServiceGrantKeepsInv(s, realm, user, client, scope, sid, hash, order);
    case Impersonation(user, duration, sid, hash) =>
      ImpersonationKeepsInv(s, user, duration, sid, hash);
    case _ =>
      if Rotates(s, e) {
        RefreshKeepsInv(s, e);
      } else {
        OtherStepsWeaken(s, Step(s, e), e);
        WeakensKeepsInv(s, Step(s, e));
      }
  }

  lemma {:induction false} RunKeepsInv(s: State, es: seq<Event>)
    requires Inv(s) && ValidRun(s, es)
    ensures Inv(Run(s, es))
    decreases |es|
  {
    if es != [] {
      StepKeepsInv(s, es[0]);
      RunKeepsInv(Step(s, es[0]), es[1..]);
    }
  }

  /** In every run, a session has at most one refresh token that is not revoked, and every refresh
      token ever issued under it carries the client and the acr of the first one. */
  lemma {:induction false} SessionHasOneLiveTokenAndOneBinding(s: State, es: seq<Event>)
    requires Initial(s) && ValidRun(s, es)
    ensures OneLiveToken(Run(s, es))
    ensures OneBinding(Run(s, es))
  {
    RunKeepsInv(s, es);
  }

  // ----- Replay ------------------------------------------------------------------------------------

  /** The session existed, and none of its refresh tokens can be used any more. */
  ghost predicate Dead(s: State, sid: SessionId)
  {
    sid in s.created && forall h :: h in s.tokens && s.tokens[h].sessionId == sid ==> s.tokens[h].revoked
  }

  /** The session an event adds a refresh token to, if it adds one. */
  function Target(s: State, e: Event): Option<SessionId>
  {
    match e
    case Grant(_, _, _, _, _, sid, _, _) => Some(sid)
    case ServiceGrant(_, _, _, _, sid, _, _) => Some(sid)
    case Impersonation(_, _, sid, _) => Some(sid)
    case Refresh(_, _, presented, _, _) => if Rotates(s, e) then Some(s.tokens[presented].sessionId) else None
    case _ => None
  }

  /** A step leaves an old token as it is or revokes it; a new token belongs to the target session and
      is not an offline one. */
  ghost predicate TokenTraced(s: State, e: Event, h: Hash)
  {
    h in Step(s, e).tokens ==>
      var t := Step(s, e).tokens[h];
      if h in s.tokens then t.(revoked := s.tokens[h].revoked) == s.tokens[h] && (s.tokens[h].revoked ==> t.revoked)
      else h !in s.issued && Target(s, e) == Some(t.sessionId) && !t.isOffline
  }

  lemma StepTracesTokens(s: State, e: Event, h: Hash)
    requires Inv(s) && Enabled(s, e)
    ensures TokenTraced(s, e, h)
  {
    match e
    case Grant(_, _, _, _, _, _, _, _) => GrantTraces(s, e, h);
    case ServiceGrant(_, _, _, _, _, _, _) => ServiceGrantTraces(s, e, h);
    case Impersonation(_, _, _, _) =>
    case _ =>
      if Rotates(s, e) {
        RefreshTraces(s, e, h);
      } else {
        OtherStepsWeaken(s, Step(s, e), e);
      }
  }

  lemma GrantTraces(s: State, e: Event, h: Hash)
    requires Inv(s) && e.Grant? && Enabled(s, e)
    ensures TokenTraced(s, e, h)
  {
    LimitWeakens(s, e.realm, e.order);
  }

  lemma RefreshTraces(s: State, e: Event, h: Hash)
    requires Inv(s) && Enabled(s, e) && Rotates(s, e)
    ensures TokenTraced(s, e, h)
  {
  }

  lemma ServiceGrantTraces(s: State, e: Event, h: Hash)
    requires Inv(s) && e.ServiceGrant? && Enabled(s, e)
    ensures TokenTraced(s, e, h)
  {
    var s1 := ServiceSession(s, e.realm, e.user, e.sid);
    CreateKeepsInv(s, e.sid, s1.sessions[e.sid]);
    TrimWeakens(s1, e.order);
  }

  lemma StepKeepsDead(s: State, e: Event, sid: SessionId)
    requires Inv(s) && Enabled(s, e) && Dead(s, sid)
    ensures Dead(Step(s, e), sid)
  {
    assert Target(s, e) != Some(sid);
    assert sid in Step(s, e).created by { CreatedGrows(s, e); }
    forall h | h in Step(s, e).tokens && Step(s, e).tokens[h].sessionId == sid
      ensures Step(s, e).tokens[h].revoked
    {
      StepTracesTokens(s, e, h);
    }
  }

  lemma CreatedGrows(s: State, e: Event)
    requires Inv(s)
    ensures s.created <= Step(s, e).created
  {
    if !e.Grant? && !e.ServiceGrant? && !e.Impersonation? && !Rotates(s, e) {
      OtherStepsWeaken(s, Step(s, e), e);
    }
  }

  lemma IssuedGrows(s: State, e: Event)
    requires Inv(s)
    ensures s.issued.Keys <= Step(s, e).issued.Keys
  {
    if !e.Grant? && !e.ServiceGrant? && !e.Impersonation? && !Rotates(s, e) {
      OtherStepsWeaken(s, Step(s, e), e);
    }
  }

  lemma {:induction false} RunKeepsDead(s: State, es: seq<Event>, sid: SessionId)
    requires Inv(s) && ValidRun(s, es) && Dead(s, sid)
    ensures Dead(Run(s, es), sid)
    decreases |es|
  {
    if es != [] {
      StepKeepsInv(s, es[0]);
      StepKeepsDead(s, es[0], sid);
      RunKeepsDead(Step(s, es[0]), es[1..], sid);
    }
  }

  /** Presenting a rotated token in a reachable state revokes its whole session, and no continuation
      of the run ever gives that session a usable refresh token again. */
  lemma {:induction false} ReplayIsAbsorbing(s0: State, before: seq<Event>, replay: Event, after: seq<Event>)
    requires Initial(s0) && ValidRun(s0, before)
    requires replay.Refresh? && Enabled(Run(s0, before), replay)
    requires replay.presented in Run(s0, before).tokens && Run(s0, before).tokens[replay.presented].revoked
    requires ValidRun(Step(Run(s0, before), replay), after)
    ensures var s := Run(s0, before);
            var sid := s.tokens[replay.presented].sessionId;
            && RefreshGrant(s, replay.realm, replay.client, replay.presented, replay.scope, replay.hash).reply == Err(InvalidToken)
            && Dead(Step(s, replay), sid)
            && Dead(Run(Step(s, replay), after), sid)
  {
    RunKeepsInv(s0, before);
    var s := Run(s0, before);
    StepKeepsInv(s, replay);
    RunKeepsDead(Step(s, replay), after, s.tokens[replay.presented].sessionId);
  }

  // ----- One successor per token -------------------------------------------------------------------

  predicate Redeems(s: State, e: Event, h: Hash)
  {
    && e.Refresh? && e.presented == h
    && RefreshGrant(s, e.realm, e.client, e.presented, e.scope, e.hash).reply.Ok?
  }

  function Redemptions(s: State, es: seq<Event>, h: Hash): nat
    decreases |es|
  {
    if es == [] then 0
    else (if Redeems(s, es[0], h) then 1 else 0) + Redemptions(Step(s, es[0]), es[1..], h)
  }

  ghost predicate Spent(s: State, h: Hash)
  {
    h in s.issued && (h in s.tokens ==> s.tokens[h].revoked)
  }

  lemma StepKeepsSpent(s: State, e: Event, h: Hash)
    requires Inv(s) && Enabled(s, e) && Spent(s, h)
    ensures Spent(Step(s, e), h)
  {
    StepTracesTokens(s, e, h);
    IssuedGrows(s, e);
  }

  lemma {:induction false} SpentIsNeverRedeemed(s: State, es: seq<Event>, h: Hash)
    requires Inv(s) && ValidRun(s, es) && Spent(s, h)
    ensures Redemptions(s, es, h) == 0
    decreases |es|
  {
    if es != [] {
      StepKeepsInv(s, es[0]);
      StepKeepsSpent(s, es[0], h);
      SpentIsNeverRedeemed(Step(s, es[0]), es[1..], h);
    }
  }

  /** A refresh token buys at most one successor in any run. */
  lemma {:induction false} RedeemedAtMostOnce(s: State, es: seq<Event>, h: Hash)
    requires Inv(s) && ValidRun(s, es)
    ensures Redemptions(s, es, h) <= 1
    decreases |es|
  {
    if es != [] {
      var s' := Step(s, es[0]);
      StepKeepsInv(s, es[0]);
      if Redeems(s, es[0], h) {
        assert Spent(s', h);
        SpentIsNeverRedeemed(s', es[1..], h);
      } else {
        RedeemedAtMostOnce(s', es[1..], h);
      }
    }
  }

  // ----- What one refresh does ---------------------------------------------------------------------

  /** A refresh succeeds exactly for an unexpired live token of the calling client, and the new token
      is then the session's only live one, under the session's client and acr. */
  lemma {:induction false} RefreshReplacesTheLiveToken(s: State, e: Event)
    requires Inv(s) && e.Refresh? && Enabled(s, e)
    ensures Rotates(s, e) <==>
            && e.presented in s.tokens && !s.tokens[e.presented].revoked
            && s.tokens[e.presented].expiresAt >= s.clock && s.tokens[e.presented].clientId == Some(e.client)
    ensures Rotates(s, e) ==>
            var sid := s.tokens[e.presented].sessionId;
            var s' := Step(s, e);
            && (forall h :: h in s'.tokens && s'.tokens[h].sessionId == sid ==> (s'.tokens[h].revoked <==> h != e.hash))
            && e.hash in s'.tokens && s'.tokens[e.hash].sessionId == sid
            && s'.issued[e.hash] == s.issued[e.presented]
  {
    if Rotates(s, e) {
      StepKeepsInv(s, e);
      assert s.issued[e.presented].sessionId == s.tokens[e.presented].sessionId;
    }
  }

  /** The scope filter drops `offline_access`, so no run ever issues an offline token. */
  lemma {:induction false} NoOfflineTokens(s: State, es: seq<Event>)
    requires Inv(s) && ValidRun(s, es)
    requires forall h :: h in s.tokens ==> !s.tokens[h].isOffline
    ensures forall h :: h in Run(s, es).tokens ==> !Run(s, es).tokens[h].isOffline
    decreases |es|
  {
    if es != [] {
      var s' := Step(s, es[0]);
      StepKeepsInv(s, es[0]);
      forall h | h in s'.tokens ensures !s'.tokens[h].isOffline {
        StepTracesTokens(s, es[0], h);
      }
      NoOfflineTokens(s', es[1..]);
    }
  }
}
