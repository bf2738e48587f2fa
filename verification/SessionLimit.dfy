/** The concurrent-session limit and the cap on service-account sessions. */
module SessionLimit {
  import opened Collections
  import opened Wrappers
  import opened SessionTokens

  lemma {:induction false} DistinctCardinality(ids: seq<SessionId>)
    requires Distinct(ids)
    ensures |Elements(ids)| == |ids|
  {
    if ids != [] {
      var rest := ids[..|ids| - 1];
      assert Elements(ids) == Elements(rest) + {ids[|ids| - 1]};
      DistinctCardinality(rest);
    }
  }

  // ----- What one call evicts ----------------------------------------------------------------------

  /** The first phase touches the non-offline tokens of the evicted sessions, all of them and only
      them; the second deletes those sessions, and the cascade takes their tokens along. */
  lemma EvictTouchesOnlyTheEvicted(s: State, sids: set<SessionId>, h: Hash)
    requires h in s.tokens
    ensures var phase1 := RevokeTokens(s.tokens, sids, false);
            && phase1.Keys == s.tokens.Keys
            && (phase1[h].revoked <==> s.tokens[h].revoked || (s.tokens[h].sessionId in sids && !s.tokens[h].isOffline))
            && phase1[h].(revoked := s.tokens[h].revoked) == s.tokens[h]
    ensures h in Evict(s, sids).tokens <==> s.tokens[h].sessionId !in sids
    ensures h in Evict(s, sids).tokens ==> Evict(s, sids).tokens[h] == s.tokens[h]
  {
  }

  lemma EvictIsDelete(s: State, sids: set<SessionId>)
    ensures Evict(s, sids) == DeleteSessions(s, sids)
  {
    forall h | h in s.tokens { EvictTouchesOnlyTheEvicted(s, sids, h); }
    assert Evict(s, sids).tokens == TokensOutside(s.tokens, sids);
  }

  ghost predicate Oldest(s: State, chosen: set<SessionId>, rows: set<SessionId>)
    requires rows <= s.sessions.Keys
  {
    && chosen <= rows
    && forall c, k :: c in chosen && k in rows - chosen ==> s.sessions[c].createdAt <= s.sessions[k].createdAt
  }

  lemma {:induction false} PrefixIsOldest(s: State, rows: set<SessionId>, order: seq<SessionId>, n: nat)
    requires OldestFirst(s, rows, order) && n <= |order|
    ensures Oldest(s, Elements(order[..n]), rows) && |Elements(order[..n])| == n && |rows| == |order|
  {
    DistinctCardinality(order[..n]);
    DistinctCardinality(order);
    assert Elements(order) == rows;
    forall c, k | c in Elements(order[..n]) && k in rows - Elements(order[..n])
      ensures s.sessions[c].createdAt <= s.sessions[k].createdAt
    {
      var i :| 0 <= i < n && order[i] == c;
      var j :| 0 <= j < |order| && order[j] == k;
      assert forall m | 0 <= m < n :: order[..n][m] in Elements(order[..n]);
    }
  }

  lemma EnforceDeletesThePrefix(s: State, realm: Realm, order: seq<SessionId>)
    ensures var evicted := Elements(order[..EvictionCount(|order|, realm.maxSessionsPerUser)]);
            EnforceSessionLimit(s, realm, order) == DeleteSessions(s, evicted)
  {
    var evicted := Elements(order[..EvictionCount(|order|, realm.maxSessionsPerUser)]);
    if evicted == {} {
      assert s.sessions - evicted == s.sessions && TokensOutside(s.tokens, evicted) == s.tokens;
    }
    EvictIsDelete(s, evicted);
  }

  /** One call evicts exactly max(0, n - max + 1) of the user's n active sessions, the oldest ones,
      with their tokens, and touches no other row. */
  lemma {:induction false} LimitEvictsTheOldest(s: State, realm: Realm, user: UserId, order: seq<SessionId>)
    requires OldestFirst(s, Active(s, realm, user), order)
    ensures var active := Active(s, realm, user);
            var evicted := Elements(order[..EvictionCount(|order|, realm.maxSessionsPerUser)]);
            && |evicted| == EvictionCount(|active|, realm.maxSessionsPerUser)
            && Oldest(s, evicted, active)
            && EnforceSessionLimit(s, realm, order) == DeleteSessions(s, evicted)
            && |Active(EnforceSessionLimit(s, realm, order), realm, user)| == |active| - |evicted|
  {
    var n := EvictionCount(|order|, realm.maxSessionsPerUser);
    PrefixIsOldest(s, Active(s, realm, user), order, n);
    EnforceDeletesThePrefix(s, realm, order);
    DeleteShrinksActive(s, realm, user, Elements(order[..n]));
  }

  lemma DeleteShrinksActive(s: State, realm: Realm, user: UserId, sids: set<SessionId>)
    requires sids <= Active(s, realm, user)
    ensures Active(DeleteSessions(s, sids), realm, user) == Active(s, realm, user) - sids
    ensures |Active(DeleteSessions(s, sids), realm, user)| == |Active(s, realm, user)| - |sids|
  {
    assert Active(DeleteSessions(s, sids), realm, user) == Active(s, realm, user) - sids;
  }

  // ----- The limit over runs -----------------------------------------------------------------------

  /** `e` opens a session of `user` without going through the limit of `realm`. */
  predicate Bypasses(e: Event, realm: Realm, user: UserId)
  {
    match e
    case Grant(_, r, u, _, _, _, _, _) => u == user && (r.id != realm.id || r.maxSessionsPerUser != realm.maxSessionsPerUser)
    case ServiceGrant(_, u, _, _, _, _, _) => u == user
    case Impersonation(u, _, _, _) => u == user
    case _ => false
  }

  lemma SameRealmSameActive(s: State, r1: Realm, r2: Realm, user: UserId)
    requires r1.id == r2.id
    ensures Active(s, r1, user) == Active(s, r2, user)
  {
  }

  lemma OpenAddsOneActive(s1: State, e: Event, realm: Realm)
    requires e.Grant?
    ensures var s2 := OpenSession(s1, e.kind, e.realm, e.user, e.client, e.scope, e.sid, e.hash).state;
            Active(s2, realm, e.user) <= Active(s1, realm, e.user) + {e.sid}
  {
  }

  lemma {:induction false} GrantRespectsLimit(s: State, e: Event, realm: Realm)
    requires e.Grant? && Enabled(s, e) && !Bypasses(e, realm, e.user) && realm.maxSessionsPerUser > 0
    ensures |Active(Step(s, e), realm, e.user)| <= realm.maxSessionsPerUser
  {
    SameRealmSameActive(s, realm, e.realm, e.user);
    LimitEvictsTheOldest(s, e.realm, e.user, e.order);
    var s1 := EnforceSessionLimit(s, e.realm, e.order);
    SameRealmSameActive(s1, realm, e.realm, e.user);
    OpenAddsOneActive(s1, e, realm);
    SubsetSize(Active(Step(s, e), realm, e.user), Active(s1, realm, e.user) + {e.sid});
  }

  lemma OtherStepsAddNoActiveSession(s: State, e: Event, realm: Realm, user: UserId)
    requires Enabled(s, e) && !Bypasses(e, realm, user) && !(e.Grant? && e.user == user)
    ensures Active(Step(s, e), realm, user) <= Active(s, realm, user)
  {
  }

  lemma {:induction false} StepKeepsLimit(s: State, e: Event, realm: Realm, user: UserId)
    requires Enabled(s, e) && !Bypasses(e, realm, user) && realm.maxSessionsPerUser > 0
    requires |Active(s, realm, user)| <= realm.maxSessionsPerUser
    ensures |Active(Step(s, e), realm, user)| <= realm.maxSessionsPerUser
  {
    if e.Grant? && e.user == user {
      GrantRespectsLimit(s, e, realm);
    } else {
      OtherStepsAddNoActiveSession(s, e, realm, user);
      SubsetSize(Active(Step(s, e), realm, user), Active(s, realm, user));
    }
  }

  /** A user whose sessions all come from limited grants never has more active sessions than the limit. */
  lemma {:induction false} ActiveSessionsNeverExceedLimit(s: State, es: seq<Event>, realm: Realm, user: UserId)
    requires ValidRun(s, es) && realm.maxSessionsPerUser > 0
    requires forall e :: e in es ==> !Bypasses(e, realm, user)
    requires |Active(s, realm, user)| <= realm.maxSessionsPerUser
    ensures |Active(Run(s, es), realm, user)| <= realm.maxSessionsPerUser
    decreases |es|
  {
    if es != [] {
      StepKeepsLimit(s, es[0], realm, user);
      ActiveSessionsNeverExceedLimit(Step(s, es[0]), es[1..], realm, user);
    }
  }

  // ----- Service accounts --------------------------------------------------------------------------

  /** A service-account grant leaves its user with at most a hundred sessions, the newest ones,
      whatever the tables held before. */
  lemma {:induction false} ServiceAccountKeepsTheNewestHundred(s: State, e: Event)
    requires e.ServiceGrant? && Enabled(s, e)
    ensures var s1 := ServiceSession(s, e.realm, e.user, e.sid);
            var before, after := SessionsOf(s1, e.user), SessionsOf(Step(s, e), e.user);
            && after <= before
            && |after| == (if |before| <= 100 then |before| else 100)
            && forall kept, gone :: kept in after && gone in before - after ==>
                 s1.sessions[gone].createdAt <= s1.sessions[kept].createdAt
  {
    var s1 := ServiceSession(s, e.realm, e.user, e.sid);
    TrimKeepsTheNewest(s1, e.user, e.order);
    assert SessionsOf(Step(s, e), e.user) == SessionsOf(TrimServiceSessions(s1, e.order), e.user);
  }

  lemma {:induction false} TrimKeepsTheNewest(s: State, user: UserId, order: seq<SessionId>)
    requires NewestFirst(s, SessionsOf(s, user), order)
    ensures var before, after := SessionsOf(s, user), SessionsOf(TrimServiceSessions(s, order), user);
            && after <= before
            && |after| == (if |before| <= SERVICE_ACCOUNT_SESSION_LIMIT then |before| else SERVICE_ACCOUNT_SESSION_LIMIT)
            && forall kept, gone :: kept in after && gone in before - after ==>
                 s.sessions[gone].createdAt <= s.sessions[kept].createdAt
  {
    var before := SessionsOf(s, user);
    DistinctCardinality(order);
    assert Elements(order) == before;
    if |order| > SERVICE_ACCOUNT_SESSION_LIMIT {
      var keep, drop := order[..SERVICE_ACCOUNT_SESSION_LIMIT], order[SERVICE_ACCOUNT_SESSION_LIMIT..];
      DistinctCardinality(keep);
      SplitIsPartition(order, SERVICE_ACCOUNT_SESSION_LIMIT);
      EvictIsDelete(s, Elements(drop));
      assert SessionsOf(TrimServiceSessions(s, order), user) == before - Elements(drop) == Elements(keep);
      SplitIsOrdered(s, order, SERVICE_ACCOUNT_SESSION_LIMIT);
    }
  }

  lemma SplitIsOrdered(s: State, order: seq<SessionId>, n: nat)
    requires n <= |order| && forall sid :: sid in order ==> sid in s.sessions
    requires forall i, j :: 0 <= i < j < |order| ==> s.sessions[order[i]].createdAt >= s.sessions[order[j]].createdAt
    ensures forall kept, gone :: kept in Elements(order[..n]) && gone in Elements(order[n..]) ==>
              s.sessions[gone].createdAt <= s.sessions[kept].createdAt
  {
  }

  lemma SplitIsPartition(ids: seq<SessionId>, n: nat)
    requires Distinct(ids) && n <= |ids|
    ensures Elements(ids[..n]) !! Elements(ids[n..])
    ensures Elements(ids[..n]) + Elements(ids[n..]) == Elements(ids)
  {
    assert ids == ids[..n] + ids[n..];
  }
}
