/** The grants as they run: each one reads and rewrites the session and token tables in sequence. */
module SessionStore {
  import opened Wrappers
  import T = SessionTokens

  lemma {:induction false} OldestExists(sessions: map<T.SessionId, T.Session>, rows: set<T.SessionId>)
    requires rows != {} && rows <= sessions.Keys
    ensures exists sid :: sid in rows && forall x :: x in rows ==> sessions[sid].createdAt <= sessions[x].createdAt
  {
    var any :| any in rows;
    if rows != {any} {
      OldestExists(sessions, rows - {any});
      var sid :| sid in rows - {any} && forall x :: x in rows - {any} ==> sessions[sid].createdAt <= sessions[x].createdAt;
      var least := if sessions[any].createdAt < sessions[sid].createdAt then any else sid;
      assert least in rows && forall x :: x in rows ==> sessions[least].createdAt <= sessions[x].createdAt;
    }
  }

  class SessionStore {
    var clock: int
    var users: map<T.UserId, string>
    var sessions: map<T.SessionId, T.Session>
    var tokens: map<T.Hash, T.Token>
    ghost var created: set<T.SessionId>
    ghost var issued: map<T.Hash, T.Issue>

    ghost function State(): T.State
      reads this
    {
      T.State(clock, users, sessions, tokens, created, issued)
    }

    constructor (now: int, users: map<T.UserId, string>)
      ensures T.Initial(State()) && State().clock == now && State().users == users
    {
      clock, this.users := now, users;
      sessions, tokens, created, issued := map[], map[], {}, map[];
    }

    /** `rows` ordered by creation time. Equal times come in any order, as they do from the database. */
    method OrderByCreatedAt(rows: set<T.SessionId>) returns (order: seq<T.SessionId>)
      requires rows <= sessions.Keys
      ensures T.OldestFirst(State(), rows, order)
    {
      order := [];
      var rest := rows;
      while rest != {}
        invariant rest <= rows
        invariant forall sid :: sid in order <==> sid in rows - rest
        invariant T.OldestFirst(State(), rows - rest, order)
        invariant forall i, x :: 0 <= i < |order| && x in rest ==> sessions[order[i]].createdAt <= sessions[x].createdAt
        decreases rest
      {
        OldestExists(sessions, rest);
        var next :| next in rest && forall x :: x in rest ==> sessions[next].createdAt <= sessions[x].createdAt;
        order, rest := order + [next], rest - {next};
      }
      assert rows - rest == rows;
    }

    method FindActiveSessions(realm: T.Realm, user: T.UserId) returns (order: seq<T.SessionId>)
      ensures T.OldestFirst(State(), T.Active(State(), realm, user), order)
    {
      var active := set sid | sid in sessions && sessions[sid].userId == user && user in users
                              && users[user] == realm.id && sessions[sid].expiresAt > clock;
      assert active == T.Active(State(), realm, user);
      order := OrderByCreatedAt(active);
    }

    method EnforceSessionLimit(realm: T.Realm, user: T.UserId) returns (ghost order: seq<T.SessionId>)
      modifies `sessions, `tokens
      ensures T.OldestFirst(old(State()), T.Active(old(State()), realm, user), order)
      ensures State() == T.EnforceSessionLimit(old(State()), realm, order)
    {
      var activeSessions := FindActiveSessions(realm, user);
      order := activeSessions;
      EvictOverLimit(realm, activeSessions);
    }

    /** `activeSessions` comes oldest first. */
    method EvictOverLimit(realm: T.Realm, activeSessions: seq<T.SessionId>)
      modifies `sessions, `tokens
      ensures State() == T.EnforceSessionLimit(old(State()), realm, activeSessions)
    {
      var maxSessions := realm.maxSessionsPerUser;
      if maxSessions > 0 && |activeSessions| >= maxSessions {
        DeleteWithTokens(T.Elements(activeSessions[..|activeSessions| - maxSessions + 1]));
      }
    }

    /** Revokes the non-offline tokens of the sessions, then deletes the sessions. */
    method DeleteWithTokens(sids: set<T.SessionId>)
      modifies `sessions, `tokens
      ensures State() == T.Evict(old(State()), sids)
    {
      tokens := T.RevokeTokens(tokens, sids, false);
      sessions := sessions - sids;
      tokens := T.TokensOutside(tokens, sids);
    }

    method IssueTokens(realm: T.Realm, clientId: Option<string>, sid: T.SessionId, scope: seq<T.Scope>,
                       acr: Option<T.Acr>, hash: T.Hash) returns (reply: Result<T.Issue, T.GrantError>)
      modifies `tokens, `issued
      ensures T.Outcome(State(), reply) == T.IssueTokens(old(State()), realm, clientId, sid, scope, acr, hash)
    {
      var scopes := T.EffectiveScopes(scope);
      var isOffline := T.OFFLINE_ACCESS in scopes;
      var lifespan := if isOffline then realm.offlineTokenLifespan else realm.refreshTokenLifespan;
      if sid !in sessions {
        return Err(T.MissingSession);
      }
      tokens := tokens[hash := T.Token(sid, clientId, scopes, false, isOffline, clock + lifespan * 1000)];
      var issue := T.Issue(sid, clientId, acr.GetOr(T.PasswordAcr));
      issued := issued[hash := issue];
      return Ok(issue);
    }

    method CreateSession(sid: T.SessionId, session: T.Session)
      modifies `sessions, `created
      ensures State() == T.CreateSession(old(State()), sid, session)
    {
      sessions := sessions[sid := session];
      created := created + {sid};
    }

    method SessionGrant(kind: T.GrantKind, realm: T.Realm, user: T.UserId, client: string, scope: seq<T.Scope>,
                        sid: T.SessionId, hash: T.Hash)
      returns (reply: Result<T.Issue, T.GrantError>, ghost order: seq<T.SessionId>)
      modifies this
      ensures T.OldestFirst(old(State()), T.Active(old(State()), realm, user), order)
      ensures T.Outcome(State(), reply) == T.SessionGrant(old(State()), kind, realm, user, client, scope, sid, hash, order)
    {
      order := EnforceSessionLimit(realm, user);
      CreateSession(sid, T.Session(user, kind.StoredAcr(), clock, clock + realm.refreshTokenLifespan * 1000));
      reply := IssueTokens(realm, Some(client), sid, scope, kind.PassedAcr(), hash);
    }

    method TrimServiceSessions(user: T.UserId) returns (ghost order: seq<T.SessionId>)
      modifies `sessions, `tokens
      ensures T.NewestFirst(old(State()), T.SessionsOf(old(State()), user), order)
      ensures State() == T.TrimServiceSessions(old(State()), order)
    {
      var mine := set x | x in sessions && sessions[x].userId == user;
      assert mine == T.SessionsOf(State(), user);
      var oldest := OrderByCreatedAt(mine);
      var newest := Reversed(oldest);
      ReversedIsNewestFirst(State(), mine, oldest);
      order := newest;
      if |newest| > T.SERVICE_ACCOUNT_SESSION_LIMIT {
        DeleteWithTokens(T.Elements(newest[T.SERVICE_ACCOUNT_SESSION_LIMIT..]));
      }
    }

    method ServiceAccountGrant(realm: T.Realm, user: T.UserId, client: string, scope: seq<T.Scope>,
                               sid: T.SessionId, hash: T.Hash)
      returns (reply: Result<T.Issue, T.GrantError>, ghost order: seq<T.SessionId>)
      modifies this
      ensures var s1 := T.ServiceSession(old(State()), realm, user, sid);
              T.NewestFirst(s1, T.SessionsOf(s1, user), order)
      ensures T.Outcome(State(), reply) == T.ServiceAccountGrant(old(State()), realm, user, client, scope, sid, hash, order)
    {
      CreateSession(sid, T.Session(user, None, clock, clock + realm.refreshTokenLifespan * 1000));
      assert State() == T.ServiceSession(old(State()), realm, user, sid);
      order := TrimServiceSessions(user);
      reply := IssueTokens(realm, Some(client), sid, scope, None, hash);
    }

    method RefreshGrant(realm: T.Realm, client: string, presented: T.Hash, scope: seq<T.Scope>, hash: T.Hash)
      returns (reply: Result<T.Issue, T.GrantError>)
      modifies this
      ensures T.Outcome(State(), reply) == T.RefreshGrant(old(State()), realm, client, presented, scope, hash)
    {
      if presented !in tokens {
        return Err(T.InvalidToken);
      }
      var stored := tokens[presented];
      if stored.revoked || stored.expiresAt < clock {
        if stored.revoked && stored.sessionId in sessions {
          tokens := T.RevokeTokens(tokens, {stored.sessionId}, true);
        }
        return Err(T.InvalidToken);
      }
      if stored.clientId.None? {
        return Err(T.UnboundToken);
      }
      if stored.clientId.value != client {
        return Err(T.WrongClient);
      }
      tokens := tokens[presented := stored.(revoked := true)];
      if stored.sessionId !in sessions {
        return Err(T.MissingSession);
      }
      var acr := sessions[stored.sessionId].satisfiedAcr.GetOr(T.PasswordAcr);
      reply := IssueTokens(realm, Some(client), stored.sessionId, if scope != [] then scope else stored.scope, Some(acr), hash);
    }
  }

  function Reversed<X>(xs: seq<X>): (r: seq<X>)
    ensures |r| == |xs| && forall i :: 0 <= i < |xs| ==> r[i] == xs[|xs| - 1 - i]
  {
    seq(|xs|, i requires 0 <= i < |xs| => xs[|xs| - 1 - i])
  }

  lemma ReversedIsNewestFirst(s: T.State, rows: set<T.SessionId>, order: seq<T.SessionId>)
    requires T.OldestFirst(s, rows, order)
    ensures T.NewestFirst(s, rows, Reversed(order))
  {
    var r := Reversed(order);
    assert forall i :: 0 <= i < |order| ==> order[i] == r[|order| - 1 - i];
  }
}
