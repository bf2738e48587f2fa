/**
 * Sessions and refresh tokens as the token endpoint handles them. Each request is one atomic step
 * over the `sessions` and `refresh_tokens` tables. Deleting a session deletes its refresh tokens
 * (the foreign key cascades). Two history variables, `created` and `issued`, remember every session
 * and every refresh token that ever existed.
 */
module SessionTokens {
  import opened Collections
  import opened Wrappers

  type SessionId = string
  type Hash = string
  type UserId = string

  datatype Acr = PasswordAcr | MfaAcr | OtherAcr(value: string)

  /** The scope names the server recognises, and the rest. */
  datatype Scope = OpenId | Profile | Email | Roles | OtherScope(name: string)

  const OFFLINE_ACCESS := OtherScope("offline_access")
  const SERVICE_ACCOUNT_SESSION_LIMIT := 100

  datatype Realm = Realm(id: string, maxSessionsPerUser: int, refreshTokenLifespan: int, offlineTokenLifespan: int)

  datatype Session = Session(userId: UserId, satisfiedAcr: Option<Acr>, createdAt: int, expiresAt: int)

  datatype Token = Token(sessionId: SessionId, clientId: Option<string>, scope: seq<Scope>,
                         revoked: bool, isOffline: bool, expiresAt: int)

  /** What the token endpoint handed out together with one refresh token. */
  datatype Issue = Issue(sessionId: SessionId, clientId: Option<string>, acr: Acr)

  datatype State = State(
    clock: int,                       // milliseconds
    users: map<UserId, string>,       // user to realm id
    sessions: map<SessionId, Session>,
    tokens: map<Hash, Token>,
    created: set<SessionId>,
    issued: map<Hash, Issue>)

  datatype GrantError = InvalidToken | UnboundToken | WrongClient | MissingSession

  datatype Outcome = Outcome(state: State, reply: Result<Issue, GrantError>)

  // ----- Queries ---------------------------------------------------------------------------------

  predicate IsActive(s: State, realm: Realm, user: UserId, sid: SessionId)
  {
    && sid in s.sessions
    && s.sessions[sid].userId == user
    && user in s.users && s.users[user] == realm.id
    && s.sessions[sid].expiresAt > s.clock
  }

  function Active(s: State, realm: Realm, user: UserId): set<SessionId>
  {
    set sid | sid in s.sessions && IsActive(s, realm, user, sid)
  }

  function SessionsOf(s: State, user: UserId): set<SessionId>
  {
    set sid | sid in s.sessions && s.sessions[sid].userId == user
  }

  function Elements(ids: seq<SessionId>): set<SessionId>
  {
    set sid | sid in ids
  }

  /** `order` is one answer the database may give to a query for `rows` ordered by creation time.
      Rows created in the same millisecond may come in any order. */
  ghost predicate OldestFirst(s: State, rows: set<SessionId>, order: seq<SessionId>)
  {
    && rows <= s.sessions.Keys
    && Distinct(order)
    && (forall sid :: sid in order <==> sid in rows)
    && forall i, j :: 0 <= i < j < |order| ==> s.sessions[order[i]].createdAt <= s.sessions[order[j]].createdAt
  }

  ghost predicate NewestFirst(s: State, rows: set<SessionId>, order: seq<SessionId>)
  {
    && rows <= s.sessions.Keys
    && Distinct(order)
    && (forall sid :: sid in order <==> sid in rows)
    && forall i, j :: 0 <= i < j < |order| ==> s.sessions[order[i]].createdAt >= s.sessions[order[j]].createdAt
  }

  // ----- Table updates ---------------------------------------------------------------------------

  /** `updateMany({ sessionId in sids, isOffline: false }, { revoked: true })`, or without the
      `isOffline` filter when `offlineToo`. */
  function RevokeTokens(tokens: map<Hash, Token>, sids: set<SessionId>, offlineToo: bool): map<Hash, Token>
  {
    map h | h in tokens ::
      var t := tokens[h];
      if t.sessionId in sids && (offlineToo || !t.isOffline) then t.(revoked := true) else t
  }

  /** The tokens a cascading delete of `sids` leaves behind. */
  function TokensOutside(tokens: map<Hash, Token>, sids: set<SessionId>): map<Hash, Token>
  {
    map h | h in tokens && tokens[h].sessionId !in sids :: tokens[h]
  }

  function DeleteSessions(s: State, sids: set<SessionId>): State
  {
    s.(sessions := s.sessions - sids, tokens := TokensOutside(s.tokens, sids))
  }

  function Evict(s: State, sids: set<SessionId>): State
  {
    DeleteSessions(s.(tokens := RevokeTokens(s.tokens, sids, false)), sids)
  }

  // ----- Scopes ----------------------------------------------------------------------------------

  predicate IsSupported(x: Scope)
  {
    !x.OtherScope?
  }

  function Supported(scope: seq<Scope>): (r: seq<Scope>)
    ensures forall x :: x in r <==> IsSupported(x) && x in scope
  {
    if scope == [] then []
    else if IsSupported(scope[0]) then [scope[0]] + Supported(scope[1..])
    else Supported(scope[1..])
  }

  /** Filtering keeps the order of the request: it goes through a list part by part. */
  lemma {:induction false} SupportedInOrder(first: seq<Scope>, second: seq<Scope>)
    ensures Supported(first + second) == Supported(first) + Supported(second)
  {
    if first == [] {
      assert first + second == second;
    } else {
      assert (first + second)[1..] == first[1..] + second;
      SupportedInOrder(first[1..], second);
    }
  }

  /** The granted scopes: the recognised ones of the request, `openid` alone when none is. */
  function EffectiveScopes(scope: seq<Scope>): (r: seq<Scope>)
    ensures (exists x :: x in scope && IsSupported(x)) ==> forall x :: x in r <==> x in scope && IsSupported(x)
    ensures (forall x :: x in scope ==> !IsSupported(x)) ==> r == [OpenId]
    ensures r != [] && forall x :: x in r ==> IsSupported(x)
  {
    var scopes := Supported(scope);
    if scopes == [] then [OpenId]
    else
      assert scopes[0] in scopes;
      scopes
  }

  // ----- Grants ----------------------------------------------------------------------------------

  function EvictionCount(active: nat, max: int): nat
  {
    if max <= 0 || active < max then 0 else active - max + 1
  }

  /** `order` answers the query for the user's active sessions, oldest first. */
  function EnforceSessionLimit(s: State, realm: Realm, order: seq<SessionId>): State
  {
    var max := realm.maxSessionsPerUser;
    if max <= 0 || |order| < max then s
    else
      var evict := order[..|order| - max + 1];
      Evict(s, Elements(evict))
  }

  function CreateSession(s: State, sid: SessionId, session: Session): State
  {
    s.(sessions := s.sessions[sid := session], created := s.created + {sid})
  }

  function IssueTokens(s: State, realm: Realm, clientId: Option<string>, sid: SessionId,
                       scope: seq<Scope>, acr: Option<Acr>, hash: Hash): Outcome
  {
    if sid !in s.sessions then Outcome(s, Err(MissingSession))
    else
      var scopes := EffectiveScopes(scope);
      var isOffline := OFFLINE_ACCESS in scopes;
      var lifespan := if isOffline then realm.offlineTokenLifespan else realm.refreshTokenLifespan;
      var token := Token(sid, clientId, scopes, false, isOffline, s.clock + lifespan * 1000);
      var issue := Issue(sid, clientId, acr.GetOr(PasswordAcr));
      Outcome(s.(tokens := s.tokens[hash := token], issued := s.issued[hash := issue]), Ok(issue))
  }

  /** The user-facing grants that open a session. They differ only in the authentication context:
      `stored` goes on the session row, `passed` to `issueTokens`. */
  datatype GrantKind = PasswordGrant | MfaOtpGrant | CodeGrant(satisfied: Option<Acr>) | DeviceGrant {
    function StoredAcr(): Option<Acr> {
      match this
      case PasswordGrant => Some(PasswordAcr)
      case MfaOtpGrant => Some(MfaAcr)
      case CodeGrant(satisfied) => Some(satisfied.GetOr(PasswordAcr))
      case DeviceGrant => None
    }

    function PassedAcr(): Option<Acr> {
      match this
      case PasswordGrant => Some(PasswordAcr)
      case MfaOtpGrant => Some(MfaAcr)
      case CodeGrant(satisfied) => Some(satisfied.GetOr(PasswordAcr))
      case DeviceGrant => None
    }
  }

  function SessionGrant(s: State, kind: GrantKind, realm: Realm, user: UserId, client: string,
                        scope: seq<Scope>, sid: SessionId, hash: Hash, order: seq<SessionId>): Outcome
  {
    OpenSession(EnforceSessionLimit(s, realm, order), kind, realm, user, client, scope, sid, hash)
  }

  function OpenSession(s: State, kind: GrantKind, realm: Realm, user: UserId, client: string,
                       scope: seq<Scope>, sid: SessionId, hash: Hash): Outcome
  {
    var session := Session(user, kind.StoredAcr(), s.clock, s.clock + realm.refreshTokenLifespan * 1000);
    IssueTokens(CreateSession(s, sid, session), realm, Some(client), sid, scope, kind.PassedAcr(), hash)
  }

  /** The client-credentials grant of a client with a service-account user: no session limit, but all
      sessions beyond the newest hundred go. `order` lists the user's sessions after the insert,
      newest first. */
  function ServiceAccountGrant(s: State, realm: Realm, user: UserId, client: string, scope: seq<Scope>,
                               sid: SessionId, hash: Hash, order: seq<SessionId>): Outcome
  {
    var s1 := ServiceSession(s, realm, user, sid);
    var s2 := TrimServiceSessions(s1, order);
    IssueTokens(s2, realm, Some(client), sid, scope, None, hash)
  }

  function ServiceSession(s: State, realm: Realm, user: UserId, sid: SessionId): State
  {
    CreateSession(s, sid, Session(user, None, s.clock, s.clock + realm.refreshTokenLifespan * 1000))
  }

  function TrimServiceSessions(s: State, order: seq<SessionId>): State
  {
    if |order| <= SERVICE_ACCOUNT_SESSION_LIMIT then s
    else Evict(s, Elements(order[SERVICE_ACCOUNT_SESSION_LIMIT..]))
  }

  /** Impersonation opens a session whose refresh token is bound to no client. */
  function Impersonate(s: State, user: UserId, duration: int, sid: SessionId, hash: Hash): State
  {
    var s1 := CreateSession(s, sid, Session(user, None, s.clock, s.clock + duration * 1000));
    var token := Token(sid, None, [OpenId], false, false, s.clock + duration * 1000);
    s1.(tokens := s1.tokens[hash := token], issued := s1.issued[hash := Issue(sid, None, PasswordAcr)])
  }

  function RevokeSessionTokens(s: State, sid: SessionId): State
  {
    s.(tokens := RevokeTokens(s.tokens, {sid}, true))
  }

  function RefreshGrant(s: State, realm: Realm, client: string, presented: Hash, scope: seq<Scope>, hash: Hash): Outcome
  {
    if presented !in s.tokens then Outcome(s, Err(InvalidToken))
    else
      var stored := s.tokens[presented];
      if stored.revoked then
        var s' := if stored.sessionId in s.sessions then RevokeSessionTokens(s, stored.sessionId) else s;
        Outcome(s', Err(InvalidToken))
      else if stored.expiresAt < s.clock then Outcome(s, Err(InvalidToken))
      else if stored.clientId.None? then Outcome(s, Err(UnboundToken))
      else if stored.clientId.value != client then Outcome(s, Err(WrongClient))
      else
        var s1 := s.(tokens := s.tokens[presented := stored.(revoked := true)]);
        if stored.sessionId !in s.sessions then Outcome(s1, Err(MissingSession))
        else
          var acr := s.sessions[stored.sessionId].satisfiedAcr.GetOr(PasswordAcr);
          var granted := if scope != [] then scope else stored.scope;
          IssueTokens(s1, realm, Some(client), stored.sessionId, granted, Some(acr), hash)
  }

  // ----- Runs ------------------------------------------------------------------------------------

  datatype Event =
    | Tick(ms: nat)
    | Grant(kind: GrantKind, realm: Realm, user: UserId, client: string, scope: seq<Scope>,
            sid: SessionId, hash: Hash, order: seq<SessionId>)
    | ServiceGrant(realm: Realm, user: UserId, client: string, scope: seq<Scope>,
                   sid: SessionId, hash: Hash, order: seq<SessionId>)
    | Impersonation(user: UserId, duration: int, sid: SessionId, hash: Hash)
    | Refresh(realm: Realm, client: string, presented: Hash, scope: seq<Scope>, hash: Hash)
    | RevokeToken(presented: Hash)
    | RevokeSession(sid: SessionId)
    | EndSession(sid: SessionId)
    | Cleanup

  /** Ids are fresh and every query answer is one the database may give. */
  ghost predicate Enabled(s: State, e: Event)
  {
    match e
    case Grant(_, realm, user, _, _, sid, hash, order) =>
      user in s.users && sid !in s.created && hash !in s.issued && OldestFirst(s, Active(s, realm, user), order)
    case ServiceGrant(realm, user, _, _, sid, hash, order) =>
      && user in s.users && sid !in s.created && hash !in s.issued
      && var s1 := ServiceSession(s, realm, user, sid); NewestFirst(s1, SessionsOf(s1, user), order)
    case Impersonation(user, _, sid, hash) => user in s.users && sid !in s.created && hash !in s.issued
    case Refresh(_, _, _, _, hash) => hash !in s.issued
    case _ => true
  }

  function Step(s: State, e: Event): State
  {
    match e
    case Tick(ms) => s.(clock := s.clock + ms)
    case Grant(kind, realm, user, client, scope, sid, hash, order) =>
      SessionGrant(s, kind, realm, user, client, scope, sid, hash, order).state
    case ServiceGrant(realm, user, client, scope, sid, hash, order) =>
      ServiceAccountGrant(s, realm, user, client, scope, sid, hash, order).state
    case Impersonation(user, duration, sid, hash) => Impersonate(s, user, duration, sid, hash)
    case Refresh(realm, client, presented, scope, hash) => RefreshGrant(s, realm, client, presented, scope, hash).state
    case RevokeToken(presented) =>
      if presented in s.tokens then s.(tokens := s.tokens[presented := s.tokens[presented].(revoked := true)]) else s
    case RevokeSession(sid) => DeleteSessions(RevokeSessionTokens(s, sid), {sid})
    case EndSession(sid) => Evict(s, {sid})
    case Cleanup => CleanupExpired(s)
  }

  function CleanupExpired(s: State): State
  {
    var s1 := DeleteSessions(s, set sid | sid in s.sessions && s.sessions[sid].expiresAt < s.clock);
    s1.(tokens := map h | h in s1.tokens && s1.tokens[h].expiresAt >= s1.clock :: s1.tokens[h])
  }

  ghost predicate ValidRun(s: State, es: seq<Event>)
    decreases |es|
  {
    es == [] || (Enabled(s, es[0]) && ValidRun(Step(s, es[0]), es[1..]))
  }

  function Run(s: State, es: seq<Event>): State
    decreases |es|
  {
    if es == [] then s else Run(Step(s, es[0]), es[1..])
  }

  predicate Initial(s: State)
  {
    s.sessions == map[] && s.tokens == map[] && s.created == {} && s.issued == map[]
  }
}
