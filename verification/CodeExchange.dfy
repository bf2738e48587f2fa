/**
 * The authorization-code exchange, one step per database call, with any number of requests
 * interleaved. The code row is claimed by a single conditional update. `minted`, `claimedBy` and
 * `openedBy` are history variables.
 */
module CodeExchange {
  import opened Wrappers
  import opened ClientAuth

  type RequestId = nat
  type SessionId = string

  datatype Acr = PasswordAcr | MfaAcr | OtherAcr(value: string)

  datatype ChallengeMethod = S256 | Plain

  /** The method is stored but never read by the exchange. */
  datatype CodeRow = CodeRow(clientId: string, userId: string, redirectUri: string, codeChallenge: string,
                             codeChallengeMethod: Option<ChallengeMethod>, satisfiedAcr: Option<Acr>, used: bool, expiresAt: int)

  /** The parts of the request body the exchange reads. An absent text field is the empty string,
      except that an absent redirect_uri differs from every stored one. */
  datatype Request = Request(code: string, clientId: string, secret: Secret,
                             redirectUri: Option<string>, codeVerifier: string)

  datatype User = User(bruteForceEnabled: bool, lockedUntil: Option<int>)

  datatype Session = Session(userId: string, satisfiedAcr: Acr)

  datatype ExchangeError =
    | CodeMissing | BadClient(reason: ClientError) | CodeRejected | ClientMismatch | RedirectMismatch
    | PkceRequired | VerifierMissing | WrongVerifier | UserMissing | AccountLocked | SessionGone

  datatype Phase =
    | Received | Authenticated | Verified | Admitted | Evicting(evict: set<SessionId>) | Deleting(evict: set<SessionId>)
    | Limited | SessionOpen | Completed | Failed(error: ExchangeError)

  /** What the lookup of the code's user answered, and when. */
  datatype Lookup = Lookup(user: Option<User>, at: int)

  /** A request with its local variables: the client found by the client check, the code row returned
      by the claiming update, the session it created. History variables: when it claimed the code, what its
      user lookup answered, the session row it wrote. */
  datatype Process = Process(request: Request, client: Option<Client>, row: Option<CodeRow>,
                             session: Option<SessionId>, phase: Phase,
                             claimedAt: Option<int>, lookup: Option<Lookup>, written: Option<Session>)

  /** Everything around the codes. `revoked` holds the sessions whose refresh tokens an eviction
      revoked, `tokens` the sessions refresh tokens were issued for. */
  datatype Database = Database(clock: int, clients: map<string, Client>, users: map<string, User>,
                               sessions: map<SessionId, Session>, revoked: set<SessionId>, tokens: multiset<SessionId>)

  datatype State = State(
    db: Database,
    codes: map<string, CodeRow>,
    procs: map<RequestId, Process>,
    minted: map<string, CodeRow>,
    claimedBy: map<string, RequestId>,
    openedBy: map<SessionId, RequestId>)

  predicate PkceHolds(client: Client, row: CodeRow, verifier: string, s256: string -> string)
  {
    && (client.clientType.Public? ==> row.codeChallenge != "")
    && (row.codeChallenge != "" ==> verifier != "" && s256(verifier) == row.codeChallenge)
  }

  /** The checks between the claim and the next database call. */
  function CheckClaim(client: Client, row: CodeRow, q: Request, s256: string -> string): (r: Option<ExchangeError>)
    ensures r.None? <==> row.clientId == client.id && q.redirectUri == Some(row.redirectUri)
                         && PkceHolds(client, row, q.codeVerifier, s256)
  {
    if row.clientId != client.id then Some(ClientMismatch)
    else if q.redirectUri != Some(row.redirectUri) then Some(RedirectMismatch)
    else if client.clientType.Public? && row.codeChallenge == "" then Some(PkceRequired)
    else if row.codeChallenge != "" && q.codeVerifier == "" then Some(VerifierMissing)
    else if row.codeChallenge != "" && s256(q.codeVerifier) != row.codeChallenge then Some(WrongVerifier)
    else None
  }

  predicate Locked(u: User, now: int)
  {
    u.bruteForceEnabled && u.lockedUntil.Some? && u.lockedUntil.value > now
  }

  predicate Claimable(s: State, code: string)
  {
    code in s.codes && !s.codes[code].used && s.codes[code].expiresAt > s.db.clock
  }

  // ----- What each call does to the calling process ------------------------------------------------

  function Authenticate(db: Database, p: Process): Process
  {
    if p.request.code == "" then p.(phase := Failed(CodeMissing))
    else
      match ValidateClient(db.clients, p.request.clientId, p.request.secret, AuthorizationCode)
      case Err(e) => p.(phase := Failed(BadClient(e)))
      case Ok(client) => p.(client := Some(client), phase := Authenticated)
  }

  function AfterClaim(p: Process, client: Client, row: CodeRow, s256: string -> string): Process
  {
    match CheckClaim(client, row, p.request, s256)
    case Some(error) => p.(row := Some(row), phase := Failed(error))
    case None => p.(row := Some(row), phase := Verified)
  }

  function Admit(db: Database, p: Process, row: CodeRow): Process
  {
    var found := if row.userId in db.users then Some(db.users[row.userId]) else None;
    var told := p.(lookup := Some(Lookup(found, db.clock)));
    match found
    case None => told.(phase := Failed(UserMissing))
    case Some(user) => told.(phase := if Locked(user, db.clock) then Failed(AccountLocked) else Admitted)
  }

  // ----- The calls ---------------------------------------------------------------------------------

  function Put(s: State, id: RequestId, p: Process): State
  {
    s.(procs := s.procs[id := p])
  }

  /** The conditional update and the checks that follow it in the same turn. */
  function Claim(s: State, id: RequestId, p: Process, client: Client, s256: string -> string): State
  {
    var code := p.request.code;
    if !Claimable(s, code) then Put(s, id, p.(phase := Failed(CodeRejected)))
    else
      var row := s.codes[code].(used := true);
      s.(codes := s.codes[code := row], claimedBy := s.claimedBy[code := id],
         procs := s.procs[id := AfterClaim(p.(claimedAt := Some(s.db.clock)), client, row, s256)])
  }

  function OpenSession(s: State, id: RequestId, p: Process, row: CodeRow, sid: SessionId): State
  {
    var session := Session(row.userId, row.satisfiedAcr.GetOr(PasswordAcr));
    s.(db := s.db.(sessions := s.db.sessions[sid := session]), openedBy := s.openedBy[sid := id],
       procs := s.procs[id := p.(session := Some(sid), written := Some(session), phase := SessionOpen)])
  }

  /** The calls that involve neither the code nor a new session row. */
  function LocalCall(db: Database, p: Process, found: set<SessionId>): (r: (Database, Process))
    ensures r.0.clients == db.clients
  {
    match (p.phase, p.row, p.session)
    case (Received, _, _) => (db, Authenticate(db, p))
    case (Verified, Some(row), _) => (db, Admit(db, p, row))
    case (Admitted, _, _) => (db, p.(phase := Evicting(found)))
    case (Evicting(evict), _, _) => (db.(revoked := db.revoked + evict), p.(phase := Deleting(evict)))
    case (Deleting(evict), _, _) => (db.(sessions := db.sessions - evict), p.(phase := Limited))
    case (SessionOpen, _, Some(own)) =>
      if own !in db.sessions then (db, p.(phase := Failed(SessionGone)))
      else (db.(tokens := db.tokens + multiset{own}), p.(phase := Completed))
    case _ => (db, p)
  }

  /** The next database call of request `id`. `found` is what the active-session query leads it to
      evict, `sid` the id drawn for a new session. */
  function Advance(s: State, id: RequestId, found: set<SessionId>, sid: SessionId, s256: string -> string): State
    requires id in s.procs
  {
    var p := s.procs[id];
    if p.phase.Authenticated? && p.client.Some? then Claim(s, id, p, p.client.value, s256)
    else if p.phase.Limited? && p.row.Some? then OpenSession(s, id, p, p.row.value, sid)
    else
      var r := LocalCall(s.db, p, found);
      s.(db := r.0, procs := s.procs[id := r.1])
  }

  // ----- Runs --------------------------------------------------------------------------------------

  datatype Event =
    | Authorize(code: string, row: CodeRow)
    | Arrive(id: RequestId, request: Request)
    | Call(id: RequestId, found: set<SessionId>, sid: SessionId)
    | CleanupCodes
    | Outside(db: Database)   // time passes, sessions end, users and clients change

  predicate Enabled(s: State, e: Event)
  {
    match e
    case Authorize(code, row) => code !in s.minted && Mintable(row)
    case Arrive(id, _) => id !in s.procs
    case Call(id, _, sid) => id in s.procs && sid !in s.openedBy
    case CleanupCodes => true
    case Outside(db) => Keyed(db)
  }

  /** The authorization endpoint refuses every challenge method but S256; it may be left out. */
  predicate Mintable(row: CodeRow)
  {
    !row.used && row.codeChallengeMethod != Some(Plain)
  }

  /** The client table is indexed by the public client id. */
  predicate Keyed(db: Database)
  {
    forall c :: c in db.clients ==> db.clients[c].clientId == c
  }

  function Step(s: State, e: Event, s256: string -> string): State
    requires Enabled(s, e)
  {
    match e
    case Authorize(code, row) => s.(codes := s.codes[code := row], minted := s.minted[code := row])
    case Arrive(id, request) => Put(s, id, Process(request, None, None, None, Received, None, None, None))
    case Call(id, found, sid) => Advance(s, id, found, sid, s256)
    case CleanupCodes => s.(codes := map c | c in s.codes && s.codes[c].expiresAt >= s.db.clock :: s.codes[c])
    case Outside(db) => s.(db := db)
  }

  predicate ValidRun(s: State, es: seq<Event>, s256: string -> string)
    decreases |es|
  {
    es == [] || (Enabled(s, es[0]) && ValidRun(Step(s, es[0], s256), es[1..], s256))
  }

  function Run(s: State, es: seq<Event>, s256: string -> string): State
    requires ValidRun(s, es, s256)
    decreases |es|
  {
    if es == [] then s else Run(Step(s, es[0], s256), es[1..], s256)
  }

  predicate Initial(s: State)
  {
    Keyed(s.db) && s.codes == map[] && s.procs == map[] && s.minted == map[] && s.claimedBy == map[] && s.openedBy == map[]
  }
}
