/** Every interleaving of code exchanges: one session per code, opened by a request that passed all checks. */
module CodeExchangeSafety {
  import opened Wrappers
  import opened ClientAuth
  import opened CodeExchange

  /** The client the request authenticated as: its public id, enabled, allowed the grant, with its secret. */
  predicate Authentic(client: Client, q: Request)
  {
    && client.clientId == q.clientId && client.enabled && Allows(client, AuthorizationCode)
    && (client.clientType.Confidential? ==> client.hasSecret && q.secret == Secret(true))
  }

  /** A request that authenticated, and whose copy of the code row passed every check. */
  predicate Passed(p: Process, s256: string -> string)
  {
    && p.client.Some? && p.row.Some? && Authentic(p.client.value, p.request)
    && p.row.value.clientId == p.client.value.id
    && p.request.redirectUri == Some(p.row.value.redirectUri)
    && PkceHolds(p.client.value, p.row.value, p.request.codeVerifier, s256)
  }

  predicate Holding(p: Phase)
  {
    p.Verified? || p.Admitted? || p.Evicting? || p.Deleting? || p.Limited?
  }

  /** What a process knows about itself. */
  predicate LocalOk(p: Process, s256: string -> string)
  {
    && (p.phase.Received? || p.phase.Authenticated? ==> p.row.None?)
    && (p.phase.Authenticated? ==> p.client.Some? && Authentic(p.client.value, p.request))
    && (p.phase.Received? || p.phase.Authenticated? || Holding(p.phase) ==> p.session.None?)
    && (Holding(p.phase) || p.session.Some? ==> Passed(p, s256))
  }

  /** A process holds a row exactly when it claimed its code. */
  predicate RowOk(s: State, id: RequestId)
    requires id in s.procs
  {
    var p := s.procs[id];
    p.row.Some? ==>
      && p.request.code in s.claimedBy && s.claimedBy[p.request.code] == id
      && p.request.code in s.minted && p.row.value == s.minted[p.request.code].(used := true)
  }

  predicate CodeOk(s: State, c: string)
    requires c in s.codes
  {
    c in s.minted && s.codes[c] == s.minted[c].(used := c in s.claimedBy)
  }

  predicate OpenedOk(s: State, sid: SessionId)
    requires sid in s.openedBy
  {
    s.openedBy[sid] in s.procs && s.procs[s.openedBy[sid]].session == Some(sid)
  }

  ghost predicate Inv(s: State, s256: string -> string)
  {
    && Keyed(s.db)
    && (forall c :: c in s.claimedBy ==> c in s.minted)
    && (forall c :: c in s.codes ==> CodeOk(s, c))
    && (forall id :: id in s.procs ==> LocalOk(s.procs[id], s256))
    && (forall id :: id in s.procs ==> RowOk(s, id))
    && (forall sid :: sid in s.openedBy ==> OpenedOk(s, sid))
  }

  // ----- Steps ---------------------------------------------------------------------------------------

  /** A call that leaves codes, claims and openings alone and keeps the process's row and session. */
  lemma PutKeepsInv(s: State, s': State, id: RequestId, p: Process, s256: string -> string)
    requires Inv(s, s256) && id in s.procs && Keyed(s'.db)
    requires s' == s.(db := s'.db, procs := s.procs[id := p])
    requires p.request == s.procs[id].request && p.row == s.procs[id].row && p.session == s.procs[id].session
    requires LocalOk(p, s256)
    ensures Inv(s', s256)
  {
    assert RowOk(s, id);
  }

  lemma ClaimKeepsInv(s: State, s': State, id: RequestId, p: Process, client: Client, s256: string -> string)
    requires Inv(s, s256) && id in s.procs && p == s.procs[id] && p.phase.Authenticated? && p.client == Some(client)
    requires s' == Claim(s, id, p, client, s256)
    ensures Inv(s', s256)
  {
    assert LocalOk(p, s256);
    if !Claimable(s, p.request.code) {
      PutKeepsInv(s, s', id, p.(phase := Failed(CodeRejected)), s256);
    } else {
      assert CodeOk(s, p.request.code);
      var row := s.codes[p.request.code].(used := true);
      ClaimedKeepsInv(s, s', id, p.request.code, row, AfterClaim(p.(claimedAt := Some(s.db.clock)), client, row, s256), s256);
    }
  }

  lemma ClaimedKeepsInv(s: State, s': State, id: RequestId, code: string, row: CodeRow, p: Process, s256: string -> string)
    requires Inv(s, s256) && id in s.procs && s.procs[id].row.None?
    requires code in s.minted && code !in s.claimedBy && row == s.minted[code].(used := true)
    requires s' == s.(codes := s.codes[code := row], claimedBy := s.claimedBy[code := id], procs := s.procs[id := p])
    requires p.request == s.procs[id].request && p.request.code == code && p.row == Some(row)
    requires p.session == s.procs[id].session && LocalOk(p, s256)
    ensures Inv(s', s256)
  {
    forall x | x in s'.procs ensures RowOk(s', x) {
      if x != id { assert RowOk(s, x); }
    }
    forall c | c in s'.codes ensures CodeOk(s', c) {
      if c != code { assert CodeOk(s, c); }
    }
  }

  lemma OpenKeepsInv(s: State, s': State, id: RequestId, p: Process, row: CodeRow, sid: SessionId, s256: string -> string)
    requires Inv(s, s256) && id in s.procs && p == s.procs[id] && p.phase.Limited? && p.row == Some(row)
    requires sid !in s.openedBy && s' == OpenSession(s, id, p, row, sid)
    ensures Inv(s', s256)
  {
    assert LocalOk(p, s256) && RowOk(s, id);
    forall x | x in s'.openedBy ensures OpenedOk(s', x) {
      if x != sid { assert OpenedOk(s, x); }
    }
    forall x | x in s'.procs ensures RowOk(s', x) && LocalOk(s'.procs[x], s256) {
      assert RowOk(s, x) && LocalOk(s.procs[x], s256);
    }
  }

  lemma CallKeepsInv(s: State, s': State, id: RequestId, found: set<SessionId>, sid: SessionId, s256: string -> string)
    requires Inv(s, s256) && id in s.procs && sid !in s.openedBy && s' == Advance(s, id, found, sid, s256)
    ensures Inv(s', s256)
  {
    var p := s.procs[id];
    assert LocalOk(p, s256);
    if p.phase.Authenticated? && p.client.Some? {
      ClaimKeepsInv(s, s', id, p, p.client.value, s256);
    } else if p.phase.Limited? && p.row.Some? {
      OpenKeepsInv(s, s', id, p, p.row.value, sid, s256);
    } else {
      LocalCallIsOk(s.db, p, found, s256);
      PutKeepsInv(s, s', id, LocalCall(s.db, p, found).1, s256);
    }
  }

  lemma LocalCallIsOk(db: Database, p: Process, found: set<SessionId>, s256: string -> string)
    requires LocalOk(p, s256) && Keyed(db)
    ensures var p' := LocalCall(db, p, found).1;
            LocalOk(p', s256) && p'.request == p.request && p'.row == p.row && p'.session == p.session
  {
  }

  lemma AuthorizeKeepsInv(s: State, s': State, code: string, row: CodeRow, s256: string -> string)
    requires Inv(s, s256) && code !in s.minted && !row.used
    requires s' == s.(codes := s.codes[code := row], minted := s.minted[code := row])
    ensures Inv(s', s256)
  {
    forall x | x in s'.procs ensures RowOk(s', x) {
      assert RowOk(s, x);
    }
    forall c | c in s'.codes ensures CodeOk(s', c) {
      if c != code { assert CodeOk(s, c); }
    }
  }

  lemma StepKeepsInv(s: State, s': State, e: Event, s256: string -> string)
    requires Inv(s, s256) && Enabled(s, e) && s' == Step(s, e, s256)
    ensures Inv(s', s256)
  {
    match e
    case Call(id, found, sid) => CallKeepsInv(s, s', id, found, sid, s256);
    case Authorize(code, row) => AuthorizeKeepsInv(s, s', code, row, s256);
    case Arrive(id, request) => ArriveKeepsInv(s, s', id, Process(request, None, None, None, Received, None, None, None), s256);
    case CleanupCodes => CleanupKeepsInv(s, s', s256);
    case Outside(db) => OutsideKeepsInv(s, s', s256);
  }

  lemma ArriveKeepsInv(s: State, s': State, id: RequestId, p: Process, s256: string -> string)
    requires Inv(s, s256) && id !in s.procs && s' == Put(s, id, p)
    requires p.phase.Received? && p.row.None? && p.session.None?
    ensures Inv(s', s256)
  {
    forall x | x in s'.procs ensures LocalOk(s'.procs[x], s256) && RowOk(s', x) {
      if x != id { assert LocalOk(s.procs[x], s256) && RowOk(s, x); }
    }
    forall sid | sid in s'.openedBy ensures OpenedOk(s', sid) {
      assert OpenedOk(s, sid);
    }
    forall c | c in s'.codes ensures CodeOk(s', c) {
      assert CodeOk(s, c);
    }
  }

  lemma CleanupKeepsInv(s: State, s': State, s256: string -> string)
    requires Inv(s, s256) && s' == s.(codes := s'.codes)
    requires forall c :: c in s'.codes ==> c in s.codes && s'.codes[c] == s.codes[c]
    ensures Inv(s', s256)
  {
    forall c | c in s'.codes ensures CodeOk(s', c) {
      assert CodeOk(s, c);
    }
    forall x | x in s'.procs ensures RowOk(s', x) {
      assert RowOk(s, x);
    }
    forall sid | sid in s'.openedBy ensures OpenedOk(s', sid) {
      assert OpenedOk(s, sid);
    }
  }

  lemma OutsideKeepsInv(s: State, s': State, s256: string -> string)
    requires Inv(s, s256) && s' == s.(db := s'.db) && Keyed(s'.db)
    ensures Inv(s', s256)
  {
    forall c | c in s'.codes ensures CodeOk(s', c) {
      assert CodeOk(s, c);
    }
    forall x | x in s'.procs ensures RowOk(s', x) {
      assert RowOk(s, x);
    }
    forall sid | sid in s'.openedBy ensures OpenedOk(s', sid) {
      assert OpenedOk(s, sid);
    }
  }

  lemma {:induction false} RunKeepsInv(s: State, es: seq<Event>, s256: string -> string)
    requires Inv(s, s256) && ValidRun(s, es, s256)
    ensures Inv(Run(s, es, s256), s256)
    decreases |es|
  {
    if es != [] {
      StepKeepsInv(s, Step(s, es[0], s256), es[0], s256);
      RunKeepsInv(Step(s, es[0], s256), es[1..], s256);
    }
  }

  // ----- The theorems --------------------------------------------------------------------------------

  /** In every interleaving, an authorization code yields at most one session, and the request that
      opened it authenticated as the code's client, named its redirect URI and proved its PKCE key. */
  lemma {:induction false} CodeYieldsOneSession(s0: State, es: seq<Event>, s256: string -> string)
    requires Initial(s0) && ValidRun(s0, es, s256)
    ensures var s := Run(s0, es, s256);
            && (forall a, b | a in s.openedBy && b in s.openedBy ::
                  && s.openedBy[a] in s.procs && s.openedBy[b] in s.procs
                  && (s.procs[s.openedBy[a]].request.code == s.procs[s.openedBy[b]].request.code ==> a == b))
            && (forall a | a in s.openedBy ::
                  var p := s.procs[s.openedBy[a]];
                  Passed(p, s256) && p.request.code in s.minted && p.row.value == s.minted[p.request.code].(used := true))
  {
    var s := Run(s0, es, s256);
    RunKeepsInv(s0, es, s256);
    forall a | a in s.openedBy
      ensures s.openedBy[a] in s.procs
      ensures var p := s.procs[s.openedBy[a]];
              && p.session == Some(a) && Passed(p, s256) && s.claimedBy.Keys >= {p.request.code}
              && s.claimedBy[p.request.code] == s.openedBy[a]
              && p.request.code in s.minted && p.row.value == s.minted[p.request.code].(used := true)
    {
      assert OpenedOk(s, a);
      assert LocalOk(s.procs[s.openedBy[a]], s256) && RowOk(s, s.openedBy[a]);
    }
  }

  /** A claim is never undone: whatever the claiming request's fate, its code stays used while the row
      exists, and no other request ever opens a session with it. */
  lemma {:induction false} ClaimIsFinal(s: State, es: seq<Event>, code: string, s256: string -> string)
    requires Inv(s, s256) && ValidRun(s, es, s256) && code in s.claimedBy
    ensures var s' := Run(s, es, s256);
            && code in s'.claimedBy && s'.claimedBy[code] == s.claimedBy[code]
            && (code in s'.codes ==> s'.codes[code].used)
            && (forall sid | sid in s'.openedBy ::
                  && s'.openedBy[sid] in s'.procs
                  && (s'.procs[s'.openedBy[sid]].request.code == code ==> s'.openedBy[sid] == s.claimedBy[code]))
    decreases |es|
  {
    if es == [] {
      assert code in s.codes ==> CodeOk(s, code);
      forall sid | sid in s.openedBy
        ensures s.openedBy[sid] in s.procs
        ensures s.procs[s.openedBy[sid]].request.code == code ==> s.openedBy[sid] == s.claimedBy[code]
      {
        assert OpenedOk(s, sid);
        assert LocalOk(s.procs[s.openedBy[sid]], s256) && RowOk(s, s.openedBy[sid]);
      }
    } else {
      var s1 := Step(s, es[0], s256);
      StepKeepsInv(s, s1, es[0], s256);
      StepKeepsClaims(s, es[0], code, s256);
      ClaimIsFinal(s1, es[1..], code, s256);
    }
  }

  lemma StepKeepsClaims(s: State, e: Event, code: string, s256: string -> string)
    requires Inv(s, s256) && Enabled(s, e) && code in s.claimedBy
    ensures code in Step(s, e, s256).claimedBy && Step(s, e, s256).claimedBy[code] == s.claimedBy[code]
  {
    assert code in s.codes ==> CodeOk(s, code);
  }

  /** A request ends up holding the code's row, whether it then succeeds or fails a check, exactly when
      its update found the row unused and unexpired; otherwise the tables are untouched. */
  lemma FailedExchangeLeavesCodeUsed(s: State, id: RequestId, found: set<SessionId>, sid: SessionId, s256: string -> string)
    requires Inv(s, s256) && id in s.procs && s.procs[id].phase.Authenticated?
    ensures var s' := Advance(s, id, found, sid, s256);
            var code := s.procs[id].request.code;
            if code in s.codes && !s.codes[code].used && s.codes[code].expiresAt > s.db.clock then
              && s'.codes[code].used && s'.claimedBy == s.claimedBy[code := id]
              && (s'.procs[id].phase.Verified? <==> Passed(s'.procs[id], s256))
              && (s'.procs[id].phase.Verified? || s'.procs[id].phase.Failed?)
            else
              && s'.procs[id].phase == Failed(CodeRejected)
              && s'.codes == s.codes && s'.claimedBy == s.claimedBy && s'.openedBy == s.openedBy && s'.db == s.db
  {
    assert LocalOk(s.procs[id], s256);
  }

  // ----- Against RFC 7636 ------------------------------------------------------------------------------

  /** The server's comparison of section 4.6 of RFC 7636: the challenge is the transformed verifier, or
      without a method (section 4.3) or with `plain` the verifier itself. */
  predicate RfcVerifies(row: CodeRow, verifier: string, s256: string -> string)
  {
    match row.codeChallengeMethod
    case Some(S256) => s256(verifier) == row.codeChallenge
    case _ => verifier == row.codeChallenge
  }

  predicate Agrees(client: Client, row: CodeRow, verifier: string, s256: string -> string)
  {
    PkceHolds(client, row, verifier, s256) <==> RfcVerifies(row, verifier, s256)
  }

  /** The exchange treats every verifier of the row as the RFC does. */
  ghost predicate FollowsRfc(client: Client, row: CodeRow, s256: string -> string)
  {
    forall verifier :: verifier != "" ==> Agrees(client, row, verifier, s256)
  }

  /** For each verifier of a row with a challenge: the exchange refuses what the RFC accepts exactly when the
      method was left out and the challenge itself is sent without being its own transform, and accepts what the
      RFC refuses exactly when the method was left out and another text is sent whose transform it is. */
  lemma DiffersFromRfcIff(client: Client, row: CodeRow, verifier: string, s256: string -> string)
    requires Mintable(row) && row.codeChallenge != "" && verifier != ""
    ensures RfcVerifies(row, verifier, s256) && !PkceHolds(client, row, verifier, s256) <==>
            row.codeChallengeMethod.None? && verifier == row.codeChallenge && s256(verifier) != row.codeChallenge
    ensures PkceHolds(client, row, verifier, s256) && !RfcVerifies(row, verifier, s256) <==>
            row.codeChallengeMethod.None? && verifier != row.codeChallenge && s256(verifier) == row.codeChallenge
  {
  }

  /** The challenge is its own transform and nobody else's. */
  ghost predicate IsOnlyItsOwnTransform(challenge: string, s256: string -> string)
  {
    s256(challenge) == challenge && forall verifier :: verifier != "" && s256(verifier) == challenge ==> verifier == challenge
  }

  lemma FollowingNeedsOwnTransform(client: Client, row: CodeRow, s256: string -> string)
    requires Mintable(row) && row.codeChallenge != "" && row.codeChallengeMethod.None? && FollowsRfc(client, row, s256)
    ensures IsOnlyItsOwnTransform(row.codeChallenge, s256)
  {
    var challenge := row.codeChallenge;
    assert Agrees(client, row, challenge, s256);
    forall verifier | verifier != "" && s256(verifier) == challenge ensures verifier == challenge {
      assert Agrees(client, row, verifier, s256);
    }
  }

  lemma NamedMethodFollows(client: Client, row: CodeRow, s256: string -> string)
    requires Mintable(row) && row.codeChallenge != ""
    requires row.codeChallengeMethod.Some? || IsOnlyItsOwnTransform(row.codeChallenge, s256)
    ensures FollowsRfc(client, row, s256)
  {
    forall verifier | verifier != "" ensures Agrees(client, row, verifier, s256) {
      DiffersFromRfcIff(client, row, verifier, s256);
    }
  }

  /** For the row as a whole: the exchange follows the RFC exactly when the row names the method, or the
      challenge is its own transform and nobody else's. */
  lemma FollowsRfcIff(client: Client, row: CodeRow, s256: string -> string)
    requires Mintable(row) && row.codeChallenge != ""
    ensures FollowsRfc(client, row, s256) <==>
            row.codeChallengeMethod.Some? || IsOnlyItsOwnTransform(row.codeChallenge, s256)
  {
    if row.codeChallengeMethod.Some? || IsOnlyItsOwnTransform(row.codeChallenge, s256) {
      NamedMethodFollows(client, row, s256);
    } else if FollowsRfc(client, row, s256) {
      FollowingNeedsOwnTransform(client, row, s256);
    }
  }

  /** A client that leaves the method out and sends its challenge as the verifier, as the RFC has it, is
      refused, unless the challenge happens to be its own transform. */
  lemma PlainVerifierIsRefused(client: Client, row: CodeRow, q: Request, s256: string -> string)
    requires row == CodeRow(client.id, "user", "https://app/cb", "challenge", None, None, true, 60000)
    requires q.redirectUri == Some(row.redirectUri) && q.codeVerifier == "challenge"
    ensures Mintable(row.(used := false)) && RfcVerifies(row, q.codeVerifier, s256)
    ensures CheckClaim(client, row, q, s256) == Some(WrongVerifier) <==> s256("challenge") != "challenge"
  {
  }

  ghost predicate MintedOk(s: State)
  {
    forall c :: c in s.minted ==> Mintable(s.minted[c])
  }

  lemma {:induction false} RunKeepsMinted(s: State, es: seq<Event>, s256: string -> string)
    requires MintedOk(s) && ValidRun(s, es, s256)
    ensures MintedOk(Run(s, es, s256))
    decreases |es|
  {
    if es != [] {
      RunKeepsMinted(Step(s, es[0], s256), es[1..], s256);
    }
  }

  /** In every interleaving, a session opened with a challenged code was opened by a verifier whose transform
      is the challenge, which is the check of the RFC whenever the code named its method. */
  lemma {:induction false} SessionsProveTheirKey(s0: State, es: seq<Event>, s256: string -> string, sid: SessionId)
    requires Initial(s0) && ValidRun(s0, es, s256) && sid in Run(s0, es, s256).openedBy
    ensures var s := Run(s0, es, s256);
            && s.openedBy[sid] in s.procs && s.procs[s.openedBy[sid]].row.Some?
            && var p := s.procs[s.openedBy[sid]];
            var row := p.row.value;
            && row.codeChallengeMethod != Some(Plain)
            && (row.codeChallenge != "" ==> s256(p.request.codeVerifier) == row.codeChallenge)
            && (row.codeChallenge != "" && row.codeChallengeMethod.Some? ==> RfcVerifies(row, p.request.codeVerifier, s256))
  {
    CodeYieldsOneSession(s0, es, s256);
    RunKeepsMinted(s0, es, s256);
    var s := Run(s0, es, s256);
    var p := s.procs[s.openedBy[sid]];
    assert Passed(p, s256) && Mintable(s.minted[p.request.code]);
  }
}
