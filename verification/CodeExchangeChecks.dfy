/**
 * What an authorization code is checked for after the claim, and what it turns into: the calls one by one, and what
 * every opened session owes to them in any interleaving.
 */
module CodeExchangeChecks {
  import opened Wrappers
  import opened ClientAuth
  import opened CodeExchange
  import S = CodeExchangeSafety

  // ----- The checks at the claim -------------------------------------------------------------------------

  /** Every answer of the checks that follow the claim, in their order. */
  lemma ClaimAnswers(client: Client, row: CodeRow, q: Request, s256: string -> string, answer: Option<ExchangeError>)
    requires answer == CheckClaim(client, row, q, s256)
    ensures answer == Some(ClientMismatch) <==> row.clientId != client.id
    ensures answer == Some(RedirectMismatch) <==> row.clientId == client.id && q.redirectUri != Some(row.redirectUri)
    ensures row.clientId == client.id && q.redirectUri == Some(row.redirectUri) ==>
              && (answer == Some(PkceRequired) <==> client.clientType == Public && row.codeChallenge == "")
              && (answer == Some(VerifierMissing) <==> row.codeChallenge != "" && q.codeVerifier == "")
              && (answer == Some(WrongVerifier) <==>
                    row.codeChallenge != "" && q.codeVerifier != "" && s256(q.codeVerifier) != row.codeChallenge)
              && (answer == None <==>
                    if row.codeChallenge == "" then client.clientType == Confidential
                    else q.codeVerifier != "" && s256(q.codeVerifier) == row.codeChallenge)
  {
  }

  // ----- Single calls ----------------------------------------------------------------------------------

  /** The account can sign in at `now`: with brute-force protection on, no lock reaches beyond it. */
  predicate MaySignIn(user: User, now: int)
  {
    user.bruteForceEnabled ==> user.lockedUntil.None? || user.lockedUntil.value <= now
  }

  /** The call after the claim admits the request exactly when the code's user exists and is not locked; otherwise it
      fails for that reason. It remembers what it was told, and changes no table. */
  lemma AdmittedExactly(s: State, s': State, id: RequestId, found: set<SessionId>, sid: SessionId, s256: string -> string)
    requires id in s.procs && s.procs[id].phase.Verified? && s.procs[id].row.Some?
    requires s' == Advance(s, id, found, sid, s256)
    ensures var user, p := s.procs[id].row.value.userId, s'.procs[id];
            && (p.phase == Admitted <==> user in s.db.users && MaySignIn(s.db.users[user], s.db.clock))
            && (p.phase == Failed(UserMissing) <==> user !in s.db.users)
            && (p.phase == Failed(AccountLocked) <==> user in s.db.users && !MaySignIn(s.db.users[user], s.db.clock))
            && p == s.procs[id].(phase := p.phase, lookup := p.lookup)
            && p.lookup == Some(Lookup(if user in s.db.users then Some(s.db.users[user]) else None, s.db.clock))
    ensures s' == s.(procs := s.procs[id := s'.procs[id]])
  {
  }

  /** The session row the exchange writes: the code's user, at the level the code was granted with. */
  predicate IsSessionOf(session: Session, row: CodeRow)
  {
    && session.userId == row.userId
    && session.satisfiedAcr == match row.satisfiedAcr case Some(acr) => acr case None => PasswordAcr
  }

  /** The call that opens the session adds its row under the drawn id, and touches no code and no other session. */
  lemma OpensExactly(s: State, s': State, id: RequestId, found: set<SessionId>, sid: SessionId, s256: string -> string)
    requires id in s.procs && s.procs[id].phase.Limited? && s.procs[id].row.Some?
    requires s' == Advance(s, id, found, sid, s256)
    ensures sid in s'.db.sessions && IsSessionOf(s'.db.sessions[sid], s.procs[id].row.value)
    ensures s'.db == s.db.(sessions := s.db.sessions[sid := s'.db.sessions[sid]])
    ensures s'.procs[id].session == Some(sid) && s'.procs[id].written == Some(s'.db.sessions[sid])
    ensures s'.codes == s.codes && s'.claimedBy == s.claimedBy && s'.openedBy == s.openedBy[sid := id]
  {
  }

  /** The last call issues one token for the request's own session, unless somebody deleted the session meanwhile. */
  lemma IssuesExactly(s: State, s': State, id: RequestId, found: set<SessionId>, sid: SessionId, s256: string -> string)
    requires id in s.procs && s.procs[id].phase.SessionOpen? && s.procs[id].session.Some?
    requires s' == Advance(s, id, found, sid, s256)
    ensures var own := s.procs[id].session.value;
            if own in s.db.sessions then
              s'.procs[id].phase == Completed && s'.db == s.db.(tokens := s.db.tokens + multiset{own})
            else
              s'.procs[id].phase == Failed(SessionGone) && s'.db == s.db
  {
  }

  /** The three calls of the session limit: what the query found is revoked, then deleted, and nothing else. */
  lemma EvictsExactly(s: State, s': State, id: RequestId, found: set<SessionId>, sid: SessionId, s256: string -> string)
    requires id in s.procs && (s.procs[id].phase.Admitted? || s.procs[id].phase.Evicting? || s.procs[id].phase.Deleting?)
    requires s' == Advance(s, id, found, sid, s256)
    ensures match s.procs[id].phase
            case Admitted => s'.procs[id].phase == Evicting(found) && s'.db == s.db
            case Evicting(evict) =>
              s'.procs[id].phase == Deleting(evict) && s'.db == s.db.(revoked := s.db.revoked + evict)
            case Deleting(evict) =>
              s'.procs[id].phase == Limited && s'.db == s.db.(sessions := s.db.sessions - evict)
            case _ => false
  {
  }

  /** The clean-up deletes exactly the codes that have expired, used or not. */
  lemma CleanupKeepsUnexpiredCodes(s: State, s': State, s256: string -> string)
    requires s' == Step(s, CleanupCodes, s256)
    ensures forall c :: c in s'.codes <==> c in s.codes && s.codes[c].expiresAt >= s.db.clock
    ensures forall c :: c in s'.codes ==> s'.codes[c] == s.codes[c]
    ensures s' == s.(codes := s'.codes)
  {
  }

  // ----- Runs --------------------------------------------------------------------------------------------

  /** The request claimed its row while it had not expired. */
  predicate ClaimedInTime(p: Process)
  {
    p.row.Some? && p.claimedAt.Some? && p.claimedAt.value < p.row.value.expiresAt
  }

  /** The request's own lookup found its user, who could sign in then. */
  predicate ToldToProceed(p: Process)
  {
    && p.lookup.Some? && p.lookup.value.user.Some?
    && MaySignIn(p.lookup.value.user.value, p.lookup.value.at)
  }

  predicate Checked(p: Process)
  {
    && (S.Holding(p.phase) || p.session.Some? ==> ClaimedInTime(p))
    && (S.Holding(p.phase) && !p.phase.Verified? ==> ToldToProceed(p))
    && (p.session.Some? ==>
          ToldToProceed(p) && p.row.Some? && p.written.Some? && IsSessionOf(p.written.value, p.row.value))
  }

  ghost predicate AllChecked(s: State)
  {
    forall id :: id in s.procs ==> Checked(s.procs[id])
  }

  lemma ClaimChecks(s: State, s': State, id: RequestId, p: Process, client: Client, s256: string -> string)
    requires p.phase.Authenticated? && p.session.None? && s' == Claim(s, id, p, client, s256)
    ensures id in s'.procs && s'.procs == s.procs[id := s'.procs[id]] && Checked(s'.procs[id])
  {
  }

  lemma OpenChecks(s: State, s': State, id: RequestId, p: Process, row: CodeRow, sid: SessionId)
    requires Checked(p) && p.phase.Limited? && p.row == Some(row) && s' == OpenSession(s, id, p, row, sid)
    ensures id in s'.procs && s'.procs == s.procs[id := s'.procs[id]] && Checked(s'.procs[id])
  {
  }

  lemma LocalCallChecks(db: Database, p: Process, found: set<SessionId>)
    requires Checked(p) && (p.phase.Verified? ==> p.session.None?)
    ensures Checked(LocalCall(db, p, found).1)
  {
  }

  lemma CallChecks(s: State, s': State, id: RequestId, found: set<SessionId>, sid: SessionId, s256: string -> string)
    requires id in s.procs && Checked(s.procs[id]) && s' == Advance(s, id, found, sid, s256)
    requires s.procs[id].phase.Authenticated? || s.procs[id].phase.Verified? ==> s.procs[id].session.None?
    ensures id in s'.procs && s'.procs == s.procs[id := s'.procs[id]] && Checked(s'.procs[id])
  {
    var p := s.procs[id];
    if p.phase.Authenticated? && p.client.Some? {
      ClaimChecks(s, s', id, p, p.client.value, s256);
    } else if p.phase.Limited? && p.row.Some? {
      OpenChecks(s, s', id, p, p.row.value, sid);
    } else {
      LocalCallChecks(s.db, p, found);
    }
  }

  lemma CallKeepsChecked(s: State, s': State, id: RequestId, found: set<SessionId>, sid: SessionId, s256: string -> string)
    requires S.Inv(s, s256) && AllChecked(s) && id in s.procs && s' == Advance(s, id, found, sid, s256)
    ensures AllChecked(s')
  {
    assert S.LocalOk(s.procs[id], s256);
    CallChecks(s, s', id, found, sid, s256);
    forall x | x in s'.procs ensures Checked(s'.procs[x]) {
      if x != id { assert Checked(s.procs[x]); }
    }
  }

  lemma {:induction false} RunKeepsChecked(s: State, es: seq<Event>, s256: string -> string)
    requires S.Inv(s, s256) && AllChecked(s) && ValidRun(s, es, s256)
    ensures AllChecked(Run(s, es, s256))
    decreases |es|
  {
    if es != [] {
      var s' := Step(s, es[0], s256);
      S.StepKeepsInv(s, s', es[0], s256);
      if es[0].Call? {
        CallKeepsChecked(s, s', es[0].id, es[0].found, es[0].sid, s256);
      }
      RunKeepsChecked(s', es[1..], s256);
    }
  }

  /** In every interleaving, each session opened with a code belongs to a request that claimed the code before it
      expired and whose own lookup then found the code's user present and not locked; its row was written for that
      user at the level the code was granted with. */
  lemma {:induction false} SessionsPassedTheUserCheck(s0: State, es: seq<Event>, s256: string -> string, sid: SessionId)
    requires Initial(s0) && ValidRun(s0, es, s256) && sid in Run(s0, es, s256).openedBy
    ensures var s := Run(s0, es, s256);
            && s.openedBy[sid] in s.procs
            && var p := s.procs[s.openedBy[sid]];
            && ClaimedInTime(p) && ToldToProceed(p)
            && p.request.code in s.minted && p.written.Some? && IsSessionOf(p.written.value, s.minted[p.request.code])
  {
    var s := Run(s0, es, s256);
    S.CodeYieldsOneSession(s0, es, s256);
    S.RunKeepsInv(s0, es, s256);
    RunKeepsChecked(s0, es, s256);
    assert S.OpenedOk(s, sid) && Checked(s.procs[s.openedBy[sid]]);
  }
}
