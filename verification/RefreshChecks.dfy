/** Whom an interleaved refresh serves: every token issued goes to a request that read a live row bound to its client. */
module RefreshChecks {
  import opened Wrappers
  import opened RefreshRace

  /** The row was live at the time and bound to the client. */
  predicate IsServable(row: Row, at: int, client: string)
  {
    !row.revoked && at <= row.expiresAt && row.clientId == Some(client)
  }

  // ----- The calls -----------------------------------------------------------------------------------------

  /** The first call rotates exactly on a live row of the calling client; it turns to replay exactly on a revoked one
      whose session is there; it refuses everything else. No table changes. */
  lemma ReadsExactly(s: State, s': State, id: RequestId, hash: Hash, expiresAt: int)
    requires id in s.procs && s.procs[id].phase.Reading? && s' == Advance(s, id, hash, expiresAt)
    ensures var p, p' := s.procs[id], s'.procs[id];
            if p.presented !in s.tokens then p'.phase == Refused
            else
              var row := s.tokens[p.presented];
              && (p'.phase == Rotating(row) <==> IsServable(row, s.clock, p.client))
              && (p'.phase == Replaying(row.sessionId) <==> row.revoked && row.sessionId in s.sessions)
              && (p'.phase == Refused <==>
                    !IsServable(row, s.clock, p.client) && !(row.revoked && row.sessionId in s.sessions))
              && (p'.phase.Rotating? ==> p'.read == Some((row, s.clock)))
    ensures s' == s.(procs := s.procs[id := s'.procs[id]])
  {
  }

  /** Rotation revokes the presented row and no other, and fails when it is gone. */
  lemma RotatesExactly(s: State, s': State, id: RequestId, hash: Hash, expiresAt: int)
    requires id in s.procs && s.procs[id].phase.Rotating? && s' == Advance(s, id, hash, expiresAt)
    ensures var p := s.procs[id];
            if p.presented in s.tokens then
              && s'.procs[id].phase == Issuing(p.phase.row.sessionId)
              && s'.tokens == s.tokens[p.presented := s.tokens[p.presented].(revoked := true)]
            else s'.procs[id].phase == Refused && s'.tokens == s.tokens
    ensures s'.sessions == s.sessions && s'.used == s.used
  {
  }

  /** The insert adds one live row for the calling client under the fresh hash, unless the session is gone. */
  lemma IssuesExactly(s: State, s': State, id: RequestId, hash: Hash, expiresAt: int)
    requires id in s.procs && s.procs[id].phase.Issuing? && s' == Advance(s, id, hash, expiresAt)
    ensures var p := s.procs[id];
            if p.phase.sid in s.sessions then
              && s'.procs[id].phase == Issued(hash)
              && s'.tokens == s.tokens[hash := Row(p.phase.sid, Some(p.client), false, expiresAt)]
            else s'.procs[id].phase == Refused && s'.tokens == s.tokens
    ensures s'.sessions == s.sessions
  {
  }

  /** The replay's update revokes every row of the session and no other. */
  lemma ReplaysExactly(s: State, s': State, id: RequestId, hash: Hash, expiresAt: int)
    requires id in s.procs && s.procs[id].phase.Replaying? && s' == Advance(s, id, hash, expiresAt)
    ensures s'.tokens.Keys == s.tokens.Keys && s'.sessions == s.sessions
    ensures forall h :: h in s.tokens ==>
              s'.tokens[h] == if s.tokens[h].sessionId == s.procs[id].phase.sid then s.tokens[h].(revoked := true) else s.tokens[h]
  {
  }

  // ----- Runs ------------------------------------------------------------------------------------------------

  /** What a request that has got past its first call read. */
  predicate Served(s: State, p: Process)
  {
    match p.phase
    case Rotating(row) => p.read.Some? && p.read.value.0 == row && IsServable(row, p.read.value.1, p.client)
    case Issuing(sid) =>
      p.read.Some? && p.read.value.0.sessionId == sid && IsServable(p.read.value.0, p.read.value.1, p.client)
    case Issued(hash) =>
      && p.read.Some? && IsServable(p.read.value.0, p.read.value.1, p.client) && hash in s.used
      && (hash in s.tokens ==>
            s.tokens[hash].sessionId == p.read.value.0.sessionId && s.tokens[hash].clientId == Some(p.client))
    case _ => true
  }

  ghost predicate AllServed(s: State)
  {
    && (forall h :: h in s.tokens ==> h in s.used)
    && forall id :: id in s.procs ==> Served(s, s.procs[id])
  }

  /** A request is still served after a step that adds at most fresh rows and keeps session and client of the others. */
  lemma StaysServed(s: State, s': State, p: Process)
    requires Served(s, p) && s.used <= s'.used
    requires forall h :: h in s'.tokens && h in s.used ==>
               h in s.tokens && s'.tokens[h].sessionId == s.tokens[h].sessionId && s'.tokens[h].clientId == s.tokens[h].clientId
    ensures Served(s', p)
  {
  }

  lemma CallServes(s: State, s': State, id: RequestId, hash: Hash, expiresAt: int)
    requires AllServed(s) && id in s.procs && hash !in s.used && s' == Advance(s, id, hash, expiresAt)
    ensures AllServed(s')
  {
    assert Served(s, s.procs[id]);
    match s.procs[id].phase
    case Reading => ReadsExactly(s, s', id, hash, expiresAt);
    case Rotating(_) => RotatesExactly(s, s', id, hash, expiresAt);
    case Replaying(_) => ReplaysExactly(s, s', id, hash, expiresAt);
    case Issuing(_) => IssuesExactly(s, s', id, hash, expiresAt);
    case _ =>
    forall x | x in s'.procs ensures Served(s', s'.procs[x]) {
      if x != id { StaysServed(s, s', s.procs[x]); }
    }
  }

  lemma StepServes(s: State, s': State, e: Event)
    requires AllServed(s) && Enabled(s, e) && s' == Step(s, e)
    ensures AllServed(s')
  {
    if e.Call? {
      CallServes(s, s', e.id, e.hash, e.expiresAt);
    } else {
      forall x | x in s'.procs ensures Served(s', s'.procs[x]) {
        if x in s.procs { StaysServed(s, s', s.procs[x]); }
      }
    }
  }

  lemma {:induction false} RunServes(s: State, es: seq<Event>)
    requires AllServed(s) && ValidRun(s, es)
    ensures AllServed(Run(s, es))
    decreases |es|
  {
    if es != [] {
      StepServes(s, Step(s, es[0]), es[0]);
      RunServes(Step(s, es[0]), es[1..]);
    }
  }

  /** In every interleaving, a request that was issued a token had read a row that was then live, unexpired and bound
      to its client, and while the token exists it belongs to that row's session and to that client. */
  lemma {:induction false} IssuedToTheHolder(s0: State, es: seq<Event>, id: RequestId)
    requires Initial(s0) && ValidRun(s0, es) && id in Run(s0, es).procs && Run(s0, es).procs[id].phase.Issued?
    ensures var s := Run(s0, es);
            var p := s.procs[id];
            && p.read.Some? && IsServable(p.read.value.0, p.read.value.1, p.client)
            && (p.phase.hash in s.tokens ==>
                  && s.tokens[p.phase.hash].sessionId == p.read.value.0.sessionId
                  && s.tokens[p.phase.hash].clientId == Some(p.client))
  {
    RunServes(s0, es);
    assert Served(Run(s0, es), Run(s0, es).procs[id]);
  }
}
