/**
 * Revocation of admin tokens: a denylist in memory and one in the database, both pruned. `issued` maps
 * every token id ever signed to its expiry, `revoked` is the history of revocations.
 */
module AdminTokens {
  import opened Wrappers

  const LIFETIME := 3600   // seconds, of a token and of a denylist entry

  type Jti = string

  /** Times in `issued` and `memory` are seconds, `clock` and `table` are milliseconds. */
  datatype State = State(clock: nat, issued: map<Jti, int>, memory: map<Jti, int>, table: map<Jti, int>, revoked: set<Jti>)

  function Seconds(ms: int): int
  {
    ms / 1000
  }

  function Now(s: State): int
  {
    Seconds(s.clock)
  }

  /** The memory entry is always replaced, the database row only created. */
  function Revoke(s: State, jti: Jti, written: bool): State
  {
    var expiresAt := Now(s) + LIFETIME;
    s.(memory := s.memory[jti := expiresAt],
       table := if written && jti !in s.table then s.table[jti := expiresAt * 1000] else s.table,
       revoked := s.revoked + {jti})
  }

  /** The entries of a denylist that have not expired by `time`. */
  function Unexpired(entries: map<Jti, int>, time: int): map<Jti, int>
  {
    map j | j in entries && entries[j] >= time :: entries[j]
  }

  function Cleanup(s: State, databaseUp: bool): State
  {
    s.(memory := Unexpired(s.memory, Now(s)),
       table := if databaseUp then Unexpired(s.table, s.clock) else s.table)
  }

  /** Signature and expiry first, then the two denylists; an unreadable database is passed over. */
  predicate Accepts(s: State, jti: Jti, databaseUp: bool)
  {
    && jti in s.issued && s.issued[jti] > Now(s)
    && !(jti in s.memory && s.memory[jti] > Now(s))
    && !(databaseUp && jti in s.table && Seconds(s.table[jti]) > Now(s))
  }

  datatype Event =
    | Tick(ms: nat)
    | Issue(jti: Jti)
    | RevokeToken(jti: Jti, written: bool)
    | Sweep(databaseUp: bool)
    | Restart

  /** Token ids are random: a new one was never used or revoked before. */
  predicate Enabled(s: State, e: Event)
  {
    e.Issue? ==> e.jti !in s.issued && e.jti !in s.revoked
  }

  function Step(s: State, e: Event): State
  {
    match e
    case Tick(ms) => s.(clock := s.clock + ms)
    case Issue(jti) => s.(issued := s.issued[jti := Now(s) + LIFETIME])
    case RevokeToken(jti, written) => Revoke(s, jti, written)
    case Sweep(databaseUp) => Cleanup(s, databaseUp)
    case Restart => s.(memory := map[])
  }

  predicate ValidRun(s: State, es: seq<Event>)
    decreases |es|
  {
    es == [] || (Enabled(s, es[0]) && ValidRun(Step(s, es[0]), es[1..]))
  }

  function Run(s: State, es: seq<Event>): State
    decreases |es|
  {
    if es == [] then s else Run(Step(s, es[0]), es[1..])
  }

  predicate Initial(s: State)
  {
    s.issued == map[] && s.memory == map[] && s.table == map[] && s.revoked == {}
  }

  // ----- Denylist entries outlive their tokens -------------------------------------------------------

  ghost predicate Inv(s: State)
  {
    && (forall j :: j in s.issued ==> s.issued[j] <= Now(s) + LIFETIME)
    && (forall j :: j in s.memory || j in s.table ==> j in s.revoked)
    && (forall j :: j in s.issued && j in s.memory ==> s.memory[j] >= s.issued[j])
    && (forall j :: j in s.issued && j in s.table ==> Seconds(s.table[j]) >= s.issued[j])
  }

  predicate Expired(s: State, j: Jti)
  {
    j in s.issued && s.issued[j] <= Now(s)
  }

  predicate InMemory(s: State, j: Jti)
  {
    j in s.issued && (Expired(s, j) || j in s.memory)
  }

  predicate InTable(s: State, j: Jti)
  {
    j in s.issued && (Expired(s, j) || j in s.table)
  }

  lemma TimePasses(a: nat, b: nat)
    ensures Seconds(a) <= Seconds(a + b)
  {
  }

  lemma StepKeepsInv(s: State, s': State, e: Event)
    requires Inv(s) && Enabled(s, e) && s' == Step(s, e)
    ensures Inv(s') && s.issued.Keys <= s'.issued.Keys && Now(s) <= Now(s')
  {
    match e
    case Tick(ms) => TimePasses(s.clock, ms);
    case RevokeToken(jti, _) => assert Seconds((Now(s) + LIFETIME) * 1000) == Now(s) + LIFETIME;
    case _ =>
  }

  lemma StepKeepsSources(s: State, s': State, e: Event, j: Jti)
    requires Inv(s) && Enabled(s, e) && s' == Step(s, e)
    ensures InMemory(s, j) && !e.Restart? ==> InMemory(s', j)
    ensures InTable(s, j) ==> InTable(s', j)
  {
    match e
    case Tick(ms) => TimePasses(s.clock, ms);
    case Sweep(_) =>
      if j in s.table && s.table[j] < s.clock {
        assert Seconds(s.table[j]) <= Now(s);
      }
    case _ =>
  }

  lemma {:induction false} RunKeepsSources(s: State, es: seq<Event>, j: Jti)
    requires Inv(s) && ValidRun(s, es)
    ensures Inv(Run(s, es))
    ensures InMemory(s, j) && Restart !in es ==> InMemory(Run(s, es), j)
    ensures InTable(s, j) ==> InTable(Run(s, es), j)
    decreases |es|
  {
    if es != [] {
      var s1 := Step(s, es[0]);
      StepKeepsInv(s, s1, es[0]);
      StepKeepsSources(s, s1, es[0], j);
      RunKeepsSources(s1, es[1..], j);
    }
  }

  /** A token revoked while it existed is never accepted again: not by a process that kept its memory,
      whatever the database does, and not by any process that can read the recorded revocation. */
  lemma {:induction false} RevokedIsNeverAccepted(s0: State, before: seq<Event>, jti: Jti, written: bool, after: seq<Event>)
    requires Initial(s0) && ValidRun(s0, before) && jti in Run(s0, before).issued
    requires ValidRun(Step(Run(s0, before), RevokeToken(jti, written)), after)
    ensures var s := Run(Step(Run(s0, before), RevokeToken(jti, written)), after);
            && (Restart !in after ==> forall databaseUp: bool :: !Accepts(s, jti, databaseUp))
            && (written ==> !Accepts(s, jti, true))
  {
    var s := Run(s0, before);
    RunKeepsSources(s0, before, jti);
    var s1 := Step(s, RevokeToken(jti, written));
    StepKeepsInv(s, s1, RevokeToken(jti, written));
    assert InMemory(s1, jti) && (written ==> InTable(s1, jti));
    RunKeepsSources(s1, after, jti);
    var end := Run(s1, after);
    assert Inv(end);
  }

  /** A token nobody revoked is accepted exactly until it expires. */
  lemma {:induction false} UnrevokedIsAcceptedUntilExpiry(s0: State, es: seq<Event>, jti: Jti, databaseUp: bool)
    requires Initial(s0) && ValidRun(s0, es)
    requires jti in Run(s0, es).issued && jti !in Run(s0, es).revoked
    ensures Accepts(Run(s0, es), jti, databaseUp) <==> Run(s0, es).issued[jti] > Now(Run(s0, es))
  {
    RunKeepsSources(s0, es, jti);
  }

  // ----- The denylists, entry by entry -----------------------------------------------------------------

  /** A revocation is in memory for an hour from now, and in the table if it could be written, unless it was there. */
  lemma RevokedExactly(s: State, s': State, jti: Jti, written: bool)
    requires s' == Step(s, RevokeToken(jti, written))
    ensures s'.memory == s.memory[jti := s.clock / 1000 + 3600]
    ensures s'.table == if written && jti !in s.table then s.table[jti := (s.clock / 1000 + 3600) * 1000] else s.table
    ensures s' == s.(memory := s'.memory, table := s'.table, revoked := s.revoked + {jti})
  {
  }

  /** A sweep drops exactly the entries that have expired, from the table only while the database is up. */
  lemma SweptExactly(s: State, s': State, databaseUp: bool)
    requires s' == Step(s, Sweep(databaseUp))
    ensures forall j :: j in s'.memory <==> j in s.memory && s.clock / 1000 <= s.memory[j]
    ensures forall j :: j in s'.memory ==> s'.memory[j] == s.memory[j]
    ensures forall j :: j in s'.table <==> j in s.table && (databaseUp ==> s.clock <= s.table[j])
    ensures forall j :: j in s'.table ==> s'.table[j] == s.table[j]
    ensures s' == s.(memory := s'.memory, table := s'.table)
  {
  }

  // ----- How long a token is accepted --------------------------------------------------------------------

  lemma {:induction false} UnrevokedStaysOff(s: State, es: seq<Event>, jti: Jti)
    requires Inv(s) && ValidRun(s, es) && jti in s.issued && jti !in s.revoked
    requires forall e :: e in es && e.RevokeToken? ==> e.jti != jti
    ensures var end := Run(s, es);
            && Inv(end) && jti in end.issued && end.issued[jti] == s.issued[jti] && jti !in end.revoked
    decreases |es|
  {
    if es != [] {
      StepKeepsInv(s, Step(s, es[0]), es[0]);
      assert es[0] in es;
      UnrevokedStaysOff(Step(s, es[0]), es[1..], jti);
    }
  }

  /** A token signed now and never revoked is accepted for exactly 3600 seconds, counted in whole seconds, through
      every run of other tokens' events, sweeps and restarts, whether or not the database can be read. */
  lemma {:induction false} SignedTokenLivesAnHour(s0: State, before: seq<Event>, jti: Jti, es: seq<Event>, databaseUp: bool)
    requires Initial(s0) && ValidRun(s0, before) && Enabled(Run(s0, before), Issue(jti))
    requires ValidRun(Step(Run(s0, before), Issue(jti)), es) && forall e :: e in es && e.RevokeToken? ==> e.jti != jti
    ensures var signed := Run(s0, before);
            var end := Run(Step(signed, Issue(jti)), es);
            Accepts(end, jti, databaseUp) <==> end.clock / 1000 < signed.clock / 1000 + 3600
  {
    RunKeepsSources(s0, before, jti);
    var s := Run(s0, before);
    StepKeepsInv(s, Step(s, Issue(jti)), Issue(jti));
    UnrevokedStaysOff(Step(s, Issue(jti)), es, jti);
  }
}
