/**
 * The policy table behind its 60-second cache: what the cached evaluation returns in every run. The
 * history variable `past` keeps the table at every moment of the run.
 */
module PolicyCache {
  import opened Wrappers
  import opened Ordering
  import opened Json
  import E = PolicyEngine

  const POLICY_CACHE_TTL := 60 * 1000   // milliseconds

  datatype Stored = Stored(realmId: string, policy: E.Policy)

  /** The rows in creation order. */
  type Table = seq<Stored>

  datatype Entry = Entry(policies: seq<E.Policy>, expiresAt: int)

  /** Redis: the policy lists by realm, each with its expiry. */
  datatype Redis = Redis(available: bool, lists: map<string, Entry>)

  datatype Moment = Moment(clock: int, table: Table)

  datatype State = State(clock: int, table: Table, redis: Redis, past: seq<Moment>)

  // ----- Table queries -----------------------------------------------------------------------------

  function OfRealm(table: Table, realmId: string): seq<E.Policy>
  {
    if table == [] then []
    else
      var rest, last := OfRealm(table[..|table| - 1], realmId), table[|table| - 1];
      if last.realmId == realmId then rest + [last.policy] else rest
  }

  /** Ordered by falling priority, then by creation. */
  function PolicyList(table: Table, realmId: string): seq<E.Policy>
  {
    SortBy(OfRealm(table, realmId), E.ByPriority())
  }

  /** The rows with policy `id` in the realm; ids are unique. */
  function IndexOf(table: Table, realmId: string, id: string): (r: Option<nat>)
    ensures r.Some? ==> r.value < |table| && table[r.value].realmId == realmId && table[r.value].policy.id == id
  {
    if table == [] then None
    else if table[|table| - 1].realmId == realmId && table[|table| - 1].policy.id == id then Some(|table| - 1)
    else IndexOf(table[..|table| - 1], realmId, id)
  }

  predicate NameTaken(table: Table, realmId: string, name: string)
  {
    exists i :: 0 <= i < |table| && table[i].realmId == realmId && table[i].policy.name == name
  }

  // ----- Redis -------------------------------------------------------------------------------------

  function GetList(r: Redis, realmId: string, now: int): Option<seq<E.Policy>>
  {
    if r.available && realmId in r.lists && now < r.lists[realmId].expiresAt then Some(r.lists[realmId].policies) else None
  }

  function SetList(r: Redis, realmId: string, policies: seq<E.Policy>, now: int): Redis
  {
    if r.available then r.(lists := r.lists[realmId := Entry(policies, now + POLICY_CACHE_TTL)]) else r
  }

  function DeleteList(r: Redis, realmId: string): Redis
  {
    if r.available then r.(lists := r.lists - {realmId}) else r
  }

  // ----- Operations --------------------------------------------------------------------------------

  datatype Error = Conflict | NotFound

  function WriteTable(s: State, table: Table, realmId: string): State
  {
    State(s.clock, table, DeleteList(s.redis, realmId), s.past + [Moment(s.clock, table)])
  }

  function CreatePolicy(s: State, realmId: string, p: E.Policy): (State, Result<E.Policy, Error>)
  {
    if NameTaken(s.table, realmId, p.name) then (s, Err(Conflict))
    else (WriteTable(s, s.table + [Stored(realmId, p)], realmId), Ok(p))
  }

  /** `p` is the row after the requested fields have been replaced. */
  function UpdatePolicy(s: State, realmId: string, id: string, p: E.Policy): (State, Result<E.Policy, Error>)
  {
    match IndexOf(s.table, realmId, id)
    case None => (s, Err(NotFound))
    case Some(i) => (WriteTable(s, s.table[i := Stored(realmId, p)], realmId), Ok(p))
  }

  function DeletePolicy(s: State, realmId: string, id: string): (State, Result<(), Error>)
  {
    match IndexOf(s.table, realmId, id)
    case None => (s, Err(NotFound))
    case Some(i) => (WriteTable(s, s.table[..i] + s.table[i + 1..], realmId), Ok(()))
  }

  function GetCachedPolicies(s: State, realmId: string): (State, seq<E.Policy>)
  {
    match GetList(s.redis, realmId, s.clock)
    case Some(policies) => (s, policies)
    case None =>
      var policies := PolicyList(s.table, realmId);
      (s.(redis := SetList(s.redis, realmId, policies, s.clock)), policies)
  }

  /** With a client id, the policies of every client or of that client; an empty id is no client id. */
  function ForClient(ps: seq<E.Policy>, clientId: string): seq<E.Policy>
  {
    if clientId == "" then ps else Scoped(ps, clientId)
  }

  function Scoped(ps: seq<E.Policy>, clientId: string): seq<E.Policy>
  {
    if ps == [] then []
    else
      var rest, last := Scoped(ps[..|ps| - 1], clientId), ps[|ps| - 1];
      if last.clientId.None? || last.clientId == Some(clientId) then rest + [last] else rest
  }

  function Evaluate(s: State, realmId: string, clientId: string, context: Json, lib: E.Library): (State, E.Evaluation)
  {
    var (s', policies) := GetCachedPolicies(s, realmId);
    (s', E.Evaluate(ForClient(policies, clientId), context, lib))
  }

  // ----- Runs --------------------------------------------------------------------------------------

  datatype Event =
    | Tick(ms: nat)
    | Create(realmId: string, policy: E.Policy)
    | Update(realmId: string, id: string, policy: E.Policy)
    | Remove(realmId: string, id: string)
    | Query(realmId: string)
    | Expire(realmId: string)
    | Toggle

  function Step(s: State, e: Event): State
  {
    match e
    case Tick(ms) => State(s.clock + ms, s.table, s.redis, s.past + [Moment(s.clock + ms, s.table)])
    case Create(realmId, p) => CreatePolicy(s, realmId, p).0
    case Update(realmId, id, p) => UpdatePolicy(s, realmId, id, p).0
    case Remove(realmId, id) => DeletePolicy(s, realmId, id).0
    case Query(realmId) => GetCachedPolicies(s, realmId).0
    case Expire(realmId) => s.(redis := s.redis.(lists := s.redis.lists - {realmId}))
    case Toggle => s.(redis := s.redis.(available := !s.redis.available))
  }

  function Run(s: State, es: seq<Event>): State
  {
    if es == [] then s else Step(Run(s, es[..|es| - 1]), es[|es| - 1])
  }

  predicate Initial(s: State)
  {
    s.redis.lists == map[] && s.past == [Moment(s.clock, s.table)]
  }

  // ----- Available: the cache is invisible -----------------------------------------------------------

  ghost predicate Fresh(s: State)
  {
    && s.redis.available
    && forall r :: r in s.redis.lists && s.clock < s.redis.lists[r].expiresAt ==> s.redis.lists[r].policies == PolicyList(s.table, r)
  }

  lemma {:induction false} OtherRealmUnchanged(t: Table, u: Table, realmId: string, r: string)
    requires r != realmId && |t| == |u|
    requires forall i :: 0 <= i < |t| ==> t[i] == u[i] || (t[i].realmId == realmId && u[i].realmId == realmId)
    ensures OfRealm(t, r) == OfRealm(u, r)
  {
    if t != [] {
      OtherRealmUnchanged(t[..|t| - 1], u[..|u| - 1], realmId, r);
    }
  }

  lemma {:induction false} OfRealmAppend(t: Table, u: Table, r: string)
    ensures OfRealm(t + u, r) == OfRealm(t, r) + OfRealm(u, r)
  {
    if u == [] {
      assert t + u == t;
    } else {
      var n := |u| - 1;
      assert (t + u)[..|t| + n] == t + u[..n];
      OfRealmAppend(t, u[..n], r);
    }
  }

  lemma RemovalLeavesOtherRealms(t: Table, i: nat, r: string)
    requires i < |t| && t[i].realmId != r
    ensures OfRealm(t[..i] + t[i + 1..], r) == OfRealm(t, r)
  {
    assert t == t[..i] + [t[i]] + t[i + 1..];
    OfRealmAppend(t[..i] + [t[i]], t[i + 1..], r);
    OfRealmAppend(t[..i], [t[i]], r);
    OfRealmAppend(t[..i], t[i + 1..], r);
    assert OfRealm([t[i]], r) == [];
  }

  lemma WriteKeepsFresh(s: State, table: Table, realmId: string)
    requires Fresh(s) && forall r :: r != realmId ==> OfRealm(table, r) == OfRealm(s.table, r)
    ensures Fresh(WriteTable(s, table, realmId))
  {
  }

  lemma StepKeepsFresh(s: State, e: Event)
    requires Fresh(s) && !e.Toggle?
    ensures Fresh(Step(s, e))
  {
    match e
    case Create(realmId, p) =>
      forall r | r != realmId ensures OfRealm(s.table + [Stored(realmId, p)], r) == OfRealm(s.table, r) {
        OfRealmAppend(s.table, [Stored(realmId, p)], r);
        assert OfRealm([Stored(realmId, p)], r) == [];
      }
      if !NameTaken(s.table, realmId, p.name) {
        WriteKeepsFresh(s, s.table + [Stored(realmId, p)], realmId);
      }
    case Update(realmId, id, p) =>
      var i := IndexOf(s.table, realmId, id);
      if i.Some? {
        var table := s.table[i.value := Stored(realmId, p)];
        forall r | r != realmId ensures OfRealm(table, r) == OfRealm(s.table, r) {
          OtherRealmUnchanged(table, s.table, realmId, r);
        }
        WriteKeepsFresh(s, table, realmId);
      }
    case Remove(realmId, id) =>
      var i := IndexOf(s.table, realmId, id);
      if i.Some? {
        var table := s.table[..i.value] + s.table[i.value + 1..];
        forall r | r != realmId ensures OfRealm(table, r) == OfRealm(s.table, r) {
          RemovalLeavesOtherRealms(s.table, i.value, r);
        }
        WriteKeepsFresh(s, table, realmId);
      }
    case _ =>
  }

  lemma {:induction false} RunKeepsFresh(s: State, es: seq<Event>)
    requires Fresh(s) && Toggle !in es
    ensures Fresh(Run(s, es))
  {
    if es != [] {
      RunKeepsFresh(s, es[..|es| - 1]);
      StepKeepsFresh(Run(s, es[..|es| - 1]), es[|es| - 1]);
    }
  }

  /** With Redis available, in every run of creations, updates, deletions, evaluations and expiries,
      an evaluation returns what direct evaluation of the current table gives. */
  lemma {:induction false} CachedEqualsDirect(s0: State, es: seq<Event>, realmId: string, clientId: string, context: Json, lib: E.Library)
    requires Initial(s0) && s0.redis.available && Toggle !in es
    ensures var s := Run(s0, es);
            Evaluate(s, realmId, clientId, context, lib).1 == E.Evaluate(ForClient(PolicyList(s.table, realmId), clientId), context, lib)
  {
    RunKeepsFresh(s0, es);
  }

  // ----- Coming and going: never older than a minute -------------------------------------------------

  /** `policies` was the realm's list at some moment within the last minute. */
  ghost predicate WasCurrent(s: State, realmId: string, policies: seq<E.Policy>)
  {
    exists k :: 0 <= k < |s.past| && CurrentAt(s, k, realmId, policies)
  }

  predicate CurrentAt(s: State, k: nat, realmId: string, policies: seq<E.Policy>)
    requires k < |s.past|
  {
    s.clock - POLICY_CACHE_TTL < s.past[k].clock <= s.clock && policies == PolicyList(s.past[k].table, realmId)
  }

  /** The moment an entry was filled at. */
  predicate FilledAt(s: State, k: nat, realmId: string)
    requires k < |s.past| && realmId in s.redis.lists
  {
    var entry := s.redis.lists[realmId];
    s.past[k].clock == entry.expiresAt - POLICY_CACHE_TTL && entry.policies == PolicyList(s.past[k].table, realmId)
  }

  ghost predicate Traced(s: State)
  {
    && s.past != [] && s.past[|s.past| - 1] == Moment(s.clock, s.table)
    && (forall k :: 0 <= k < |s.past| ==> s.past[k].clock <= s.clock)
    && forall r :: r in s.redis.lists ==> FilledOnce(s, r)
  }

  ghost predicate FilledOnce(s: State, realmId: string)
    requires realmId in s.redis.lists
  {
    exists k :: 0 <= k < |s.past| && FilledAt(s, k, realmId)
  }

  /** An entry that was there before, or one filled from the current table. */
  lemma EntryStaysTraced(s: State, s': State, r: string)
    requires Traced(s) && r in s'.redis.lists && s.past <= s'.past
    requires (r in s.redis.lists && s'.redis.lists[r] == s.redis.lists[r])
             || s'.redis.lists[r] == Entry(PolicyList(s.table, r), s.clock + POLICY_CACHE_TTL)
    ensures FilledOnce(s', r)
  {
    if r in s.redis.lists && s'.redis.lists[r] == s.redis.lists[r] {
      var k :| 0 <= k < |s.past| && FilledAt(s, k, r);
      assert FilledAt(s', k, r);
    } else {
      assert FilledAt(s', |s.past| - 1, r);
    }
  }

  lemma StepFillsOrKeeps(s: State, s': State, e: Event, r: string)
    requires s' == Step(s, e) && r in s'.redis.lists
    ensures (r in s.redis.lists && s'.redis.lists[r] == s.redis.lists[r])
         || s'.redis.lists[r] == Entry(PolicyList(s.table, r), s.clock + POLICY_CACHE_TTL)
  {
  }

  lemma StepKeepsTraced(s: State, s': State, e: Event)
    requires Traced(s) && s' == Step(s, e)
    ensures Traced(s')
  {
    assert s.past <= s'.past;
    forall r | r in s'.redis.lists ensures FilledOnce(s', r) {
      StepFillsOrKeeps(s, s', e, r);
      EntryStaysTraced(s, s', r);
    }
  }

  lemma {:induction false} RunKeepsTraced(s: State, es: seq<Event>)
    requires Traced(s)
    ensures Traced(Run(s, es))
  {
    if es != [] {
      var before := Run(s, es[..|es| - 1]);
      RunKeepsTraced(s, es[..|es| - 1]);
      StepKeepsTraced(before, Step(before, es[|es| - 1]), es[|es| - 1]);
    }
  }

  /** Even when Redis comes and goes, any list served was the table's list at some moment within the
      last minute. */
  lemma {:induction false} ServedListIsAtMostAMinuteOld(s0: State, es: seq<Event>, realmId: string)
    requires Initial(s0)
    ensures WasCurrent(Run(s0, es), realmId, GetCachedPolicies(Run(s0, es), realmId).1)
  {
    RunKeepsTraced(s0, es);
    var s := Run(s0, es);
    var served := GetCachedPolicies(s, realmId).1;
    if GetList(s.redis, realmId, s.clock).Some? {
      var k :| 0 <= k < |s.past| && FilledAt(s, k, realmId);
      assert CurrentAt(s, k, realmId, served);
    } else {
      assert CurrentAt(s, |s.past| - 1, realmId, served);
    }
  }
}
