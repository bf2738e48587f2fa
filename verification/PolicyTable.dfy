/** What a write to the policy table changes in the lists that are served afterwards. */
module PolicyTable {
  import opened Wrappers
  import opened Ordering
  import opened Json
  import E = PolicyEngine
  import opened PolicyCache

  // ----- The client filter -------------------------------------------------------------------------------

  /** The policy is for every client or for this one; without a client id every policy counts. */
  predicate IsFor(p: E.Policy, clientId: string)
  {
    clientId == "" || p.clientId == None || p.clientId == Some(clientId)
  }

  /** The filter keeps exactly those policies, in their order: it goes through a list one by one. */
  lemma {:induction false} ForClientExactly(ps: seq<E.Policy>, p: E.Policy, clientId: string)
    ensures ForClient([], clientId) == []
    ensures ForClient(ps + [p], clientId) == ForClient(ps, clientId) + (if IsFor(p, clientId) then [p] else [])
    ensures p in ForClient(ps, clientId) <==> p in ps && IsFor(p, clientId)
  {
    assert (ps + [p])[..|ps|] == ps;
    ForClientMembers(ps, p, clientId);
  }

  lemma {:induction false} ForClientMembers(ps: seq<E.Policy>, p: E.Policy, clientId: string)
    ensures p in ForClient(ps, clientId) <==> p in ps && IsFor(p, clientId)
  {
    if ps != [] {
      var rest, last := ps[..|ps| - 1], ps[|ps| - 1];
      assert ps == rest + [last];
      ForClientMembers(rest, p, clientId);
    }
  }

  // ----- The list of a realm -------------------------------------------------------------------------------

  lemma {:induction false} OfRealmMembers(table: Table, realmId: string, p: E.Policy)
    ensures p in OfRealm(table, realmId) <==> Stored(realmId, p) in table
  {
    if table != [] {
      var rest, last := table[..|table| - 1], table[|table| - 1];
      assert table == rest + [last];
      OfRealmMembers(rest, realmId, p);
    }
  }

  /** The list served from the table: the realm's policies, each as often as it is stored, by falling priority. */
  lemma ListExactly(table: Table, realmId: string, p: E.Policy)
    ensures p in PolicyList(table, realmId) <==> Stored(realmId, p) in table
    ensures multiset(PolicyList(table, realmId)) == multiset(OfRealm(table, realmId))
    ensures forall i, j :: 0 <= i < j < |PolicyList(table, realmId)| ==>
              PolicyList(table, realmId)[i].priority >= PolicyList(table, realmId)[j].priority
  {
    OfRealmMembers(table, realmId, p);
    SortByKeepsMembers(OfRealm(table, realmId), E.ByPriority());
    SortBySorts(OfRealm(table, realmId), E.ByPriority());
    var list := PolicyList(table, realmId);
    forall i, j | 0 <= i < j < |list| ensures list[i].priority >= list[j].priority {
      assert E.ByPriority()(list[i]) <= E.ByPriority()(list[j]);
    }
  }

  // ----- Writes --------------------------------------------------------------------------------------------

  /** Policy ids are unique. */
  ghost predicate UniqueIds(table: Table)
  {
    forall i, j :: 0 <= i < j < |table| ==> table[i].policy.id != table[j].policy.id
  }

  lemma {:induction false} IndexFound(table: Table, realmId: string, id: string)
    ensures IndexOf(table, realmId, id).Some? <==> exists p :: Stored(realmId, p) in table && p.id == id
  {
    if table != [] {
      var rest, last := table[..|table| - 1], table[|table| - 1];
      assert table == rest + [last];
      IndexFound(rest, realmId, id);
      assert last == Stored(last.realmId, last.policy);
    }
  }

  /** A creation is refused exactly when the realm has a policy of that name; otherwise it adds the row. */
  lemma CreatedExactly(s: State, realmId: string, p: E.Policy, s': State, r: Result<E.Policy, Error>, x: Stored)
    requires (s', r) == CreatePolicy(s, realmId, p)
    ensures r == Err(Conflict) <==> exists q :: Stored(realmId, q) in s.table && q.name == p.name
    ensures r.Err? ==> s' == s
    ensures r.Ok? ==> r.value == p && (x in s'.table <==> x in s.table || x == Stored(realmId, p))
  {
    if NameTaken(s.table, realmId, p.name) {
      var i :| 0 <= i < |s.table| && s.table[i].realmId == realmId && s.table[i].policy.name == p.name;
      assert Stored(realmId, s.table[i].policy) in s.table;
    }
  }

  /** An update is refused exactly when the realm has no policy with that id; otherwise it replaces that row. */
  lemma UpdatedExactly(s: State, realmId: string, id: string, p: E.Policy, s': State, r: Result<E.Policy, Error>, x: Stored)
    requires UniqueIds(s.table) && (s', r) == UpdatePolicy(s, realmId, id, p)
    ensures r == Err(NotFound) <==> forall q :: Stored(realmId, q) in s.table ==> q.id != id
    ensures r.Err? ==> s' == s
    ensures r.Ok? ==> r.value == p && (x in s'.table <==> (x in s.table && x.policy.id != id) || x == Stored(realmId, p))
  {
    IndexFound(s.table, realmId, id);
    var at := IndexOf(s.table, realmId, id);
    if at.Some? {
      var i := at.value;
      assert s'.table[i] == Stored(realmId, p);
      if x in s.table && x.policy.id != id {
        var j :| 0 <= j < |s.table| && s.table[j] == x;
        assert s'.table[j] == x;
      }
      if x in s'.table && x != Stored(realmId, p) {
        var j :| 0 <= j < |s'.table| && s'.table[j] == x;
        assert s.table[j] == x && j != i;
      }
    }
  }

  /** A deletion is refused exactly when the realm has no policy with that id; otherwise it removes that row. */
  lemma DeletedExactly(s: State, realmId: string, id: string, s': State, r: Result<(), Error>, x: Stored)
    requires UniqueIds(s.table) && (s', r) == DeletePolicy(s, realmId, id)
    ensures r == Err(NotFound) <==> forall q :: Stored(realmId, q) in s.table ==> q.id != id
    ensures r.Err? ==> s' == s
    ensures r.Ok? ==> (x in s'.table <==> x in s.table && x.policy.id != id)
  {
    IndexFound(s.table, realmId, id);
    var at := IndexOf(s.table, realmId, id);
    if at.Some? {
      RemovedExactly(s.table, at.value, x);
    }
  }

  lemma RemovedExactly(table: Table, i: nat, x: Stored)
    requires UniqueIds(table) && i < |table|
    ensures x in table[..i] + table[i + 1..] <==> x in table && x.policy.id != table[i].policy.id
  {
    var rest := table[..i] + table[i + 1..];
    if x in table && x.policy.id != table[i].policy.id {
      var j :| 0 <= j < |table| && table[j] == x;
      assert rest[if j < i then j else j - 1] == x;
    }
    if x in rest {
      var j :| 0 <= j < |rest| && rest[j] == x;
      assert table[if j < i then j else j + 1] == x;
    }
  }

  // ----- Served at once --------------------------------------------------------------------------------------

  /** The list a read gets now. */
  function Served(s: State, realmId: string): seq<E.Policy>
  {
    GetCachedPolicies(s, realmId).1
  }

  /** With Redis available, every read sees the current table, however it was reached: in any run, a policy is served
      for a realm exactly when it is stored there, higher priorities first. */
  lemma {:induction false} ServedExactly(s0: State, es: seq<Event>, realmId: string, p: E.Policy)
    requires Initial(s0) && s0.redis.available && Toggle !in es
    ensures var s := Run(s0, es);
            && (p in Served(s, realmId) <==> Stored(realmId, p) in s.table)
            && forall i, j :: 0 <= i < j < |Served(s, realmId)| ==>
                 Served(s, realmId)[i].priority >= Served(s, realmId)[j].priority
  {
    RunKeepsFresh(s0, es);
    ListExactly(Run(s0, es).table, realmId, p);
  }

  /** The next event neither stores the policy again nor gives another row its id. */
  predicate Spares(e: Event, id: string)
  {
    match e
    case Create(_, p) => p.id != id
    case Update(_, _, p) => p.id != id
    case Toggle => false
    case _ => true
  }

  ghost predicate IsGone(s: State, id: string)
  {
    forall x :: x in s.table ==> x.policy.id != id
  }

  lemma StepKeepsGone(s: State, s': State, e: Event, id: string)
    requires IsGone(s, id) && Spares(e, id) && s' == Step(s, e)
    ensures IsGone(s', id)
  {
  }

  lemma {:induction false} RunKeepsGone(s: State, es: seq<Event>, id: string)
    requires Fresh(s) && IsGone(s, id) && forall e :: e in es ==> Spares(e, id)
    ensures Fresh(Run(s, es)) && IsGone(Run(s, es), id)
  {
    if es != [] {
      var before, e := es[..|es| - 1], es[|es| - 1];
      assert e in es && forall x :: x in before ==> x in es;
      RunKeepsGone(s, before, id);
      StepKeepsFresh(Run(s, before), e);
      StepKeepsGone(Run(s, before), Run(s, es), e, id);
    }
  }

  /** With Redis available, a deleted policy is never served again, to no realm, whatever else is written, read or
      expires in the cache. */
  lemma {:induction false} DeletedIsNeverServed(s: State, realmId: string, id: string, es: seq<Event>, r: string, p: E.Policy)
    requires Fresh(s) && UniqueIds(s.table) && DeletePolicy(s, realmId, id).1.Ok?
    requires forall e :: e in es ==> Spares(e, id)
    ensures p in Served(Run(DeletePolicy(s, realmId, id).0, es), r) ==> p.id != id
  {
    var s' := DeletePolicy(s, realmId, id).0;
    StepKeepsFresh(s, Remove(realmId, id));
    forall x | x in s'.table ensures x.policy.id != id {
      DeletedExactly(s, realmId, id, s', DeletePolicy(s, realmId, id).1, x);
    }
    RunKeepsGone(s', es, id);
    ListExactly(Run(s', es).table, r, p);
  }

  /** A list that was read is in the cache for a minute and no longer, while Redis is available. */
  lemma FilledForAMinute(s: State, realmId: string, ms: nat)
    requires s.redis.available && GetList(s.redis, realmId, s.clock).None?
    ensures var (s', list) := GetCachedPolicies(s, realmId);
            GetList(s'.redis, realmId, s.clock + ms) == if ms < 60000 then Some(list) else None
  {
  }
}
