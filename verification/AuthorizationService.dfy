/** The policy operations as they run: writes drop the cached list, reads fill it. */
module AuthorizationService {
  import opened Wrappers
  import opened Json
  import E = PolicyEngine
  import C = PolicyCache

  /** The policy lists in Redis. Every method is a no-op while Redis is unavailable. */
  class CacheService {
    var available: bool
    var lists: map<string, C.Entry>

    function Redis(): C.Redis
      reads this
    {
      C.Redis(available, lists)
    }

    constructor (available: bool)
      ensures Redis() == C.Redis(available, map[])
    {
      this.available, lists := available, map[];
    }

    method GetList(realmId: string, now: int) returns (r: Option<seq<E.Policy>>)
      ensures r == C.GetList(Redis(), realmId, now)
    {
      if !available || realmId !in lists || lists[realmId].expiresAt <= now {
        return None;
      }
      return Some(lists[realmId].policies);
    }

    method SetList(realmId: string, policies: seq<E.Policy>, now: int)
      modifies `lists
      ensures Redis() == C.SetList(old(Redis()), realmId, policies, now)
    {
      if !available {
        return;
      }
      lists := lists[realmId := C.Entry(policies, now + C.POLICY_CACHE_TTL)];
    }

    method Invalidate(realmId: string)
      modifies `lists
      ensures Redis() == C.DeleteList(old(Redis()), realmId)
    {
      if !available {
        return;
      }
      lists := lists - {realmId};
    }
  }

  class AuthorizationService {
    const cache: CacheService
    var clock: int
    var table: C.Table
    ghost var past: seq<C.Moment>

    ghost function State(): C.State
      reads this, cache
    {
      C.State(clock, table, cache.Redis(), past)
    }

    constructor (cache: CacheService, now: int, table: C.Table)
      ensures this.cache == cache
      ensures State() == C.State(now, table, cache.Redis(), [C.Moment(now, table)])
    {
      this.cache, clock, this.table, past := cache, now, table, [C.Moment(now, table)];
    }

    method CreatePolicy(realmId: string, p: E.Policy) returns (r: Result<E.Policy, C.Error>)
      modifies this, cache
      ensures (State(), r) == C.CreatePolicy(old(State()), realmId, p)
    {
      if C.NameTaken(table, realmId, p.name) {
        return Err(C.Conflict);
      }
      table := table + [C.Stored(realmId, p)];
      past := past + [C.Moment(clock, table)];
      cache.Invalidate(realmId);
      return Ok(p);
    }

    method UpdatePolicy(realmId: string, id: string, p: E.Policy) returns (r: Result<E.Policy, C.Error>)
      modifies this, cache
      ensures (State(), r) == C.UpdatePolicy(old(State()), realmId, id, p)
    {
      var i := C.IndexOf(table, realmId, id);
      if i.None? {
        return Err(C.NotFound);
      }
      table := table[i.value := C.Stored(realmId, p)];
      past := past + [C.Moment(clock, table)];
      cache.Invalidate(realmId);
      return Ok(p);
    }

    method DeletePolicy(realmId: string, id: string) returns (r: Result<(), C.Error>)
      modifies this, cache
      ensures (State(), r) == C.DeletePolicy(old(State()), realmId, id)
    {
      var i := C.IndexOf(table, realmId, id);
      if i.None? {
        return Err(C.NotFound);
      }
      table := table[..i.value] + table[i.value + 1..];
      past := past + [C.Moment(clock, table)];
      cache.Invalidate(realmId);
      return Ok(());
    }

    method GetCachedPolicies(realmId: string) returns (policies: seq<E.Policy>)
      modifies cache
      ensures (State(), policies) == C.GetCachedPolicies(old(State()), realmId)
    {
      var cached := cache.GetList(realmId, clock);
      if cached.Some? {
        return cached.value;
      }
      policies := C.PolicyList(table, realmId);
      cache.SetList(realmId, policies, clock);
    }

    method Evaluate(realmId: string, clientId: string, context: Json, lib: E.Library) returns (result: E.Evaluation)
      modifies cache
      ensures (State(), result) == C.Evaluate(old(State()), realmId, clientId, context, lib)
    {
      var policies := GetCachedPolicies(realmId);
      var applicable := C.ForClient(policies, clientId);
      result := E.EvaluatePolicies(applicable, context, lib);
    }
  }
}
