/** The consent operations as they run, over the consent rows, the history and the pending requests. */
module ConsentService {
  import opened Wrappers
  import C = Consent

  class ConsentService {
    var clock: int
    var consents: map<C.Pair, seq<string>>
    var history: seq<C.Entry>
    var pending: map<string, C.Pending>
    const categories: seq<C.Category>

    function State(): C.State
      reads this
    {
      C.State(clock, consents, history)
    }

    constructor (now: int, categories: seq<C.Category>)
      ensures State() == C.State(now, map[], []) && pending == map[] && this.categories == categories
    {
      clock, consents, history, pending := now, map[], [], map[];
      this.categories := categories;
    }

    method HasConsent(userId: string, clientId: string, requestedScopes: seq<string>) returns (r: bool)
      ensures r <==> C.HasConsent(State(), userId, clientId, requestedScopes)
    {
      if (userId, clientId) !in consents {
        return false;
      }
      r := C.Covers(consents[(userId, clientId)], requestedScopes);
    }

    method GrantConsent(realmId: string, userId: string, clientId: string, scopes: seq<string>,
                        policyVersion: Option<string>, written: bool)
      modifies `consents, `history
      ensures State() == C.GrantConsent(old(State()), userId, clientId, scopes, policyVersion,
                                        C.ResolveCategoryKeys(categories, realmId, scopes), written)
    {
      var action := if (userId, clientId) in consents then C.Updated else C.Granted;
      consents := consents[(userId, clientId) := scopes];
      RecordConsentHistory(realmId, userId, clientId, action, scopes, policyVersion, written);
    }

    method RevokeConsent(realmId: string, userId: string, clientId: string, written: bool)
      modifies `consents, `history
      ensures var scopes := old(C.Lookup(State(), userId, clientId)).GetOr([]);
              State() == C.RevokeConsent(old(State()), userId, clientId,
                                         C.ResolveCategoryKeys(categories, realmId, scopes), written)
    {
      var existing := C.Lookup(State(), userId, clientId);
      consents := consents - {(userId, clientId)};
      if existing.Some? {
        RecordConsentHistory(realmId, userId, clientId, C.Revoked, existing.value, None, written);
      } else {
        assert consents == old(consents);
      }
    }

    method RecordConsentHistory(realmId: string, userId: string, clientId: string, action: C.Action,
                                scopes: seq<string>, policyVersion: Option<string>, written: bool)
      modifies `history
      ensures history == C.Record(old(history),
                                  C.Entry(userId, clientId, action, scopes, policyVersion,
                                          C.ResolveCategoryKeys(categories, realmId, scopes), clock), written)
    {
      var categoryKeys := C.ResolveCategoryKeys(categories, realmId, scopes);
      if written {
        history := history + [C.Entry(userId, clientId, action, scopes, policyVersion, categoryKeys, clock)];
      }
    }

    method GetConsentRequest(tokenHash: string) returns (r: Option<string>)
      modifies `pending
      ensures (pending, r) == C.TakeRequest(old(pending), tokenHash, clock)
    {
      if tokenHash !in pending || !pending[tokenHash].isConsentRequest {
        return None;
      }
      var action := pending[tokenHash];
      pending := pending - {tokenHash};
      if action.expiresAt < clock {
        return None;
      }
      return Some(action.data);
    }
  }
}
