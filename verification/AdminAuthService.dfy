/** Admin sessions as they run: signing, revoking, pruning and validating. */
module AdminAuthService {
  import T = AdminTokens

  class AdminAuthService {
    var clock: nat
    var revokedTokens: map<T.Jti, int>
    var table: map<T.Jti, int>
    ghost var issued: map<T.Jti, int>
    ghost var revoked: set<T.Jti>

    ghost function State(): T.State
      reads this
    {
      T.State(clock, issued, revokedTokens, table, revoked)
    }

    constructor (now: nat)
      ensures T.Initial(State()) && State().clock == now
    {
      clock, revokedTokens, table, issued, revoked := now, map[], map[], map[], {};
    }

    /** The expiry of the signed token. */
    method SignAdminToken(jti: T.Jti) returns (exp: int)
      modifies `issued
      ensures State() == T.Step(old(State()), T.Issue(jti)) && exp == State().issued[jti]
    {
      exp := clock / 1000 + T.LIFETIME;
      issued := issued[jti := exp];
    }

    method RevokeToken(jti: T.Jti, written: bool)
      modifies this
      ensures State() == T.Revoke(old(State()), jti, written)
    {
      var expiresAt := clock / 1000 + T.LIFETIME;
      revokedTokens := revokedTokens[jti := expiresAt];
      revoked := revoked + {jti};
      if written && jti !in table {
        table := table[jti := expiresAt * 1000];
      }
    }

    /** The loop over the in-memory entries, then the database sweep. */
    method Cleanup(databaseUp: bool)
      modifies `revokedTokens, `table
      ensures State() == T.Cleanup(old(State()), databaseUp)
    {
      var now := clock / 1000;
      var rest := revokedTokens.Keys;
      while rest != {}
        invariant table == old(table)
        invariant rest <= revokedTokens.Keys <= old(revokedTokens).Keys
        invariant forall j :: j in old(revokedTokens) ==>
                    (j in revokedTokens <==> j in rest || old(revokedTokens)[j] >= now)
        invariant forall j :: j in revokedTokens ==> revokedTokens[j] == old(revokedTokens)[j]
        decreases rest
      {
        var jti :| jti in rest;
        if revokedTokens[jti] < now {
          revokedTokens := revokedTokens - {jti};
        }
        rest := rest - {jti};
      }
      assert revokedTokens == T.Unexpired(old(revokedTokens), now);
      if databaseUp {
        table := T.Unexpired(table, clock);
      }
    }

    /** `exp` is the expiry the verified token carries. */
    method ValidateAdminToken(jti: T.Jti, exp: int, databaseUp: bool) returns (accepted: bool)
      requires jti in State().issued && exp == State().issued[jti]
      ensures accepted <==> T.Accepts(State(), jti, databaseUp)
    {
      var now := clock / 1000;
      if exp <= now {
        return false;
      }
      if jti in revokedTokens && revokedTokens[jti] > now {
        return false;
      }
      if databaseUp && jti in table {
        if table[jti] / 1000 > now {
          return false;
        }
      }
      return true;
    }
  }
}
