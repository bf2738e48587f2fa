/** The lockout operations as they run, over the failure table and the user rows. */
module LockoutService {
  import opened Wrappers
  import L = Lockout

  class BruteForceService {
    var clock: int
    var users: map<string, L.User>
    var rows: seq<L.Failure>
    ghost var log: seq<L.Failure>

    ghost function State(): L.State
      reads this
    {
      L.State(clock, users, rows, log)
    }

    method RecordFailure(realm: L.Realm, userId: string) returns (r: Result<L.Lock, L.Error>)
      modifies this
      ensures (State(), r) == L.RecordFailure(old(State()), realm, userId)
    {
      if !realm.bruteForceEnabled {
        return Ok(L.NoLock);
      }
      var maxFailures, resetTime := realm.Max(), realm.ResetTime();
      if userId !in users {
        return Err(L.UserNotFound);
      }
      rows := rows + [L.Failure(realm.id, userId, clock)];
      log := log + [L.Failure(realm.id, userId, clock)];
      var windowStart := clock - resetTime * 1000;
      var failureCount := L.Count(rows, realm.id, userId, Some(windowStart));
      if failureCount < maxFailures {
        assert users == users[userId := users[userId]];
        return Ok(L.NoLock);
      }
      if realm.permanentLockoutAfter > 0 {
        var totalFailures := L.Count(rows, realm.id, userId, None);
        var lockoutCount := totalFailures / maxFailures;
        if lockoutCount >= realm.permanentLockoutAfter {
          users := users[userId := users[userId].(lockedUntil := Some(L.FOREVER), enabled := false)];
          return Ok(L.Permanent);
        }
      }
      var lockedUntil := clock + realm.lockoutDuration * 1000;
      users := users[userId := users[userId].(lockedUntil := Some(lockedUntil))];
      return Ok(L.Temporary);
    }

    method ResetFailures(realmId: string, userId: string) returns (r: Result<(), L.Error>)
      modifies this
      ensures (State(), r) == L.ResetFailures(old(State()), realmId, userId)
    {
      rows := L.DeleteMatching(rows, realmId, userId);
      log := L.DeleteMatching(log, realmId, userId);
      if userId !in users {
        return Err(L.UserNotFound);
      }
      users := users[userId := users[userId].(lockedUntil := None)];
      return Ok(());
    }

    method UnlockUser(realmId: string, userId: string) returns (r: Result<(), L.Error>)
      modifies this
      ensures (State(), r) == L.UnlockUser(old(State()), realmId, userId)
    {
      if userId !in users || users[userId].realmId != realmId {
        return Err(L.UserNotFound);
      }
      users := users[userId := users[userId].(lockedUntil := None, enabled := true)];
      rows := L.DeleteMatching(rows, realmId, userId);
      log := L.DeleteMatching(log, realmId, userId);
      return Ok(());
    }

    method CleanupOldFailures()
      modifies `rows
      ensures State() == L.Cleanup(old(State()))
    {
      var cutoff := clock - L.DAY;
      rows := L.DeleteBefore(rows, cutoff);
    }
  }
}
