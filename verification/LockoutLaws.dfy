/** What clearing a lock gives back to a user, in every continuation. */
module LockoutLaws {
  import opened Wrappers
  import opened Lockout

  /** The event clears the user's lock: a reset, or an unlock by the user's own realm. */
  predicate Clears(s: State, e: Event, userId: string)
  {
    userId in s.users &&
    match e
    case Reset(_, u) => u == userId
    case Unlock(realmId, u) => u == userId && s.users[userId].realmId == realmId
    case _ => false
  }

  /** The user row after it: no lock, and after an unlock enabled again. The user's failures in that realm are gone,
      everybody else's are kept, and no other row changes. */
  lemma ClearedExactly(s: State, s': State, e: Event, userId: string)
    requires Clears(s, e, userId) && s' == Step(s, e)
    ensures userId in s'.users && s'.users[userId] == User(s.users[userId].realmId, None, e.Unlock? || s.users[userId].enabled)
    ensures s'.users == s.users[userId := s'.users[userId]] && s'.clock == s.clock
    ensures forall r, u, since :: Count(s'.rows, r, u, since) == if r == e.realmId && u == userId then 0 else Count(s.rows, r, u, since)
  {
    forall r, u, since ensures Count(s'.rows, r, u, since) == if r == e.realmId && u == userId then 0 else Count(s.rows, r, u, since) {
      CountAfterDeleteMatching(s.rows, r, u, e.realmId, userId, since);
    }
  }

  /** An unlock asked for by another realm, or for an unknown user, is refused and changes nothing. */
  lemma ForeignUnlockIsRefused(s: State, realmId: string, userId: string)
    requires userId !in s.users || s.users[userId].realmId != realmId
    ensures UnlockUser(s, realmId, userId) == (s, Err(UserNotFound))
  {
  }

  /** Without brute-force protection a failure leaves no trace, and a failure of an unknown user is rolled back. */
  lemma FailureElsewhere(s: State, realm: Realm, userId: string)
    ensures !realm.bruteForceEnabled ==> RecordFailure(s, realm, userId) == (s, Ok(NoLock))
    ensures realm.bruteForceEnabled && userId !in s.users ==> RecordFailure(s, realm, userId) == (s, Err(UserNotFound))
  {
  }

  // ----- Afterwards --------------------------------------------------------------------------------------

  lemma {:induction false} DeleteBeforeShrinks(rows: seq<Failure>, cutoff: int, r: string, u: string)
    ensures Count(DeleteBefore(rows, cutoff), r, u, None) <= Count(rows, r, u, None)
  {
    if rows != [] {
      DeleteBeforeShrinks(rows[..|rows| - 1], cutoff, r, u);
      var rest := DeleteBefore(rows[..|rows| - 1], cutoff);
      assert (rest + [rows[|rows| - 1]])[..|rest|] == rest;
    }
  }

  /** The failures of the user among the events. */
  function Failures(es: seq<Event>, userId: string): nat
  {
    if es == [] then 0
    else Failures(es[..|es| - 1], userId) + (if es[|es| - 1].Fail? && es[|es| - 1].userId == userId then 1 else 0)
  }

  /** Not locked, and at most `n` failures on record in the realm. */
  predicate IsFree(s: State, realm: Realm, userId: string, enabled: bool, n: nat)
  {
    && userId in s.users && s.users[userId].lockedUntil.None? && (enabled ==> s.users[userId].enabled)
    && Count(s.rows, realm.id, userId, None) <= n
  }

  /** Too few failures on record lock nobody, in whatever window. */
  lemma FewDoNotLock(rows: seq<Failure>, realm: Realm, userId: string, now: int)
    requires Count(rows, realm.id, userId, None) < realm.Max()
    ensures Decide(rows, realm, userId, now) == NoLock
  {
    CountBounded(rows, realm.id, userId, WindowStart(realm, now));
  }

  lemma OthersFailureStaysFree(s: State, s': State, e: Event, realm: Realm, userId: string, enabled: bool, n: nat)
    requires IsFree(s, realm, userId, enabled, n) && e.Fail? && e.userId != userId && s' == Step(s, e)
    ensures IsFree(s', realm, userId, enabled, n)
  {
    StepLeavesUser(s, s', e, userId);
    CountAppend(s.rows, Failure(e.realm.id, e.userId, s.clock), realm.id, userId, None);
  }

  lemma OwnFailureStaysFree(s: State, s': State, realm: Realm, userId: string, enabled: bool, n: nat)
    requires IsFree(s, realm, userId, enabled, n) && n + 1 < realm.Max() && s' == RecordFailure(s, realm, userId).0
    ensures IsFree(s', realm, userId, enabled, n + 1)
  {
    var f := Failure(realm.id, userId, s.clock);
    CountAppend(s.rows, f, realm.id, userId, None);
    FewDoNotLock(s.rows + [f], realm, userId, s.clock);
    RecordedAs(s, s', realm, userId, f, Decide(s.rows + [f], realm, userId, s.clock));
  }

  lemma RecordedAs(s: State, s': State, realm: Realm, userId: string, f: Failure, lock: Lock)
    requires userId in s.users && f == Failure(realm.id, userId, s.clock) && s' == RecordFailure(s, realm, userId).0
    requires lock == Decide(s.rows + [f], realm, userId, s.clock)
    ensures s' == if realm.bruteForceEnabled then
                    State(s.clock, s.users[userId := ApplyLock(s.users[userId], lock, realm, s.clock)], s.rows + [f], s.log + [f])
                  else s
  {
  }

  lemma StepStaysFree(s: State, s': State, e: Event, realm: Realm, userId: string, enabled: bool, n: nat)
    requires IsFree(s, realm, userId, enabled, n) && s' == Step(s, e)
    requires e.Fail? && e.userId == userId ==> e.realm == realm && n + 1 < realm.Max()
    ensures IsFree(s', realm, userId, enabled, n + (if e.Fail? && e.userId == userId then 1 else 0))
  {
    match e
    case Fail(_, _) =>
      if e.userId == userId {
        OwnFailureStaysFree(s, s', realm, userId, enabled, n);
      } else {
        OthersFailureStaysFree(s, s', e, realm, userId, enabled, n);
      }
    case Reset(r, u) => CountAfterDeleteMatching(s.rows, realm.id, userId, r, u, None);
    case Unlock(r, u) => CountAfterDeleteMatching(s.rows, realm.id, userId, r, u, None);
    case Sweep => DeleteBeforeShrinks(s.rows, s.clock - DAY, realm.id, userId);
    case Tick(_) =>
  }

  lemma {:induction false} RunStaysFree(s: State, es: seq<Event>, realm: Realm, userId: string, enabled: bool)
    requires IsFree(s, realm, userId, enabled, 0)
    requires forall e :: e in es && e.Fail? && e.userId == userId ==> e.realm == realm
    requires Failures(es, userId) == 0 || Failures(es, userId) < realm.Max()
    ensures IsFree(Run(s, es), realm, userId, enabled, Failures(es, userId))
  {
    if es != [] {
      var before, e := es[..|es| - 1], es[|es| - 1];
      assert e in es && forall x :: x in before ==> x in es;
      RunStaysFree(s, before, realm, userId, enabled);
      StepStaysFree(Run(s, before), Run(s, es), e, realm, userId, enabled, Failures(before, userId));
    }
  }

  /** A user whose lock was cleared stays unlocked, and after an unlock enabled, through every continuation with fewer
      new failures of that user than lock: the old ones no longer count. Without any new failure that is every
      continuation. */
  lemma {:induction false} ClearedUserHasAllAttempts(s: State, e: Event, es: seq<Event>, realm: Realm, userId: string)
    requires Clears(s, e, userId) && realm.id == e.realmId
    requires forall x :: x in es && x.Fail? && x.userId == userId ==> x.realm == realm
    requires Failures(es, userId) == 0 || Failures(es, userId) < realm.Max()
    ensures var end := Run(Step(s, e), es);
            && userId in end.users && end.users[userId].lockedUntil == None && !CheckLocked(realm, end.users[userId], end.clock)
            && (e.Unlock? || s.users[userId].enabled ==> end.users[userId].enabled)
  {
    ClearedExactly(s, Step(s, e), e, userId);
    RunStaysFree(Step(s, e), es, realm, userId, e.Unlock? || s.users[userId].enabled);
  }

  /** A reset alone does not enable a user who was locked for good: only an unlock does. */
  lemma {:induction false} ResetLeavesDisabled(s: State, es: seq<Event>, userId: string)
    requires userId in s.users && !s.users[userId].enabled && forall e :: e in es && e.Unlock? ==> e.userId != userId
    ensures userId in Run(s, es).users && !Run(s, es).users[userId].enabled
  {
    if es != [] {
      var before := es[..|es| - 1];
      assert es[|es| - 1] in es && forall x :: x in before ==> x in es;
      ResetLeavesDisabled(s, before, userId);
    }
  }
}
