/**
 * Brute-force lockout: a sliding window over a table of failures that a clean-up job prunes. The
 * history variable `log` keeps every failure since the user's last reset.
 */
module Lockout {
  import opened Wrappers

  const DAY := 24 * 60 * 60 * 1000       // milliseconds
  const FOREVER := 4102444799000         // 2099-12-31T23:59:59Z

  datatype Realm = Realm(id: string, bruteForceEnabled: bool, maxLoginFailures: int, failureResetTime: int,
                         lockoutDuration: int, permanentLockoutAfter: int)
  {
    function Max(): int { if maxLoginFailures > 1 then maxLoginFailures else 1 }
    function ResetTime(): int { if failureResetTime > 1 then failureResetTime else 1 }
  }

  datatype Failure = Failure(realmId: string, userId: string, failedAt: int)

  datatype User = User(realmId: string, lockedUntil: Option<int>, enabled: bool)

  datatype State = State(clock: int, users: map<string, User>, rows: seq<Failure>, log: seq<Failure>)

  // ----- Queries -----------------------------------------------------------------------------------

  predicate Matches(f: Failure, realmId: string, userId: string)
  {
    f.realmId == realmId && f.userId == userId
  }

  /** `count({ realmId, userId, failedAt >= since })`; without a bound when `since` is none. */
  function Count(rows: seq<Failure>, realmId: string, userId: string, since: Option<int>): nat
  {
    if rows == [] then 0
    else
      var f := rows[|rows| - 1];
      Count(rows[..|rows| - 1], realmId, userId, since)
      + (if Matches(f, realmId, userId) && (since.None? || f.failedAt >= since.value) then 1 else 0)
  }

  function DeleteMatching(rows: seq<Failure>, realmId: string, userId: string): seq<Failure>
  {
    if rows == [] then []
    else
      var rest, f := DeleteMatching(rows[..|rows| - 1], realmId, userId), rows[|rows| - 1];
      if Matches(f, realmId, userId) then rest else rest + [f]
  }

  function DeleteBefore(rows: seq<Failure>, cutoff: int): seq<Failure>
  {
    if rows == [] then []
    else
      var rest, f := DeleteBefore(rows[..|rows| - 1], cutoff), rows[|rows| - 1];
      if f.failedAt < cutoff then rest else rest + [f]
  }

  function WindowStart(realm: Realm, now: int): int
  {
    now - realm.ResetTime() * 1000
  }

  // ----- Operations --------------------------------------------------------------------------------

  datatype Lock = NoLock | Temporary | Permanent

  /** The decision on a table that already holds the new failure. */
  function Decide(rows: seq<Failure>, realm: Realm, userId: string, now: int): Lock
  {
    if Count(rows, realm.id, userId, Some(WindowStart(realm, now))) < realm.Max() then NoLock
    else if realm.permanentLockoutAfter > 0
            && Count(rows, realm.id, userId, None) / realm.Max() >= realm.permanentLockoutAfter then Permanent
    else Temporary
  }

  function ApplyLock(u: User, lock: Lock, realm: Realm, now: int): User
  {
    match lock
    case NoLock => u
    case Temporary => u.(lockedUntil := Some(now + realm.lockoutDuration * 1000))
    case Permanent => u.(lockedUntil := Some(FOREVER), enabled := false)
  }

  datatype Error = UserNotFound

  /** One serialisable transaction: an unknown user rolls it back. */
  function RecordFailure(s: State, realm: Realm, userId: string): (State, Result<Lock, Error>)
  {
    if !realm.bruteForceEnabled then (s, Ok(NoLock))
    else if userId !in s.users then (s, Err(UserNotFound))
    else
      var f := Failure(realm.id, userId, s.clock);
      var lock := Decide(s.rows + [f], realm, userId, s.clock);
      (State(s.clock, s.users[userId := ApplyLock(s.users[userId], lock, realm, s.clock)], s.rows + [f], s.log + [f]), Ok(lock))
  }

  function Forget(s: State, realmId: string, userId: string): State
  {
    s.(rows := DeleteMatching(s.rows, realmId, userId), log := DeleteMatching(s.log, realmId, userId))
  }

  function ResetFailures(s: State, realmId: string, userId: string): (State, Result<(), Error>)
  {
    var s1 := Forget(s, realmId, userId);
    if userId !in s.users then (s1, Err(UserNotFound))
    else (s1.(users := s.users[userId := s.users[userId].(lockedUntil := None)]), Ok(()))
  }

  function UnlockUser(s: State, realmId: string, userId: string): (State, Result<(), Error>)
  {
    if userId !in s.users || s.users[userId].realmId != realmId then (s, Err(UserNotFound))
    else
      (Forget(s, realmId, userId).(users := s.users[userId := s.users[userId].(lockedUntil := None, enabled := true)]), Ok(()))
  }

  function CheckLocked(realm: Realm, u: User, now: int): (locked: bool)
    ensures locked <==> realm.bruteForceEnabled && u.lockedUntil.Some? && u.lockedUntil.value > now
  {
    if !realm.bruteForceEnabled then false
    else if u.lockedUntil.None? then false
    else u.lockedUntil.value > now
  }

  function Cleanup(s: State): State
  {
    s.(rows := DeleteBefore(s.rows, s.clock - DAY))
  }

  // ----- Runs --------------------------------------------------------------------------------------

  datatype Event =
    | Tick(ms: nat)
    | Fail(realm: Realm, userId: string)
    | Reset(realmId: string, userId: string)
    | Unlock(realmId: string, userId: string)
    | Sweep

  function Step(s: State, e: Event): State
  {
    match e
    case Tick(ms) => s.(clock := s.clock + ms)
    case Fail(realm, userId) => RecordFailure(s, realm, userId).0
    case Reset(realmId, userId) => ResetFailures(s, realmId, userId).0
    case Unlock(realmId, userId) => UnlockUser(s, realmId, userId).0
    case Sweep => Cleanup(s)
  }

  function Run(s: State, es: seq<Event>): State
  {
    if es == [] then s else Step(Run(s, es[..|es| - 1]), es[|es| - 1])
  }

  predicate Initial(s: State)
  {
    s.rows == [] && s.log == []
  }

  // ----- The pruned table against the full log -----------------------------------------------------

  lemma {:induction false} CountAfterDeleteMatching(rows: seq<Failure>, r: string, u: string, realmId: string, userId: string,
                                                    since: Option<int>)
    ensures Count(DeleteMatching(rows, realmId, userId), r, u, since)
            == if r == realmId && u == userId then 0 else Count(rows, r, u, since)
  {
    if rows != [] {
      CountAfterDeleteMatching(rows[..|rows| - 1], r, u, realmId, userId, since);
      var rest := DeleteMatching(rows[..|rows| - 1], realmId, userId);
      assert (rest + [rows[|rows| - 1]])[..|rest|] == rest;
    }
  }

  lemma {:induction false} CountAfterDeleteBefore(rows: seq<Failure>, cutoff: int, r: string, u: string, since: int)
    requires cutoff <= since
    ensures Count(DeleteBefore(rows, cutoff), r, u, Some(since)) == Count(rows, r, u, Some(since))
  {
    if rows != [] {
      CountAfterDeleteBefore(rows[..|rows| - 1], cutoff, r, u, since);
      var rest := DeleteBefore(rows[..|rows| - 1], cutoff);
      assert (rest + [rows[|rows| - 1]])[..|rest|] == rest;
    }
  }

  lemma CountAppend(rows: seq<Failure>, f: Failure, r: string, u: string, since: Option<int>)
    ensures Count(rows + [f], r, u, since)
            == Count(rows, r, u, since) + (if Matches(f, r, u) && (since.None? || f.failedAt >= since.value) then 1 else 0)
  {
    assert (rows + [f])[..|rows|] == rows;
  }

  /** Over the last day the table holds exactly what the log holds. */
  ghost predicate DayAgrees(s: State)
  {
    forall r, u, since :: since >= s.clock - DAY ==> Count(s.rows, r, u, Some(since)) == Count(s.log, r, u, Some(since))
  }

  lemma StepKeepsDayAgrees(s: State, e: Event)
    requires DayAgrees(s)
    ensures DayAgrees(Step(s, e))
  {
    var s' := Step(s, e);
    forall r, u, since | since >= s'.clock - DAY
      ensures Count(s'.rows, r, u, Some(since)) == Count(s'.log, r, u, Some(since))
    {
      match e
      case Tick(_) =>
      case Fail(realm, userId) =>
        CountAppend(s.rows, Failure(realm.id, userId, s.clock), r, u, Some(since));
        CountAppend(s.log, Failure(realm.id, userId, s.clock), r, u, Some(since));
      case Reset(realmId, userId) => ForgetKeepsCounts(s, realmId, userId, r, u, since);
      case Unlock(realmId, userId) => ForgetKeepsCounts(s, realmId, userId, r, u, since);
      case Sweep => CountAfterDeleteBefore(s.rows, s.clock - DAY, r, u, since);
    }
  }

  lemma ForgetKeepsCounts(s: State, realmId: string, userId: string, r: string, u: string, since: int)
    requires Count(s.rows, r, u, Some(since)) == Count(s.log, r, u, Some(since))
    ensures var s' := Forget(s, realmId, userId); Count(s'.rows, r, u, Some(since)) == Count(s'.log, r, u, Some(since))
  {
    CountAfterDeleteMatching(s.rows, r, u, realmId, userId, Some(since));
    CountAfterDeleteMatching(s.log, r, u, realmId, userId, Some(since));
  }

  lemma {:induction false} RunKeepsDayAgrees(s: State, es: seq<Event>)
    requires DayAgrees(s)
    ensures DayAgrees(Run(s, es))
  {
    if es != [] {
      RunKeepsDayAgrees(s, es[..|es| - 1]);
      StepKeepsDayAgrees(Run(s, es[..|es| - 1]), es[|es| - 1]);
    }
  }

  /** The next failure of `userId` locks on the table exactly when it would on the full log. */
  ghost predicate LocksLikeFullLog(s: State, realm: Realm, userId: string)
  {
    var f := Failure(realm.id, userId, s.clock);
    Count(s.rows + [f], realm.id, userId, Some(WindowStart(realm, s.clock))) >= realm.Max() <==>
    Count(s.log + [f], realm.id, userId, Some(WindowStart(realm, s.clock))) >= realm.Max()
  }

  /** With a window of at most a day, in every run of failures, resets, unlocks and sweeps, a failure
      locks its user exactly when the full log since the last reset has at least the configured number
      of failures in the window. The lock is permanent exactly when, besides, that is configured and
      the retained failures reach the configured number of lockout cycles. */
  lemma {:induction false} LocksExactlyOnFullWindow(s0: State, es: seq<Event>, realm: Realm, userId: string)
    requires Initial(s0) && realm.bruteForceEnabled && realm.ResetTime() * 1000 <= DAY
    requires userId in Run(s0, es).users
    ensures var s := Run(s0, es);
            var (s', r) := RecordFailure(s, realm, userId);
            var full := Count(s'.log, realm.id, userId, Some(WindowStart(realm, s.clock)));
            var retained := Count(s'.rows, realm.id, userId, None);
            && r.Ok?
            && (r.value.NoLock? <==> full < realm.Max())
            && (r.value.Permanent? <==> full >= realm.Max() && realm.permanentLockoutAfter > 0
                                        && retained >= realm.permanentLockoutAfter * realm.Max())
            && s'.users[userId] == ApplyLock(s.users[userId], r.value, realm, s.clock)
            && (forall u :: u in s.users && u != userId ==> s'.users[u] == s.users[u])
  {
    var s := Run(s0, es);
    RunKeepsDayAgrees(s0, es);
    var f := Failure(realm.id, userId, s.clock);
    var since := Some(WindowStart(realm, s.clock));
    CountAppend(s.rows, f, realm.id, userId, since);
    CountAppend(s.log, f, realm.id, userId, since);
    CyclesReached(Count(s.rows + [f], realm.id, userId, None), realm.Max(), realm.permanentLockoutAfter);
  }

  lemma CyclesReached(total: nat, max: int, cycles: int)
    requires max >= 1
    ensures total / max >= cycles <==> total >= cycles * max
  {
    assert total == total / max * max + total % max;
    if total / max >= cycles {
      assert total / max * max >= cycles * max;
    } else {
      assert (total / max + 1) * max <= cycles * max;
    }
  }

  lemma {:induction false} CountBounded(rows: seq<Failure>, r: string, u: string, since: int)
    ensures Count(rows, r, u, Some(since)) <= Count(rows, r, u, None)
  {
    if rows != [] {
      CountBounded(rows[..|rows| - 1], r, u, since);
    }
  }

  // ----- Exactly which configurations are safe from the sweep ----------------------------------------

  ghost predicate AlwaysLocksLikeFullLog(realm: Realm, userId: string)
  {
    forall s: State, es: seq<Event> :: Initial(s) ==> LocksLikeFullLog(Run(s, es), realm, userId)
  }

  function Repeat(e: Event, n: nat): seq<Event>
  {
    if n == 0 then [] else Repeat(e, n - 1) + [e]
  }

  function Copies(f: Failure, n: nat): seq<Failure>
  {
    if n == 0 then [] else Copies(f, n - 1) + [f]
  }

  lemma {:induction false} RunAppend(s: State, first: seq<Event>, second: seq<Event>)
    ensures Run(s, first + second) == Run(Run(s, first), second)
  {
    if second == [] {
      assert first + second == first;
    } else {
      var es := first + second;
      assert es[..|es| - 1] == first + second[..|second| - 1];
      RunAppend(s, first, second[..|second| - 1]);
    }
  }

  /** One copy more, at the end. */
  lemma OneMoreCopy(rows: seq<Failure>, f: Failure, n: nat)
    requires n > 0
    ensures rows + Copies(f, n) == rows + Copies(f, n - 1) + [f]
  {
  }

  lemma {:induction false} RepeatedFailures(s: State, realm: Realm, userId: string, n: nat)
    requires realm.bruteForceEnabled && userId in s.users
    ensures var s' := Run(s, Repeat(Fail(realm, userId), n));
            var fs := Copies(Failure(realm.id, userId, s.clock), n);
            s'.clock == s.clock && userId in s'.users && s'.rows == s.rows + fs && s'.log == s.log + fs
  {
    if n > 0 {
      RepeatedFailures(s, realm, userId, n - 1);
      RunOneMore(s, Repeat(Fail(realm, userId), n - 1), Fail(realm, userId));
      OneMoreCopy(s.rows, Failure(realm.id, userId, s.clock), n);
      OneMoreCopy(s.log, Failure(realm.id, userId, s.clock), n);
    }
  }

  lemma RunOneMore(s: State, es: seq<Event>, e: Event)
    ensures Run(s, es + [e]) == Step(Run(s, es), e)
  {
    assert (es + [e])[..|es|] == es;
  }

  /** `n` more failures of the same kind raise the count by `n`. */
  lemma {:induction false} CopiesCounted(rows: seq<Failure>, f: Failure, n: nat, since: Option<int>)
    requires since.None? || f.failedAt >= since.value
    ensures Count(rows + Copies(f, n), f.realmId, f.userId, since) == Count(rows, f.realmId, f.userId, since) + n
  {
    if n == 0 {
      assert rows + [] == rows;
    } else {
      var fewer := rows + Copies(f, n - 1);
      CopiesCounted(rows, f, n - 1, since);
      CountAppend(fewer, f, f.realmId, f.userId, since);
      OneMoreCopy(rows, f, n);
    }
  }

  lemma {:induction false} CopiesDeleted(f: Failure, n: nat, cutoff: int)
    requires f.failedAt < cutoff
    ensures DeleteBefore(Copies(f, n), cutoff) == []
  {
    if n > 0 {
      CopiesDeleted(f, n - 1, cutoff);
      assert (Copies(f, n - 1) + [f])[..|Copies(f, n - 1)|] == Copies(f, n - 1);
    }
  }

  /** The sweep hides failures from some run exactly when the window is longer than a day and more than
      one failure is needed to lock. */
  lemma {:induction false} WindowMustFitInADay(realm: Realm, userId: string)
    requires realm.bruteForceEnabled
    ensures AlwaysLocksLikeFullLog(realm, userId) <==> realm.ResetTime() * 1000 <= DAY || realm.Max() == 1
  {
    if realm.ResetTime() * 1000 <= DAY || realm.Max() == 1 {
      forall s: State, es: seq<Event> | Initial(s) ensures LocksLikeFullLog(Run(s, es), realm, userId) {
        ShortWindowIsSafe(s, es, realm, userId);
      }
    } else {
      var s := State(0, map[userId := User(realm.id, None, true)], [], []);
      var es := LostFailures(s, realm, userId);
      assert !LocksLikeFullLog(Run(s, es), realm, userId);
    }
  }

  lemma ShortWindowIsSafe(s: State, es: seq<Event>, realm: Realm, userId: string)
    requires Initial(s) && (realm.ResetTime() * 1000 <= DAY || realm.Max() == 1)
    ensures LocksLikeFullLog(Run(s, es), realm, userId)
  {
    var s' := Run(s, es);
    var f := Failure(realm.id, userId, s'.clock);
    RunKeepsDayAgrees(s, es);
    CountAppend(s'.rows, f, realm.id, userId, Some(WindowStart(realm, s'.clock)));
    CountAppend(s'.log, f, realm.id, userId, Some(WindowStart(realm, s'.clock)));
  }

  /** `n` failures, then a day later a sweep. */
  function FailAndWait(realm: Realm, userId: string, n: nat): seq<Event>
  {
    Repeat(Fail(realm, userId), n) + [Tick(DAY + 1), Sweep]
  }

  /** The sweep empties the table of them; the log keeps them. */
  lemma FailuresSwept(s: State, realm: Realm, userId: string, n: nat)
    requires Initial(s) && s.clock == 0 && realm.bruteForceEnabled && userId in s.users
    ensures var s' := Run(s, FailAndWait(realm, userId, n));
            && s'.clock == DAY + 1 && userId in s'.users && s'.rows == []
            && s'.log == Copies(Failure(realm.id, userId, 0), n)
  {
    var fails, fs := Repeat(Fail(realm, userId), n), Copies(Failure(realm.id, userId, 0), n);
    RepeatedFailures(s, realm, userId, n);
    NothingBefore(s.rows, fs);
    NothingBefore(s.log, fs);
    RunOneMore(s, fails, Tick(DAY + 1));
    RunOneMore(s, fails + [Tick(DAY + 1)], Sweep);
    assert fails + [Tick(DAY + 1)] + [Sweep] == FailAndWait(realm, userId, n);
    SweptAfterADay(Run(s, fails), Run(s, fails + [Tick(DAY + 1)]), Run(s, FailAndWait(realm, userId, n)), fs);
    CopiesDeleted(Failure(realm.id, userId, 0), n, 1);
  }

  lemma NothingBefore(rows: seq<Failure>, fs: seq<Failure>)
    requires rows == []
    ensures rows + fs == fs
  {
  }

  lemma SweptAfterADay(s: State, waited: State, s': State, fs: seq<Failure>)
    requires s.clock == 0 && s.rows == fs && s.log == fs
    requires waited == Step(s, Tick(DAY + 1)) && s' == Step(waited, Sweep)
    ensures s' == State(DAY + 1, s.users, DeleteBefore(fs, 1), fs)
  {
  }

  /** One failure short of the limit, a day and a sweep later. */
  lemma LostFailures(s: State, realm: Realm, userId: string) returns (es: seq<Event>)
    requires Initial(s) && s.clock == 0 && realm.bruteForceEnabled && userId in s.users
    requires realm.ResetTime() * 1000 > DAY && realm.Max() > 1
    ensures !LocksLikeFullLog(Run(s, es), realm, userId)
  {
    es := FailAndWait(realm, userId, realm.Max() - 1);
    FailuresSwept(s, realm, userId, realm.Max() - 1);
    EmptiedTableForgets(Run(s, es), realm, userId);
  }

  lemma EmptiedTableForgets(s: State, realm: Realm, userId: string)
    requires s.clock == DAY + 1 && s.rows == [] && realm.ResetTime() * 1000 > DAY && realm.Max() > 1
    requires s.log == Copies(Failure(realm.id, userId, 0), realm.Max() - 1)
    ensures !LocksLikeFullLog(s, realm, userId)
  {
    var since, f := Some(WindowStart(realm, s.clock)), Failure(realm.id, userId, s.clock);
    CopiesCounted([], Failure(realm.id, userId, 0), realm.Max() - 1, since);
    NothingBefore([], s.log);
    CountAppend(s.rows, f, realm.id, userId, since);
    CountAppend(s.log, f, realm.id, userId, since);
  }

  // ----- And which of them also decide permanence like the full log ------------------------------------

  /** The next failure of `userId` is answered on the table as on the full log: no lock, a temporary or a
      permanent one. */
  ghost predicate DecidesLikeFullLog(s: State, realm: Realm, userId: string)
  {
    var f := Failure(realm.id, userId, s.clock);
    Decide(s.rows + [f], realm, userId, s.clock) == Decide(s.log + [f], realm, userId, s.clock)
  }

  ghost predicate AlwaysDecidesLikeFullLog(realm: Realm, userId: string)
  {
    forall s: State, es: seq<Event> :: Initial(s) ==> DecidesLikeFullLog(Run(s, es), realm, userId)
  }

  /** The whole decision survives the sweep in every run exactly when locking does and no lock has to be
      repeated before it becomes permanent. */
  lemma {:induction false} PermanenceNeedsOneCycle(realm: Realm, userId: string)
    requires realm.bruteForceEnabled
    ensures AlwaysDecidesLikeFullLog(realm, userId) <==>
            (realm.ResetTime() * 1000 <= DAY || realm.Max() == 1) && realm.permanentLockoutAfter <= 1
  {
    if realm.permanentLockoutAfter > 1 {
      var s := State(0, map[userId := User(realm.id, None, true)], [], []);
      var es := LostCycles(s, realm, userId);
      assert !DecidesLikeFullLog(Run(s, es), realm, userId);
    } else if realm.ResetTime() * 1000 <= DAY || realm.Max() == 1 {
      forall s: State, es: seq<Event> | Initial(s) ensures DecidesLikeFullLog(Run(s, es), realm, userId) {
        ShortWindowIsSafe(s, es, realm, userId);
        OneCycleDecides(Run(s, es), realm, userId);
      }
    } else {
      var s := State(0, map[userId := User(realm.id, None, true)], [], []);
      var es := LostFailures(s, realm, userId);
      assert !DecidesLikeFullLog(Run(s, es), realm, userId);
    }
  }

  /** When the first lock is already permanent, or none ever is, locking decides everything. */
  lemma OneCycleDecides(s: State, realm: Realm, userId: string)
    requires LocksLikeFullLog(s, realm, userId) && realm.permanentLockoutAfter <= 1
    ensures DecidesLikeFullLog(s, realm, userId)
  {
    var f := Failure(realm.id, userId, s.clock);
    CountBounded(s.rows + [f], realm.id, userId, WindowStart(realm, s.clock));
    CountBounded(s.log + [f], realm.id, userId, WindowStart(realm, s.clock));
    CyclesReached(Count(s.rows + [f], realm.id, userId, None), realm.Max(), 1);
    CyclesReached(Count(s.log + [f], realm.id, userId, None), realm.Max(), 1);
  }

  /** All cycles but the last a day ago and swept, the last one about to complete: the table answers with a
      temporary lock, the log with a permanent one. */
  lemma LostCycles(s: State, realm: Realm, userId: string) returns (es: seq<Event>)
    requires Initial(s) && s.clock == 0 && realm.bruteForceEnabled && userId in s.users
    requires realm.permanentLockoutAfter > 1
    ensures var s', f := Run(s, es), Failure(realm.id, userId, Run(s, es).clock);
            && Decide(s'.rows + [f], realm, userId, s'.clock) == Temporary
            && Decide(s'.log + [f], realm, userId, s'.clock) == Permanent
  {
    var n := AllCyclesButOne(realm.Max(), realm.permanentLockoutAfter);
    var past, more := FailAndWait(realm, userId, n), Repeat(Fail(realm, userId), realm.Max() - 1);
    es := past + more;
    FailuresSwept(s, realm, userId, n);
    RunAppend(s, past, more);
    RepeatedFailures(Run(s, past), realm, userId, realm.Max() - 1);
    LastCycleDecides(Run(s, es).rows, Run(s, es).log, realm, userId, n);
  }

  lemma LastCycleDecides(rows: seq<Failure>, log: seq<Failure>, realm: Realm, userId: string, n: nat)
    requires realm.permanentLockoutAfter > 1 && n == AllCyclesButOne(realm.Max(), realm.permanentLockoutAfter)
    requires rows == [] + Copies(Failure(realm.id, userId, DAY + 1), realm.Max() - 1)
    requires log == Copies(Failure(realm.id, userId, 0), n) + Copies(Failure(realm.id, userId, DAY + 1), realm.Max() - 1)
    ensures var f := Failure(realm.id, userId, DAY + 1);
            && Decide(rows + [f], realm, userId, DAY + 1) == Temporary
            && Decide(log + [f], realm, userId, DAY + 1) == Permanent
  {
    var f, swept := Failure(realm.id, userId, DAY + 1), Copies(Failure(realm.id, userId, 0), n);
    CyclesAddUp(realm.Max(), realm.permanentLockoutAfter);
    CycleDecides([], rows, f, realm);
    CopiesCounted([], Failure(realm.id, userId, 0), n, None);
    NothingBefore([], swept);
    CycleDecides(swept, log, f, realm);
  }

  /** A cycle that completes locks, for good when enough failures came before it. */
  lemma CycleDecides(before: seq<Failure>, rows: seq<Failure>, f: Failure, realm: Realm)
    requires f.realmId == realm.id && rows == before + Copies(f, realm.Max() - 1) && realm.permanentLockoutAfter > 0
    ensures var total := Count(before, f.realmId, f.userId, None) + realm.Max();
            Decide(rows + [f], realm, f.userId, f.failedAt)
            == if total >= realm.permanentLockoutAfter * realm.Max() then Permanent else Temporary
  {
    FreshCycle(before, rows, f, realm);
    CyclesReached(Count(rows + [f], f.realmId, f.userId, None), realm.Max(), realm.permanentLockoutAfter);
  }

  /** The failures of all cycles but one. */
  function AllCyclesButOne(max: nat, cycles: nat): nat
    requires cycles >= 1
  {
    max * (cycles - 1)
  }

  lemma CyclesAddUp(max: nat, cycles: nat)
    requires max >= 1 && cycles > 1
    ensures AllCyclesButOne(max, cycles) + max == cycles * max && max < cycles * max
  {
  }

  /** `rows` with the failures of one whole cycle at the time of `f`. */
  lemma FreshCycle(before: seq<Failure>, rows: seq<Failure>, f: Failure, realm: Realm)
    requires f.realmId == realm.id && rows == before + Copies(f, realm.Max() - 1)
    ensures Count(rows + [f], f.realmId, f.userId, None) == Count(before, f.realmId, f.userId, None) + realm.Max()
    ensures Count(rows + [f], f.realmId, f.userId, Some(WindowStart(realm, f.failedAt))) >= realm.Max()
  {
    var since := Some(WindowStart(realm, f.failedAt));
    CopiesCounted(before, f, realm.Max() - 1, None);
    CopiesCounted(before, f, realm.Max() - 1, since);
    CountAppend(rows, f, f.realmId, f.userId, None);
    CountAppend(rows, f, f.realmId, f.userId, since);
  }

  // ----- How long a lock lasts -------------------------------------------------------------------------

  predicate Touches(e: Event, userId: string)
  {
    (e.Fail? || e.Reset? || e.Unlock?) && e.userId == userId
  }

  lemma StepLeavesUser(s: State, s': State, e: Event, userId: string)
    requires userId in s.users && !Touches(e, userId) && s' == Step(s, e)
    ensures userId in s'.users && s'.users[userId] == s.users[userId]
  {
  }

  lemma {:induction false} OthersLeaveUser(s: State, es: seq<Event>, userId: string)
    requires userId in s.users && forall e :: e in es ==> !Touches(e, userId)
    ensures userId in Run(s, es).users && Run(s, es).users[userId] == s.users[userId]
  {
    if es != [] {
      var before := es[..|es| - 1];
      OthersLeaveUser(s, before, userId);
      StepLeavesUser(Run(s, before), Run(s, es), es[|es| - 1], userId);
    }
  }

  /** A failure that locks temporarily locks for exactly the configured duration, and one that locks for good
      until the end of 2099, whatever other users do and however often the table is swept. */
  lemma {:induction false} LockLastsExactly(s: State, es: seq<Event>, realm: Realm, userId: string)
    requires realm.bruteForceEnabled && userId in s.users && forall e :: e in es ==> !Touches(e, userId)
    ensures var (s1, r) := RecordFailure(s, realm, userId);
            var s' := Run(s1, es);
            && userId in s'.users && r.Ok?
            && (r.value.Temporary? ==>
                  (CheckLocked(realm, s'.users[userId], s'.clock) <==> s'.clock < s.clock + realm.lockoutDuration * 1000))
            && (r.value.Permanent? ==>
                  !s'.users[userId].enabled && (CheckLocked(realm, s'.users[userId], s'.clock) <==> s'.clock < FOREVER))
            && (r.value.NoLock? ==>
                  (CheckLocked(realm, s'.users[userId], s'.clock) <==> CheckLocked(realm, s.users[userId], s'.clock)))
  {
    OthersLeaveUser(RecordFailure(s, realm, userId).0, es, userId);
  }
}
