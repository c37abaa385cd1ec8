/** Account lockout: the value object, and what a history of logins and clearances makes of it. */
module AccountLock {
  import opened Basics

  const MAX_FAILED_ATTEMPTS := 5
  const LOCKOUT_DURATION_MINUTES := 15

  datatype AccountLockInfo = AccountLockInfo(
    isLocked: bool,
    lockedAt: Option<Time>,
    lockReason: Option<string>,
    failedAttempts: int,
    lockUntil: Option<Time>)
  {
    /** A lock without an end is indefinite and never elapses. */
    predicate LockWindowElapsed(now: Time) {
      isLocked && lockUntil.Some? && now >= lockUntil.value
    }

    predicate IsLockedOut(now: Time) {
      isLocked && !LockWindowElapsed(now)
    }

    /** The clock is read for the elapsed test and again for the new end. */
    function RecordFailedAttempt(maxAttempts: int, minutes: int, now: Time, later: Time): AccountLockInfo {
      var attempts := (if LockWindowElapsed(now) then 0 else failedAttempts) + 1;
      var locked := attempts >= maxAttempts;
      AccountLockInfo(locked, lockedAt, lockReason, attempts,
                      if locked then Some(later + Seconds(60 * minutes)) else None)
    }

    function RecordSuccessfulLogin(): AccountLockInfo {
      Unlocked()
    }

    /** Keeps `lockedAt`: only a successful login clears it. */
    function Unlock(): AccountLockInfo {
      this.(isLocked := false, lockReason := None, failedAttempts := 0, lockUntil := None)
    }
  }

  function Unlocked(): AccountLockInfo {
    AccountLockInfo(false, None, None, 0, None)
  }

  /** What happens to an account's lock. A failure carries its three clock readings. */
  datatype LockEvent =
    | Failure(checkedAt: Time, elapsedAt: Time, at: Time)
    | LoginSucceeded
    | PasswordCleared

  /** One event's effect on the lock. */
  function Next(lock: AccountLockInfo, e: LockEvent): AccountLockInfo {
    match e
    case Failure(_, elapsedAt, at) => lock.RecordFailedAttempt(MAX_FAILED_ATTEMPTS, LOCKOUT_DURATION_MINUTES, elapsedAt, at)
    case LoginSucceeded => lock.RecordSuccessfulLogin()
    case PasswordCleared => lock.Unlock()
  }

  /** A password is only compared, and so a failure only recorded, while the account is not locked out. */
  predicate Permits(lock: AccountLockInfo, e: LockEvent) {
    e.Failure? ==> e.checkedAt <= e.elapsedAt <= e.at && !lock.IsLockedOut(e.checkedAt)
  }

  function Replay(events: seq<LockEvent>): AccountLockInfo {
    if events == [] then Unlocked() else Next(Replay(events[..|events| - 1]), events[|events| - 1])
  }

  ghost predicate Guarded(events: seq<LockEvent>) {
    events == [] || (Guarded(events[..|events| - 1]) && Permits(Replay(events[..|events| - 1]), events[|events| - 1]))
  }

  lemma OneEventMore(events: seq<LockEvent>, e: LockEvent)
    ensures Replay(events + [e]) == Next(Replay(events), e)
    ensures Guarded(events + [e]) <==> Guarded(events) && Permits(Replay(events), e)
  {
    assert (events + [e])[..|events|] == events;
  }

  /** The failures since the last success or clearance, however many lockouts they span. */
  function FailuresSinceCleared(events: seq<LockEvent>): nat {
    if events == [] || !events[|events| - 1].Failure? then 0
    else FailuresSinceCleared(events[..|events| - 1]) + 1
  }

  /**
   The counter in closed form. It counts failures modulo the maximum, so it never exceeds the
   maximum; the account is locked exactly at each multiple of it; and a lock ends a fixed time
   after the failure that set it.
   */
  lemma {:induction false} LockIsItsHistory(events: seq<LockEvent>)
    requires Guarded(events)
    ensures var n, lock := FailuresSinceCleared(events), Replay(events);
            && lock.failedAttempts == (if n == 0 then 0 else (n - 1) % 5 + 1)
            && 0 <= lock.failedAttempts <= MAX_FAILED_ATTEMPTS
            && (lock.isLocked <==> n > 0 && n % 5 == 0)
            && (lock.isLocked ==> events[|events| - 1].Failure?)
            && (lock.isLocked ==> lock.lockUntil == Some(events[|events| - 1].at + Seconds(900)))
            && (!lock.isLocked ==> lock.lockUntil == None)
            && lock.lockedAt == None && lock.lockReason == None
  {
    if events != [] {
      LockIsItsHistory(events[..|events| - 1]);
    }
  }
}
