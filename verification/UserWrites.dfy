/** What requests do to a user row, and what that means for rows many of them write at once. */
module UserWrites {
  import opened Basics
  import opened AccountLock
  import opened User
  import opened OptimisticLock

  /** A new address, or none, with the token that will confirm it. */
  datatype EmailChange = EmailChange(address: Option<string>, token: TokenHash, changedAt: Time)

  function WithEmail(u: User, change: Option<EmailChange>): User {
    if change.None? || change.value.address == u.email then u
    else u.(email := change.value.address,
            emailVerification := EmailVerification.CreateUnverified(change.value.token, change.value.changedAt))
  }

  /** The changes a request makes to a user, each with what it depends on. */
  datatype Op =
    | FailLogin(checkedAt: Time, elapsedAt: Time, at: Time)
    | SucceedLogin(checkedAt: Time)
    | SpendBackupCode(candidate: TokenHash)
    | BeginEnrolment(secret: string, hashes: seq<TokenHash>)
    | ConfirmEnrolment(matches: bool, at: Time)
    | DisableTwoFactor(matches: bool)
    | RequestReset(token: TokenHash, at: Time)
    | ResetPassword(presented: TokenHash, hashedPassword: seq<byte>, at: Time)
    | ChangePassword(hashedPassword: seq<byte>)
    | MarkEmailVerified(presented: TokenHash, checkedAt: Time, at: Time)
    | Delete(at: Time)
    | UpdateProfile(username: Option<string>, email: Option<EmailChange>)

  /** The user to write, or nothing when the request is refused on the user it loaded. */
  function Perform(u: User, op: Op): Option<User> {
    match op
    case FailLogin(checkedAt, elapsedAt, at) =>
      if u.accountLock.IsLockedOut(checkedAt) || u.deletedAt.Some? || !(checkedAt <= elapsedAt <= at) then None
      else Some(u.(accountLock := u.accountLock.RecordFailedAttempt(MAX_FAILED_ATTEMPTS, LOCKOUT_DURATION_MINUTES, elapsedAt, at)))
    case SucceedLogin(checkedAt) =>
      if u.accountLock.IsLockedOut(checkedAt) || u.deletedAt.Some? then None
      else Some(u.(accountLock := u.accountLock.RecordSuccessfulLogin()))
    case SpendBackupCode(candidate) =>
      var (verified, updated) := u.VerifyTwoFactor(false, candidate);
      if verified && u.deletedAt.None? then Some(updated) else None
    case BeginEnrolment(secret, hashes) =>
      if u.HasTwoFactor() || u.deletedAt.Some? then None
      else Some(u.(twoFactorSecret := Some(TwoFactorSecret(secret, hashes, None))))
    case ConfirmEnrolment(matches, at) =>
      if u.twoFactorSecret.None? || u.twoFactorSecret.value.enabledAt.Some? || u.deletedAt.Some? || !matches then None
      else Some(u.(twoFactorSecret := Some(u.twoFactorSecret.value.(enabledAt := Some(at)))))
    case DisableTwoFactor(matches) =>
      if u.deletedAt.Some? || !matches then None else Some(u.(twoFactorSecret := None))
    case RequestReset(token, at) =>
      if u.deletedAt.Some? then None
      else Some(u.(passwordResetToken := Some(PasswordResetToken.Create(token, at))))
    case ResetPassword(presented, hashedPassword, at) =>
      if u.passwordResetToken.None? || !u.passwordResetToken.value.IsValid(at)
         || u.passwordResetToken.value.tokenHash != presented then None
      else Some(u.(hashedPassword := hashedPassword, accountLock := u.accountLock.Unlock(),
                   passwordResetToken := Some(u.passwordResetToken.value.(isUsed := true))))
    case ChangePassword(hashedPassword) =>
      if u.deletedAt.Some? then None
      else Some(u.(hashedPassword := hashedPassword, accountLock := u.accountLock.Unlock(), passwordResetToken := None))
    case MarkEmailVerified(presented, checkedAt, at) =>
      if u.emailVerification.tokenHash != Some(presented) || !u.emailVerification.Verify(presented, checkedAt) then None
      else Some(u.(emailVerification := u.emailVerification.MarkVerified(at)))
    case Delete(at) =>
      if u.deletedAt.Some? then None else Some(u.(deletedAt := Some(at)))
    case UpdateProfile(username, email) =>
      if u.deletedAt.Some? then None
      else Some(WithEmail(if username.Some? then u.(username := username.value) else u, email))
  }

  // ----- backup codes -----

  ghost predicate Holds(u: User, h: TokenHash) {
    u.twoFactorSecret.Some? && h in u.twoFactorSecret.value.backupCodeHashes
  }

  predicate Enrols(op: Op, h: TokenHash) {
    op.BeginEnrolment? && h in op.hashes
  }

  /** Only an enrolment brings a hash back. */
  lemma PerformBringsNoCodeBack(u: User, op: Op, h: TokenHash)
    requires Perform(u, op).Some? && !Holds(u, h) && !Enrols(op, h)
    ensures !Holds(Perform(u, op).value, h)
  {
    if op.SpendBackupCode? {
      WithoutMembers(u.twoFactorSecret.value.backupCodeHashes, op.candidate, h);
    }
  }

  /** A code is spent only if it is held, and spending it removes every copy. */
  lemma SpendingRemoves(u: User, h: TokenHash)
    requires Perform(u, SpendBackupCode(h)).Some?
    ensures Holds(u, h) && !Holds(Perform(u, SpendBackupCode(h)).value, h)
  {
    WithoutMembers(u.twoFactorSecret.value.backupCodeHashes, h, h);
  }

  lemma {:induction false} SpentStaysSpent(u: User, ops: seq<Op>, i: nat, h: TokenHash, env: Setting<Op>)
    requires env.perform == Perform
    requires env.Serial(u, ops).Some? && i < |ops| && ops[i] == SpendBackupCode(h)
    requires forall k :: i < k < |ops| ==> !Enrols(ops[k], h)
    ensures !Holds(env.Serial(u, ops).value, h)
  {
    var init, last := ops[..|ops| - 1], ops[|ops| - 1];
    var before := env.Serial(u, init).value;
    if i == |ops| - 1 {
      SpendingRemoves(before, h);
    } else {
      SpentStaysSpent(u, init, i, h, env);
      PerformBringsNoCodeBack(before, last, h);
    }
  }

  lemma SpentTwiceNeedsEnrolment(u: User, log: seq<Op>, i: nat, j: nat, h: TokenHash, env: Setting<Op>)
    requires env.perform == Perform
    requires env.Serial(u, log).Some? && i < j < |log|
    requires log[i] == log[j] == SpendBackupCode(h)
    ensures exists k :: i < k < j && Enrols(log[k], h)
  {
    var prefix := log[..j + 1];
    SerialPrefix(u, log, j + 1, env);
    var init := prefix[..|prefix| - 1];
    assert env.Serial(u, init).Some?;
    SpendingRemoves(env.Serial(u, init).value, h);
    if forall k :: i < k < j ==> !Enrols(log[k], h) {
      SpentStaysSpent(u, init, i, h, env);
      assert false;
    }
  }

  /**
   A backup code is spent once. Of two committed transactions that spend the same code, a
   committed enrolment that issued the code again lies between.
   */
  lemma {:induction false} BackupCodeSpentOnce(row: UserRow, u: User, acts: seq<Action<Op>>, env: Setting<Op>, i: nat, j: nat, h: TokenHash)
    requires env.perform == Perform && env.Works() && RowToUser(row, env.decrypt) == Some(u)
    requires i < j < |Run(Start(row), acts, env).log|
    requires Run(Start(row), acts, env).log[i] == Run(Start(row), acts, env).log[j] == SpendBackupCode(h)
    ensures exists k :: i < k < j && Enrols(Run(Start(row), acts, env).log[k], h)
  {
    RowIsSerial(row, u, acts, env);
    SpentTwiceNeedsEnrolment(u, Run(Start(row), acts, env).log, i, j, h, env);
  }

  // ----- the lockout counter -----

  /** The part of a history that concerns the lock. */
  function LockEvents(ops: seq<Op>): seq<LockEvent> {
    if ops == [] then []
    else
      var earlier := LockEvents(ops[..|ops| - 1]);
      match LockEventOf(ops[|ops| - 1])
      case Some(e) => earlier + [e]
      case None => earlier
  }

  /** What one operation does to the lock, as an event if it is one. */
  function LockEventOf(op: Op): Option<LockEvent> {
    match op
    case FailLogin(checkedAt, elapsedAt, at) => Some(Failure(checkedAt, elapsedAt, at))
    case SucceedLogin(_) => Some(LoginSucceeded)
    case ResetPassword(_, _, _) => Some(PasswordCleared)
    case ChangePassword(_) => Some(PasswordCleared)
    case _ => None
  }

  lemma LockMoves(u: User, op: Op)
    requires Perform(u, op).Some?
    ensures match LockEventOf(op)
            case Some(e) => Permits(u.accountLock, e) && Perform(u, op).value.accountLock == Next(u.accountLock, e)
            case None => Perform(u, op).value.accountLock == u.accountLock
  {
  }

  /** The lock any operations leave is their lock events replayed after those that came before. */
  lemma {:induction false} LockFollowsItsEvents(u: User, prior: seq<LockEvent>, ops: seq<Op>, env: Setting<Op>)
    requires env.perform == Perform
    requires env.Serial(u, ops).Some? && Guarded(prior) && u.accountLock == Replay(prior)
    ensures Guarded(prior + LockEvents(ops)) && env.Serial(u, ops).value.accountLock == Replay(prior + LockEvents(ops))
  {
    if ops == [] {
      assert prior + [] == prior;
    } else {
      var init, last := ops[..|ops| - 1], ops[|ops| - 1];
      LockFollowsItsEvents(u, prior, init, env);
      LockMoves(env.Serial(u, init).value, last);
      match LockEventOf(last)
      case Some(e) =>
        OneEventMore(prior + LockEvents(init), e);
        assert prior + LockEvents(ops) == (prior + LockEvents(init)) + [e];
      case None =>
    }
  }

  /** The counter and the flag of a row that reads as a user with this lock history. */
  ghost predicate CountsFailures(row: UserRow, history: seq<LockEvent>) {
    var n := FailuresSinceCleared(history);
    row.failedAttempts == (if n == 0 then 0 else (n - 1) % 5 + 1) && (row.isLocked <==> n > 0 && n % 5 == 0)
  }

  lemma RowCountsFailures(row: UserRow, u: User, history: seq<LockEvent>, env: Setting<Op>)
    requires RowToUser(row, env.decrypt) == Some(u) && Guarded(history) && u.accountLock == Replay(history)
    ensures CountsFailures(row, history)
  {
    LockIsItsHistory(history);
  }

  /**
   No committed failure is lost. Whatever the interleaving, and whatever history the row had when
   it started, the stored counter is the number of failures in that history and the commits since
   the last success or password change, modulo the maximum.
   */
  lemma {:induction false} NoFailureIsLost(row: UserRow, u: User, prior: seq<LockEvent>, acts: seq<Action<Op>>, env: Setting<Op>)
    requires env.perform == Perform && env.Works() && RowToUser(row, env.decrypt) == Some(u)
    requires Guarded(prior) && u.accountLock == Replay(prior)
    ensures CountsFailures(Run(Start(row), acts, env).row, prior + LockEvents(Run(Start(row), acts, env).log))
  {
    var s := Run(Start(row), acts, env);
    RowIsSerial(row, u, acts, env);
    LockFollowsItsEvents(u, prior, s.log, env);
    RowCountsFailures(s.row, env.Serial(u, s.log).value, prior + LockEvents(s.log), env);
  }

  /** A write of a name or address that is taken is refused, whatever else holds. */
  lemma TakenIsRefused(s: State<Op>, c: nat, op: Op, nonce: int, env: Setting<Op>)
    ensures Step(s, Write(c, op, nonce, true), env) == s
  {
  }

  /** A login attempt, or the loading that precedes one, made while the given lock holds. */
  predicate AttemptDuring(a: Action<Op>, lock: AccountLockInfo) {
    a.Load? ||
    match a.op
    case FailLogin(checkedAt, _, _) => lock.IsLockedOut(checkedAt)
    case SucceedLogin(checkedAt) => lock.IsLockedOut(checkedAt)
    case _ => false
  }

  /**
   Logins never touch a lock that holds: not with the right password, not with a wrong one, not
   however many clients race. A timed lock is therefore never extended and an indefinite one,
   which holds at every moment, survives any number of attempts.
   */
  lemma {:induction false} LockedRowIsUntouched(s: State<Op>, acts: seq<Action<Op>>, u: User, env: Setting<Op>)
    requires env.perform == Perform && env.Works() && Inv(s, u, env)
    requires forall i :: 0 <= i < |acts| ==> AttemptDuring(acts[i], RowToUser(s.row, env.decrypt).value.accountLock)
    ensures Run(s, acts, env).row == s.row && Run(s, acts, env).log == s.log
  {
    if acts != [] {
      var init, a := acts[..|acts| - 1], acts[|acts| - 1];
      LockedRowIsUntouched(s, init, u, env);
      RunKeepsInv(s, init, u, env);
      var before := Run(s, init, env);
      if a.Write? && a.client in before.clients && before.clients[a.client].version == before.row.version {
        var held := before.clients[a.client];
        assert Snapshot(held, u, before.log, env);
        CurrentSnapshot(held, u, before.log, env);
        assert Perform(held, a.op) == None;
      }
    }
  }

  lemma IndefiniteLockHoldsAlways(lock: AccountLockInfo, now: Time)
    requires lock.isLocked
    ensures (forall t: Time :: lock.IsLockedOut(t)) <==> lock.lockUntil == None
    ensures lock.lockUntil.Some? ==> (lock.IsLockedOut(now) <==> now < lock.lockUntil.value)
  {
    if lock.lockUntil.Some? {
      assert !lock.IsLockedOut(lock.lockUntil.value);
    }
  }
}
