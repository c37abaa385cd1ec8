/** What each change of a user means for what the user and others can do next. */
module UserEffects {
  import opened Basics
  import opened AccountLock
  import opened User
  import opened OptimisticLock
  import opened UserWrites

  // ----- what an operation may touch -----

  /** Each field of a user, and the operations that can change it. */
  lemma EachFieldHasItsOperations(u: User, op: Op)
    requires Perform(u, op).Some?
    ensures var v := Perform(u, op).value;
            && v.id == u.id && v.version == u.version
            && (v.username != u.username || v.email != u.email ==> op.UpdateProfile?)
            && (v.hashedPassword != u.hashedPassword ==> op.ResetPassword? || op.ChangePassword?)
            && (v.passwordResetToken != u.passwordResetToken ==> op.RequestReset? || op.ResetPassword? || op.ChangePassword?)
            && (v.accountLock != u.accountLock ==> op.FailLogin? || op.SucceedLogin? || op.ResetPassword? || op.ChangePassword?)
            && (v.twoFactorSecret != u.twoFactorSecret
                ==> op.SpendBackupCode? || op.BeginEnrolment? || op.ConfirmEnrolment? || op.DisableTwoFactor?)
            && (v.emailVerification != u.emailVerification ==> op.MarkEmailVerified? || op.UpdateProfile?)
            && (v.deletedAt != u.deletedAt ==> op.Delete?)
  {
    if op.SpendBackupCode? {
      VerifyingTwoFactor(u, false, op.candidate);
    }
  }

  /** A deleted user can only finish what was started: reset the password, or confirm the address. */
  lemma DeletedUsersAreRefused(u: User, op: Op)
    requires u.deletedAt.Some? && Perform(u, op).Some?
    ensures op.ResetPassword? || op.MarkEmailVerified?
  {
  }

  lemma DeletingOnce(u: User, now: Time)
    ensures Perform(u, Delete(now)).Some? <==> u.deletedAt.None?
    ensures Perform(u, Delete(now)).Some? ==>
      Perform(u, Delete(now)).value.deletedAt == Some(now) && Perform(u, Delete(now)).value.(deletedAt := None) == u
  {
  }

  // ----- logins -----

  /** One failure more, or the first after a lock has run out; from the fifth a lock of fifteen minutes; the rest is kept. */
  ghost predicate CountsOneMore(before: AccountLockInfo, after: AccountLockInfo, elapsedAt: Time, now: Time) {
    && after.failedAttempts == (if before.LockWindowElapsed(elapsedAt) then 1 else before.failedAttempts + 1)
    && (after.isLocked <==> after.failedAttempts >= 5)
    && after.lockUntil == (if after.failedAttempts >= 5 then Some(now + Seconds(900)) else None)
    && after.lockedAt == before.lockedAt && after.lockReason == before.lockReason
  }

  /** An attempt is recorded exactly for a user who is there and not locked when the password is compared. */
  lemma LoginsAreRecorded(u: User, checkedAt: Time, elapsedAt: Time, now: Time)
    requires checkedAt <= elapsedAt <= now
    ensures Perform(u, FailLogin(checkedAt, elapsedAt, now)).Some? <==> u.deletedAt.None? && !u.accountLock.IsLockedOut(checkedAt)
    ensures Perform(u, SucceedLogin(checkedAt)).Some? <==> u.deletedAt.None? && !u.accountLock.IsLockedOut(checkedAt)
    ensures Perform(u, SucceedLogin(checkedAt)).Some? ==> Perform(u, SucceedLogin(checkedAt)).value.accountLock == Unlocked()
    ensures Perform(u, FailLogin(checkedAt, elapsedAt, now)).Some? ==>
      CountsOneMore(u.accountLock, Perform(u, FailLogin(checkedAt, elapsedAt, now)).value.accountLock, elapsedAt, now)
  {
  }

  // ----- passwords -----

  /**
   The user with this password and no lock, to whom no reset token is any use until another is
   requested. Nothing else differs but the version.
   */
  ghost predicate NewPassword(before: User, after: User, hashed: seq<byte>) {
    && after.hashedPassword == hashed
    && LockLifted(before.accountLock, after.accountLock)
    && (forall presented: TokenHash, other: seq<byte>, now: Time :: Perform(after, ResetPassword(presented, other, now)) == None)
    && after.(version := before.version, hashedPassword := before.hashedPassword, accountLock := before.accountLock,
              passwordResetToken := before.passwordResetToken) == before
  }

  /** Not locked at any moment, with no failure counted; only when the account was last locked is kept. */
  ghost predicate LockLifted(before: AccountLockInfo, after: AccountLockInfo) {
    && (forall now: Time :: !after.IsLockedOut(now))
    && after.failedAttempts == 0 && after.lockReason.None? && after.lockUntil.None? && after.lockedAt == before.lockedAt
  }

  lemma ChangedPasswordIsStored(u: User, hashed: seq<byte>)
    ensures Perform(u, ChangePassword(hashed)).Some? <==> u.deletedAt.None?
    ensures u.deletedAt.None? ==> NewPassword(u, Perform(u, ChangePassword(hashed)).value, hashed)
    ensures u.deletedAt.None? ==> Perform(u, ChangePassword(hashed)).value.passwordResetToken.None?
  {
  }

  lemma ResetPasswordIsStored(u: User, presented: TokenHash, hashed: seq<byte>, now: Time)
    ensures Perform(u, ResetPassword(presented, hashed, now)).Some?
       <==> exists held :: u.passwordResetToken == Some(held) && held.tokenHash == presented && !held.isUsed
              && held.expiresAt.Some? && now < held.expiresAt.value
    ensures Perform(u, ResetPassword(presented, hashed, now)).Some? ==>
      NewPassword(u, Perform(u, ResetPassword(presented, hashed, now)).value, hashed)
  {
  }

  /** A request opens the way for its own token, for an hour, and changes nothing else. */
  lemma RequestOpensAReset(u: User, token: TokenHash, requestedAt: Time, presented: TokenHash, hashed: seq<byte>, now: Time)
    ensures Perform(u, RequestReset(token, requestedAt)).Some? <==> u.deletedAt.None?
    ensures u.deletedAt.None? ==>
      var v := Perform(u, RequestReset(token, requestedAt)).value;
      && (Perform(v, ResetPassword(presented, hashed, now)).Some? <==> presented == token && now < requestedAt + Seconds(3600))
      && v.(passwordResetToken := u.passwordResetToken) == u
      && v.passwordResetToken.value.createdAt == Some(requestedAt)
  {
  }

  /** The operations that end whatever reset was open. */
  predicate SettlesReset(op: Op) {
    op.RequestReset? || op.ResetPassword? || op.ChangePassword?
  }

  /** The request a reset answers: the latest operation that concerns resets, with this token, less than an hour ago. */
  ghost predicate Answers(ops: seq<Op>, i: nat, presented: TokenHash, now: Time) {
    && i < |ops| && ops[i].RequestReset? && ops[i].token == presented && now < ops[i].at + Seconds(3600)
    && forall k :: i < k < |ops| ==> !SettlesReset(ops[k])
  }

  /** No operation concerns resets, and the user could reset from the start. */
  ghost predicate OpenFromTheStart(u: User, ops: seq<Op>, presented: TokenHash, hashed: seq<byte>, now: Time) {
    Perform(u, ResetPassword(presented, hashed, now)).Some? && forall k :: 0 <= k < |ops| ==> !SettlesReset(ops[k])
  }

  /** What one operation does to who can reset: a request decides it anew, a reset or a change ends it, others leave it. */
  lemma ResetAfter(u: User, op: Op, presented: TokenHash, hashed: seq<byte>, now: Time)
    requires Perform(u, op).Some?
    ensures Perform(NextVersion(Perform(u, op)).value, ResetPassword(presented, hashed, now)).Some?
       <==> if op.RequestReset? then op.token == presented && now < op.at + Seconds(3600)
            else !SettlesReset(op) && Perform(u, ResetPassword(presented, hashed, now)).Some?
  {
    EachFieldHasItsOperations(u, op);
  }

  /** The same for the request that is answered. */
  lemma AnswersAfter(ops: seq<Op>, init: seq<Op>, last: Op, presented: TokenHash, now: Time)
    requires |ops| == |init| + 1 && init == ops[..|init|] && last == ops[|init|]
    ensures (exists i :: Answers(ops, i, presented, now))
       <==> if last.RequestReset? then last.token == presented && now < last.at + Seconds(3600)
            else !SettlesReset(last) && exists i :: Answers(init, i, presented, now)
  {
    if last.RequestReset? && last.token == presented && now < last.at + Seconds(3600) {
      assert Answers(ops, |init|, presented, now);
    }
    if i: nat :| Answers(ops, i, presented, now) {
      assert i < |init| ==> !SettlesReset(ops[|init|]) && Answers(init, i, presented, now);
    }
    if i: nat :| Answers(init, i, presented, now) {
      assert !SettlesReset(last) ==> Answers(ops, i, presented, now);
    }
  }

  lemma OpenOneMore(u: User, ops: seq<Op>, init: seq<Op>, last: Op, presented: TokenHash, hashed: seq<byte>, now: Time)
    requires |ops| == |init| + 1 && init == ops[..|init|] && last == ops[|init|]
    ensures OpenFromTheStart(u, ops, presented, hashed, now) <==> OpenFromTheStart(u, init, presented, hashed, now) && !SettlesReset(last)
  {
  }

  /** Who can reset after these operations: the holder of the latest request, for an hour, and nobody else. */
  lemma {:induction false} ResetNeedsItsRequest(u: User, ops: seq<Op>, presented: TokenHash, hashed: seq<byte>, now: Time, env: Setting<Op>)
    requires env.perform == Perform && env.Serial(u, ops).Some?
    ensures Perform(env.Serial(u, ops).value, ResetPassword(presented, hashed, now)).Some?
       <==> (exists i :: Answers(ops, i, presented, now)) || OpenFromTheStart(u, ops, presented, hashed, now)
  {
    if ops != [] {
      var init, last := ops[..|ops| - 1], ops[|ops| - 1];
      ResetNeedsItsRequest(u, init, presented, hashed, now, env);
      ResetAfter(env.Serial(u, init).value, last, presented, hashed, now);
      AnswersAfter(ops, init, last, presented, now);
      OpenOneMore(u, ops, init, last, presented, hashed, now);
    }
  }

  /**
   A reset takes a request of its own. Whatever the interleaving, a committed reset has before it a
   committed request with the same token, less than an hour old, with no other reset, request or
   password change between the two; or it is the first of all these and uses the token the row
   started with. So no token resets twice.
   */
  lemma {:induction false} ResetAnswersARequest(row: UserRow, u: User, acts: seq<Action<Op>>, env: Setting<Op>, j: nat)
    requires env.perform == Perform && env.Works() && RowToUser(row, env.decrypt) == Some(u)
    requires j < |Run(Start(row), acts, env).log| && Run(Start(row), acts, env).log[j].ResetPassword?
    ensures var log := Run(Start(row), acts, env).log;
            || (exists i :: Answers(log[..j], i, log[j].presented, log[j].at))
            || OpenFromTheStart(u, log[..j], log[j].presented, log[j].hashedPassword, log[j].at)
  {
    var log := Run(Start(row), acts, env).log;
    RowIsSerial(row, u, acts, env);
    CommittedWasAccepted(u, log, j, env);
    ResetNeedsItsRequest(u, log[..j], log[j].presented, log[j].hashedPassword, log[j].at, env);
  }

  /** An operation in a serial history was accepted on what those before it had left. */
  lemma CommittedWasAccepted(u: User, log: seq<Op>, j: nat, env: Setting<Op>)
    requires env.Serial(u, log).Some? && j < |log|
    ensures env.Serial(u, log[..j]).Some? && env.perform(env.Serial(u, log[..j]).value, log[j]).Some?
  {
    SerialPrefix(u, log, j + 1, env);
    assert log[..j + 1][..j] == log[..j];
  }

  // ----- the second factor -----

  /**
   An enrolment from start to finish. Begun, it protects nothing and accepts no code; confirmed
   with a right code, it is on, with the given secret and exactly the given backup codes; it cannot
   be confirmed or begun again; switched off, the user is as before without any enrolment.
   */
  lemma EnrolmentFromStartToFinish(u: User, secret: string, hashes: seq<TokenHash>, matches: bool, confirmedAt: Time, candidate: TokenHash)
    ensures Perform(u, BeginEnrolment(secret, hashes)).Some? <==> u.deletedAt.None? && !u.HasTwoFactor()
    ensures u.deletedAt.None? && !u.HasTwoFactor() ==>
      var begun := Perform(u, BeginEnrolment(secret, hashes)).value;
      && !begun.HasTwoFactor() && (forall totp: bool :: begun.VerifyTwoFactor(totp, candidate) == (false, begun))
      && (Perform(begun, ConfirmEnrolment(matches, confirmedAt)).Some? <==> matches)
      && (matches ==> Enrolled(u, Perform(begun, ConfirmEnrolment(true, confirmedAt)).value, secret, hashes, confirmedAt))
  {
  }

  /** The user with this second factor and no other difference. */
  ghost predicate Enrolled(before: User, after: User, secret: string, hashes: seq<TokenHash>, when: Time) {
    && after.HasTwoFactor() && after.twoFactorSecret == Some(TwoFactorSecret(secret, hashes, Some(when)))
    && (forall code: TokenHash :: after.VerifyTwoFactor(false, code).0 <==> code in hashes)
    && (forall code: TokenHash :: after.VerifyTwoFactor(true, code).0)
    && (forall code: bool, now: Time :: Perform(after, ConfirmEnrolment(code, now)) == None)
    && (forall other: string, codes: seq<TokenHash> :: Perform(after, BeginEnrolment(other, codes)) == None)
    && Perform(after, DisableTwoFactor(false)) == None
    && Perform(after, DisableTwoFactor(true)) == Some(before.(twoFactorSecret := None))
  }

  /** A committed spending is accepted exactly if the factor is on and holds the code, and loses that code alone. */
  lemma SpendingLosesOneCode(u: User, spent: TokenHash)
    ensures Perform(u, SpendBackupCode(spent)).Some? <==> u.deletedAt.None? && u.HasTwoFactor() && Holds(u, spent)
    ensures Perform(u, SpendBackupCode(spent)).Some? ==> LosesOneCode(u, Perform(u, SpendBackupCode(spent)).value, spent)
  {
    VerifyingTwoFactor(u, false, spent);
  }

  predicate ReplacesCodes(op: Op) {
    op.BeginEnrolment? || op.DisableTwoFactor?
  }

  lemma {:induction false} CodesLeft(u: User, ops: seq<Op>, h: TokenHash, env: Setting<Op>)
    requires env.perform == Perform && env.Serial(u, ops).Some?
    requires forall k :: 0 <= k < |ops| ==> !ReplacesCodes(ops[k])
    ensures Holds(env.Serial(u, ops).value, h) <==> Holds(u, h) && SpendBackupCode(h) !in ops
  {
    if ops != [] {
      var init, last := ops[..|ops| - 1], ops[|ops| - 1];
      assert ops == init + [last];
      CodesLeft(u, init, h, env);
      CodeAfter(env.Serial(u, init).value, last, h);
    }
  }

  lemma SameMembers(before: seq<TokenHash>, after: seq<TokenHash>, spent: TokenHash, h: TokenHash)
    requires multiset(after) == multiset(before)[spent := 0]
    ensures h in after <==> h in before && h != spent
  {
    assert h in after <==> multiset(after)[h] > 0;
  }

  lemma CodeAfter(u: User, op: Op, h: TokenHash)
    requires Perform(u, op).Some? && !ReplacesCodes(op)
    ensures Holds(Perform(u, op).value, h) <==> Holds(u, h) && op != SpendBackupCode(h)
  {
    if op.SpendBackupCode? {
      SpendingLosesOneCode(u, op.candidate);
      var before: seq<TokenHash> := u.twoFactorSecret.value.backupCodeHashes;
      var after: seq<TokenHash> := Perform(u, op).value.twoFactorSecret.value.backupCodeHashes;
      SameMembers(before, after, op.candidate, h);
    }
  }

  /**
   No code is lost but by spending it. Whatever the interleaving, as long as nobody enrols again or
   switches the factor off, a code is there afterwards exactly if it was there and was not spent.
   */
  lemma {:induction false} CodesAreLostOnlyBySpending(row: UserRow, u: User, acts: seq<Action<Op>>, env: Setting<Op>, h: TokenHash)
    requires env.perform == Perform && env.Works() && RowToUser(row, env.decrypt) == Some(u)
    requires forall k :: 0 <= k < |Run(Start(row), acts, env).log| ==> !ReplacesCodes(Run(Start(row), acts, env).log[k])
    ensures var s := Run(Start(row), acts, env);
            RowToUser(s.row, env.decrypt).Some?
            && (Holds(RowToUser(s.row, env.decrypt).value, h) <==> Holds(u, h) && SpendBackupCode(h) !in s.log)
  {
    RowIsSerial(row, u, acts, env);
    CodesLeft(u, Run(Start(row), acts, env).log, h, env);
  }

  // ----- the profile -----

  /** A new name and address are stored; a different address starts unverified, the same one keeps its verification. */
  lemma ProfileIsStored(u: User, username: Option<string>, email: Option<EmailChange>)
    ensures Perform(u, UpdateProfile(username, email)).Some? <==> u.deletedAt.None?
    ensures u.deletedAt.None? ==>
      var v := Perform(u, UpdateProfile(username, email)).value;
      && v.username == (if username.Some? then username.value else u.username)
      && v.email == (if email.Some? then email.value.address else u.email)
      && (v.email == u.email ==> v.emailVerification == u.emailVerification)
      && (v.email != u.email ==> !v.emailVerification.isVerified && v.emailVerification.verifiedAt.None?)
      && v.(username := u.username, email := u.email, emailVerification := u.emailVerification) == u
  {
  }

  /** A changed address is confirmed with its own token within a day, once, and nothing else is changed by that. */
  lemma AddressIsConfirmedOnce(u: User, change: EmailChange, presented: TokenHash, checkedAt: Time, now: Time)
    requires u.deletedAt.None? && change.address != u.email
    ensures var v := Perform(u, UpdateProfile(None, Some(change))).value;
            var confirmed := Perform(v, MarkEmailVerified(presented, checkedAt, now));
            && (confirmed.Some? <==> presented == change.token && checkedAt < change.changedAt + Seconds(86_400))
            && (confirmed.Some? ==>
                  && confirmed.value.emailVerification.isVerified && confirmed.value.emailVerification.verifiedAt == Some(now)
                  && confirmed.value.(emailVerification := v.emailVerification) == v
                  && forall again: TokenHash, t: Time, t': Time :: Perform(confirmed.value, MarkEmailVerified(again, t, t')) == None)
  {
  }
}
