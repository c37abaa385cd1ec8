/** Completing a challenge: the only place where a session is made for an account with two factors. */
module CompleteTwoFactor {
  import opened Basics
  import opened MemoryCache
  import opened User
  import opened TwoFactorChallenge

  /** The clock as one completion reads it, in order. */
  datatype Readings = Readings(readAt: Time, lockAt: Time, usedAt: Time, verifyAt: Time, writeAt: Time)
  {
    predicate InOrder(from: Time) {
      from <= readAt <= lockAt <= usedAt <= verifyAt <= writeAt
    }
  }

  /** Where the database fails, if it does. Only a changed user is written before the commit. */
  datatype Database = Works | FailsAtUpdate | FailsAtCommit

  datatype Outcome =
    | ChallengeExpired
    | DatabaseError
    | SessionStarted(userId: int, deviceInfo: DeviceInfo, loginChallenge: Option<string>)

  /** A code that passed both checks and was remembered. */
  datatype Acceptance = Acceptance(
    token: string, userId: int, secret: string, code: string, byTotp: bool,
    readAt: Time, usedAt: Time, verifyAt: Time, rememberedAt: Time)

  datatype Completion = Completion(
    timed: TimedMap, users: map<int, User>, outcome: Outcome, counted: bool, accepted: Option<Acceptance>)

  /** May this account complete a challenge at all? */
  predicate Usable(users: map<int, User>, userId: int, now: Time) {
    userId in users && users[userId].deletedAt.None? && !users[userId].accountLock.IsLockedOut(now)
  }

  /** One call, as a function of the cache, the users and the clock. */
  function Complete(timed: TimedMap, users: map<int, User>, token: string, code: string, t: Readings, db: Database,
                    codeOf: (string, int) -> string, hashOf: string -> TokenHash): Completion
  {
    var (found, read) := ReadBack(timed, token, t.readAt);
    if found.None? then Completion(read, users, ChallengeExpired, false, None)
    else if !Usable(users, found.value.userId, t.lockAt)
    then Completion(read - {Pending(token)}, users, ChallengeExpired, false, None)
    else CheckCode(read, users, token, found.value, code, t, db, codeOf, hashOf)
  }

  /** The rest of the call, once a challenge for a usable account has been read. */
  function CheckCode(timed: TimedMap, users: map<int, User>, token: string, c: Challenge, code: string, t: Readings, db: Database,
                     codeOf: (string, int) -> string, hashOf: string -> TokenHash): Completion
    requires c.userId in users
  {
    var user := users[c.userId];
    var failed := Completion(FailureRecorded(timed, token, c, t.writeAt), users, ChallengeExpired, true, None);
    if Lookup(timed, UsedCode(c.userId, code), t.usedAt).Some? then failed
    else
      var matches := user.HasTwoFactor() && VerifyCode(codeOf, user.twoFactorSecret.value.secret, code, t.verifyAt);
      var (verified, updated) := user.VerifyTwoFactor(matches, hashOf(code));
      if !verified then failed
      else if updated != user && db == FailsAtUpdate
      then Completion(timed, users, DatabaseError, false, None)
      else
        var remembered := Written(timed, UsedCode(c.userId, code), Mark, Some(CODE_MEMORY_SECONDS), t.writeAt);
        var accepted := Acceptance(token, c.userId, user.twoFactorSecret.value.secret, code, matches,
                                   t.readAt, t.usedAt, t.verifyAt, t.writeAt);
        if db == FailsAtCommit
        then Completion(remembered - {Pending(token)}, users, DatabaseError, false, Some(accepted))
        else Completion(remembered - {Pending(token)},
                        if updated == user then users
                        else users[c.userId := updated.(version := updated.version + 1)],
                        SessionStarted(c.userId, c.deviceInfo, c.loginChallenge), false, Some(accepted))
  }

  /** Which of three things a call did: counted a failure, accepted a code, or at most closed the challenge. */
  ghost predicate Effect(timed: TimedMap, token: string, code: string, t: Readings, codeOf: (string, int) -> string, r: Completion) {
    var live := Lookup(timed, Pending(token), t.readAt);
    && (!r.counted && r.accepted.None? ==> r.timed == timed || r.timed == timed - {Pending(token)})
    && (r.counted || r.accepted.Some? ==> live.Some? && live.value.Stored?)
    && !(r.counted && r.accepted.Some?)
    && (r.counted ==> r.timed == FailureRecorded(timed, token, live.value.challenge.ToChallenge(), t.writeAt))
    && (r.accepted.Some? ==>
        var b := r.accepted.value;
        && b.token == token && b.code == code && b.readAt == t.readAt && b.usedAt == t.usedAt
        && b.verifyAt == t.verifyAt && b.rememberedAt == t.writeAt
        && (b.byTotp ==> VerifyCode(codeOf, b.secret, b.code, b.verifyAt))
        && Lookup(timed, UsedCode(b.userId, code), t.usedAt) == None
        && r.timed == Written(timed, UsedCode(b.userId, code), Mark, Some(CODE_MEMORY_SECONDS), t.writeAt) - {Pending(token)})
  }

  lemma CompletionEffect(timed: TimedMap, users: map<int, User>, token: string, code: string, t: Readings, db: Database,
                         codeOf: (string, int) -> string, hashOf: string -> TokenHash)
    ensures Effect(timed, token, code, t, codeOf, Complete(timed, users, token, code, t, db, codeOf, hashOf))
  {
  }

  // ----- when a session starts -----

  /** The cache holds this challenge under the token, and its time is not up. */
  ghost predicate HoldsChallenge(timed: TimedMap, token: string, c: StoredChallenge, now: Time) {
    && Pending(token) in timed && timed[Pending(token)].value == Stored(c)
    && (timed[Pending(token)].expiresAt.Some? ==> now < timed[Pending(token)].expiresAt.value)
  }

  /** The account exists, is not deleted, and no lock holds. */
  ghost predicate OpenAccount(users: map<int, User>, userId: int, now: Time) {
    && userId in users && users[userId].deletedAt == None
    && (users[userId].accountLock.isLocked ==>
          users[userId].accountLock.lockUntil.Some? && now >= users[userId].accountLock.lockUntil.value)
  }

  ghost predicate Remembered(timed: TimedMap, userId: int, code: string, now: Time) {
    && UsedCode(userId, code) in timed
    && (timed[UsedCode(userId, code)].expiresAt.Some? ==> now < timed[UsedCode(userId, code)].expiresAt.value)
  }

  /** The second factor is on and this is the authenticator's code of the moment. */
  ghost predicate ByAuthenticator(u: User, code: string, now: Time, codeOf: (string, int) -> string) {
    && u.twoFactorSecret.Some? && u.twoFactorSecret.value.enabledAt.Some?
    && exists counter :: AcceptedFor(codeOf, u.twoFactorSecret.value.secret, code, now, counter)
  }

  ghost predicate ByBackupCode(u: User, code: string, hashOf: string -> TokenHash) {
    && u.twoFactorSecret.Some? && u.twoFactorSecret.value.enabledAt.Some?
    && hashOf(code) in u.twoFactorSecret.value.backupCodeHashes
  }

  /** The challenge is live, its account open, and its code neither spent nor wrong. */
  ghost predicate Deserved(timed: TimedMap, users: map<int, User>, token: string, code: string, t: Readings,
                           codeOf: (string, int) -> string, hashOf: string -> TokenHash, c: StoredChallenge)
  {
    && HoldsChallenge(timed, token, c, t.readAt) && OpenAccount(users, c.userId, t.lockAt)
    && !Remembered(timed, c.userId, code, t.usedAt)
    && (ByAuthenticator(users[c.userId], code, t.verifyAt, codeOf) || ByBackupCode(users[c.userId], code, hashOf))
  }

  /** The database takes what has to be written: a user only when a backup code was spent. */
  ghost predicate Serves(db: Database, u: User, code: string, now: Time, codeOf: (string, int) -> string) {
    db == Works || (db == FailsAtUpdate && ByAuthenticator(u, code, now, codeOf))
  }

  function SecretOf(u: User): Option<string> {
    if u.twoFactorSecret.Some? then Some(u.twoFactorSecret.value.secret) else None
  }

  lemma AuthenticatorIsVerifyCode(u: User, code: string, now: Time, codeOf: (string, int) -> string)
    ensures ByAuthenticator(u, code, now, codeOf) <==> u.HasTwoFactor() && VerifyCode(codeOf, u.twoFactorSecret.value.secret, code, now)
  {
    if u.HasTwoFactor() {
      VerifiesItsWindow(codeOf, u.twoFactorSecret.value.secret, code, now);
    }
  }

  /** Not remembered, and either the authenticator's code or a backup code. */
  ghost predicate Good(timed: TimedMap, u: User, userId: int, code: string, t: Readings,
                       codeOf: (string, int) -> string, hashOf: string -> TokenHash)
  {
    !Remembered(timed, userId, code, t.usedAt) && (ByAuthenticator(u, code, t.verifyAt, codeOf) || ByBackupCode(u, code, hashOf))
  }

  /** A live challenge of an open account is decided by its code; of any other, it is closed and that is all. */
  lemma LiveChallengeIsRead(timed: TimedMap, users: map<int, User>, token: string, code: string, t: Readings, db: Database,
                            codeOf: (string, int) -> string, hashOf: string -> TokenHash, c: StoredChallenge)
    requires HoldsChallenge(timed, token, c, t.readAt)
    ensures OpenAccount(users, c.userId, t.lockAt) ==>
      Complete(timed, users, token, code, t, db, codeOf, hashOf) == CheckCode(timed, users, token, c.ToChallenge(), code, t, db, codeOf, hashOf)
    ensures !OpenAccount(users, c.userId, t.lockAt) ==>
      Complete(timed, users, token, code, t, db, codeOf, hashOf) == Completion(timed - {Pending(token)}, users, ChallengeExpired, false, None)
  {
  }

  /** What becomes of a code: a failure if it is not good, nothing if the database fails, a session otherwise. */
  lemma CodeIsDecided(timed: TimedMap, users: map<int, User>, token: string, c: Challenge, code: string, t: Readings, db: Database,
                      codeOf: (string, int) -> string, hashOf: string -> TokenHash)
    requires c.userId in users
    ensures var u, r := users[c.userId], CheckCode(timed, users, token, c, code, t, db, codeOf, hashOf);
            if !Good(timed, u, c.userId, code, t, codeOf, hashOf)
            then r == Completion(FailureRecorded(timed, token, c, t.writeAt), users, ChallengeExpired, true, None)
            else if !Serves(db, u, code, t.verifyAt, codeOf) then r.outcome == DatabaseError && r.users == users && !r.counted
            else && r.outcome == SessionStarted(c.userId, c.deviceInfo, c.loginChallenge) && !r.counted && r.accepted.Some?
                 && r.timed == Written(timed, UsedCode(c.userId, code), Mark, Some(120), t.writeAt) - {Pending(token)}
                 && OnlyLoses(users, r.users, c.userId, ByAuthenticator(u, code, t.verifyAt, codeOf), hashOf(code))
  {
    AuthenticatorIsVerifyCode(users[c.userId], code, t.verifyAt, codeOf);
    VerifyingTwoFactor(users[c.userId], ByAuthenticator(users[c.userId], code, t.verifyAt, codeOf), hashOf(code));
  }

  /** Nothing changes, or one user loses one backup code under the next version. */
  ghost predicate OnlyLoses(before: map<int, User>, after: map<int, User>, userId: int, nothing: bool, spent: TokenHash) {
    if nothing then after == before
    else && userId in before && after.Keys == before.Keys
         && (forall id :: id in before && id != userId ==> after[id] == before[id])
         && after[userId].version == before[userId].version + 1
         && LosesOneCode(before[userId], after[userId].(version := before[userId].version), spent)
  }

  /** What the call answers about a live challenge. */
  lemma AnswerToAChallenge(timed: TimedMap, users: map<int, User>, token: string, code: string, t: Readings, db: Database,
                           codeOf: (string, int) -> string, hashOf: string -> TokenHash, c: StoredChallenge)
    requires HoldsChallenge(timed, token, c, t.readAt)
    ensures var r := Complete(timed, users, token, code, t, db, codeOf, hashOf);
            if !Deserved(timed, users, token, code, t, codeOf, hashOf, c) then r.outcome == ChallengeExpired
            else if Serves(db, users[c.userId], code, t.verifyAt, codeOf)
            then r.outcome == SessionStarted(c.userId, DeviceInfo(c.userAgent, c.ipAddress, None, None, None, false), c.loginChallenge)
            else r.outcome == DatabaseError
  {
    LiveChallengeIsRead(timed, users, token, code, t, db, codeOf, hashOf, c);
    if OpenAccount(users, c.userId, t.lockAt) {
      CodeIsDecided(timed, users, token, c.ToChallenge(), code, t, db, codeOf, hashOf);
    }
  }

  /**
   When a session starts. For every cache, user table and clock: exactly when a live challenge is
   there, its account exists and is neither deleted nor locked, the code is not remembered, it is
   the authenticator's or a backup code, and the database works; and then for the challenge's own
   user, device and login challenge.
   */
  lemma SessionStartsExactlyWhen(timed: TimedMap, users: map<int, User>, token: string, code: string, t: Readings, db: Database,
                                 codeOf: (string, int) -> string, hashOf: string -> TokenHash)
    ensures var r := Complete(timed, users, token, code, t, db, codeOf, hashOf);
            && (r.outcome.SessionStarted? <==> exists c ::
                  Deserved(timed, users, token, code, t, codeOf, hashOf, c) && Serves(db, users[c.userId], code, t.verifyAt, codeOf))
            && (forall c :: r.outcome.SessionStarted? && HoldsChallenge(timed, token, c, t.readAt) ==>
                  r.outcome == SessionStarted(c.userId, DeviceInfo(c.userAgent, c.ipAddress, None, None, None, false), c.loginChallenge))
            && (r.outcome.DatabaseError? <==> exists c ::
                  Deserved(timed, users, token, code, t, codeOf, hashOf, c) && !Serves(db, users[c.userId], code, t.verifyAt, codeOf))
            && (!r.outcome.SessionStarted? ==> r.users == users)
            && (r.outcome.SessionStarted? ==> r.accepted.Some? && r.accepted.value.userId == r.outcome.userId && r.outcome.userId in users
                                              && Some(r.accepted.value.secret) == SecretOf(users[r.outcome.userId]))
  {
    forall c | HoldsChallenge(timed, token, c, t.readAt)
      ensures var r := Complete(timed, users, token, code, t, db, codeOf, hashOf);
              if !Deserved(timed, users, token, code, t, codeOf, hashOf, c) then r.outcome == ChallengeExpired
              else if Serves(db, users[c.userId], code, t.verifyAt, codeOf)
              then r.outcome == SessionStarted(c.userId, DeviceInfo(c.userAgent, c.ipAddress, None, None, None, false), c.loginChallenge)
              else r.outcome == DatabaseError
    {
      AnswerToAChallenge(timed, users, token, code, t, db, codeOf, hashOf, c);
    }
    var found := Lookup(timed, Pending(token), t.readAt);
    if found.Some? && found.value.Stored? {
      assert HoldsChallenge(timed, token, found.value.challenge, t.readAt);
    }
  }

  /** Users change only by losing the backup code that started the session, one user and one code. */
  lemma OnlyTheSpentCodeIsLost(timed: TimedMap, users: map<int, User>, token: string, code: string, t: Readings, db: Database,
                               codeOf: (string, int) -> string, hashOf: string -> TokenHash, c: StoredChallenge)
    requires HoldsChallenge(timed, token, c, t.readAt)
    ensures var r := Complete(timed, users, token, code, t, db, codeOf, hashOf);
            OnlyLoses(users, r.users, c.userId,
                      !r.outcome.SessionStarted? || ByAuthenticator(users[c.userId], code, t.verifyAt, codeOf), hashOf(code))
  {
    LiveChallengeIsRead(timed, users, token, code, t, db, codeOf, hashOf, c);
    if OpenAccount(users, c.userId, t.lockAt) {
      CodeIsDecided(timed, users, token, c.ToChallenge(), code, t, db, codeOf, hashOf);
    }
  }

  lemma WrittenIsRemembered(timed: TimedMap, userId: int, code: string, now: Time, token: string, later: Time)
    ensures var after := Written(timed, UsedCode(userId, code), Mark, Some(120), now) - {Pending(token)};
            Pending(token) !in after && (Remembered(after, userId, code, later) <==> later < now + Seconds(120))
  {
  }

  /** What a call leaves in the cache for later ones, of the code and of the challenge. */
  lemma SpentCodeAndChallenge(timed: TimedMap, users: map<int, User>, token: string, code: string, t: Readings, db: Database,
                              codeOf: (string, int) -> string, hashOf: string -> TokenHash, c: StoredChallenge, later: Time)
    requires HoldsChallenge(timed, token, c, t.readAt)
    ensures var r := Complete(timed, users, token, code, t, db, codeOf, hashOf);
            && (r.outcome.SessionStarted? ==> Pending(token) !in r.timed)
            && (r.outcome.SessionStarted? ==> (Remembered(r.timed, c.userId, code, later) <==> later < t.writeAt + Seconds(120)))
            && (r.counted <==> OpenAccount(users, c.userId, t.lockAt) && !Deserved(timed, users, token, code, t, codeOf, hashOf, c))
            && (!OpenAccount(users, c.userId, t.lockAt) ==> r.timed == timed - {Pending(token)})
  {
    LiveChallengeIsRead(timed, users, token, code, t, db, codeOf, hashOf, c);
    if OpenAccount(users, c.userId, t.lockAt) {
      CodeIsDecided(timed, users, token, c.ToChallenge(), code, t, db, codeOf, hashOf);
      WrittenIsRemembered(timed, c.userId, code, t.writeAt, token, later);
    }
  }

  class CompleteTwoFactorUseCase {
    const challenges: CachedTwoFactorChallengeStore
    const usedCodes: UsedCodeRegistry
    var users: map<int, User>

    constructor (challenges: CachedTwoFactorChallengeStore, usedCodes: UsedCodeRegistry, users: map<int, User>)
      ensures this.challenges == challenges && this.usedCodes == usedCodes && this.users == users
    {
      this.challenges, this.usedCodes, this.users := challenges, usedCodes, users;
    }

    method Call(token: string, code: string, t: Readings, db: Database,
                codeOf: (string, int) -> string, hashOf: string -> TokenHash) returns (outcome: Outcome)
      requires usedCodes.cache == challenges.cache
      requires challenges.cache.Valid() && t.InOrder(challenges.cache.clock)
      modifies this, challenges.cache
      ensures challenges.cache.Valid() && challenges.cache.clock <= t.writeAt
      ensures var r := Complete(old(challenges.cache.timed), old(users), token, code, t, db, codeOf, hashOf);
              challenges.cache.timed == r.timed && users == r.users && outcome == r.outcome
    {
      var found := challenges.Read(token, t.readAt);
      if found.None? {
        return ChallengeExpired;
      }
      if !Usable(users, found.value.userId, t.lockAt) {
        challenges.Discard(token);
        return ChallengeExpired;
      }
      outcome := Check(token, found.value, code, t, db, codeOf, hashOf);
    }

    method Check(token: string, c: Challenge, code: string, t: Readings, db: Database,
                 codeOf: (string, int) -> string, hashOf: string -> TokenHash) returns (outcome: Outcome)
      requires usedCodes.cache == challenges.cache && c.userId in users
      requires challenges.cache.Valid() && challenges.cache.clock <= t.usedAt <= t.verifyAt <= t.writeAt
      modifies this, challenges.cache
      ensures challenges.cache.Valid() && challenges.cache.clock <= t.writeAt
      ensures var r := CheckCode(old(challenges.cache.timed), old(users), token, c, code, t, db, codeOf, hashOf);
              challenges.cache.timed == r.timed && users == r.users && outcome == r.outcome
    {
      var user := users[c.userId];
      var used := usedCodes.WasUsed(c.userId, code, t.usedAt);
      if used {
        var _ := challenges.RecordFailure(token, c, t.writeAt);
        return ChallengeExpired;
      }
      var matches := user.HasTwoFactor() && VerifyCode(codeOf, user.twoFactorSecret.value.secret, code, t.verifyAt);
      var (verified, updated) := user.VerifyTwoFactor(matches, hashOf(code));
      if !verified {
        var _ := challenges.RecordFailure(token, c, t.writeAt);
        return ChallengeExpired;
      }
      if updated != user && db == FailsAtUpdate {
        return DatabaseError;
      }
      usedCodes.Remember(c.userId, code, t.writeAt);
      challenges.Discard(token);
      if db == FailsAtCommit {
        return DatabaseError;
      }
      if updated != user {
        users := users[c.userId := updated.(version := updated.version + 1)];
      }
      outcome := SessionStarted(c.userId, c.deviceInfo, c.loginChallenge);
    }
  }

  // ----- whole runs -----

  /**
   Issues, completions and any changes whatever to the users, one after another. `issued`,
   `written` (when a challenge was issued, and when it was issued or its latest failure counted),
   `failures` and `accepted` record what happened; no step consults them except to keep an
   issued token fresh.
   */
  datatype World = World(
    clock: Time, timed: TimedMap, users: map<int, User>,
    issued: map<string, Time>, written: map<string, Time>, failures: map<string, nat>, accepted: seq<Acceptance>)

  datatype Action =
    | IssueChallenge(token: string, challenge: Challenge, at: Time)
    | CompleteChallenge(token: string, code: string, readings: Readings, db: Database)
    | ChangeUsers(changed: map<int, User>)

  /** `delay` bounds how long one completion takes between its first and its last clock reading. */
  predicate Enabled(w: World, a: Action, delay: nat) {
    match a
    case IssueChallenge(token, c, at) => token !in w.issued && c.attempts == 0 && w.clock <= at
    case CompleteChallenge(_, _, t, _) => t.InOrder(w.clock) && t.writeAt - t.readAt <= delay
    case ChangeUsers(_) => true
  }

  function AfterCompletion(w: World, token: string, now: Time, r: Completion): World {
    w.(clock := now, timed := r.timed, users := r.users,
       written := if r.counted && token in w.written then w.written[token := now] else w.written,
       failures := if r.counted && token in w.failures then w.failures[token := w.failures[token] + 1] else w.failures,
       accepted := if r.accepted.Some? then w.accepted + [r.accepted.value] else w.accepted)
  }

  function Step(w: World, a: Action, codeOf: (string, int) -> string, hashOf: string -> TokenHash): World {
    match a
    case IssueChallenge(token, c, at) =>
      w.(clock := at, timed := Issued(w.timed, token, c, at), issued := w.issued[token := at],
         written := w.written[token := at], failures := w.failures[token := 0])
    case CompleteChallenge(token, code, t, db) =>
      AfterCompletion(w, token, t.writeAt, Complete(w.timed, w.users, token, code, t, db, codeOf, hashOf))
    case ChangeUsers(changed) => w.(users := changed)
  }

  function Run(w: World, acts: seq<Action>, codeOf: (string, int) -> string, hashOf: string -> TokenHash): World {
    if acts == [] then w
    else Step(Run(w, acts[..|acts| - 1], codeOf, hashOf), acts[|acts| - 1], codeOf, hashOf)
  }

  predicate Legal(w: World, acts: seq<Action>, delay: nat, codeOf: (string, int) -> string, hashOf: string -> TokenHash) {
    acts == [] ||
    (var before := acts[..|acts| - 1];
     && Legal(w, before, delay, codeOf, hashOf)
     && Enabled(Run(w, before, codeOf, hashOf), acts[|acts| - 1], delay))
  }

  function Start(users: map<int, User>, now: Time): World {
    World(now, map[], users, map[], map[], map[], [])
  }

  /** How many completions a token has to its name. */
  function Uses(accepted: seq<Acceptance>, token: string): nat {
    if accepted == [] then 0
    else Uses(accepted[..|accepted| - 1], token) + Bit(accepted[|accepted| - 1].token == token)
  }

  /** How long after its issue a challenge with this many counted failures can still be live. */
  function LifeBound(failures: nat, delay: nat): int {
    if failures == 0 then Seconds(CHALLENGE_TTL_SECONDS)
    else LifeBound(failures - 1, delay) + Seconds(CHALLENGE_TTL_SECONDS) + delay
  }

  lemma {:induction false} LifeBoundGrows(few: nat, many: nat, delay: nat)
    requires few <= many
    ensures LifeBound(few, delay) <= LifeBound(many, delay)
  {
    if few < many {
      LifeBoundGrows(few, many - 1, delay);
    }
  }

  lemma FiveLives(delay: nat)
    ensures LifeBound(4, delay) == Seconds(1500) + 4 * delay
  {
    var one, two, three := LifeBound(1, delay), LifeBound(2, delay), LifeBound(3, delay);
    assert LifeBound(0, delay) == Seconds(300);
    assert one == Seconds(600) + delay;
    assert two == one + Seconds(300) + delay;
    assert three == two + Seconds(300) + delay;
  }

  ghost predicate TokenInv(w: World, token: string, delay: nat) {
    var p := Pending(token);
    if token !in w.issued then
      p !in w.timed && token !in w.failures && token !in w.written && Uses(w.accepted, token) == 0
    else
      && token in w.failures && w.failures[token] <= MAX_ATTEMPTS
      && token in w.written && w.issued[token] <= w.written[token] <= w.clock
      && (w.failures[token] == 0 ==> w.written[token] == w.issued[token])
      && Uses(w.accepted, token) <= 1
      && (p in w.timed ==>
          && Uses(w.accepted, token) == 0 && w.failures[token] < MAX_ATTEMPTS
          && w.timed[p].value.Stored? && w.timed[p].value.challenge.attempts == w.failures[token]
          && w.timed[p].expiresAt == Some(w.written[token] + Seconds(CHALLENGE_TTL_SECONDS))
          && w.timed[p].expiresAt.value <= w.issued[token] + LifeBound(w.failures[token], delay))
  }

  /** An accepted code is still remembered for the user, or was for long enough. */
  ghost predicate AcceptanceInv(w: World, i: nat, codeOf: (string, int) -> string, delay: nat)
    requires i < |w.accepted|
  {
    var a := w.accepted[i];
    && a.usedAt <= a.verifyAt <= a.rememberedAt
    && (a.byTotp ==> VerifyCode(codeOf, a.secret, a.code, a.verifyAt))
    && a.token in w.issued && a.readAt < w.issued[a.token] + LifeBound(4, delay)
    && UsedCode(a.userId, a.code) in w.timed
    && w.timed[UsedCode(a.userId, a.code)].expiresAt.Some?
    && w.timed[UsedCode(a.userId, a.code)].expiresAt.value >= a.rememberedAt + Seconds(CODE_MEMORY_SECONDS)
  }

  /** The same code for the same user waits until the first acceptance has been forgotten. */
  ghost predicate Apart(a: Acceptance, b: Acceptance) {
    a.userId == b.userId && a.code == b.code ==> b.usedAt >= a.rememberedAt + Seconds(CODE_MEMORY_SECONDS)
  }

  ghost predicate Spaced(accepted: seq<Acceptance>) {
    forall i, j :: 0 <= i < j < |accepted| ==> Apart(accepted[i], accepted[j])
  }

  lemma SpacedApart(accepted: seq<Acceptance>, i: nat, j: nat)
    requires Spaced(accepted) && i < j < |accepted|
    ensures Apart(accepted[i], accepted[j])
  {
  }

  ghost predicate Inv(w: World, codeOf: (string, int) -> string, delay: nat) {
    && (forall token {:trigger TokenInv(w, token, delay)} :: TokenInv(w, token, delay))
    && (forall i {:trigger w.accepted[i]} :: 0 <= i < |w.accepted| ==> AcceptanceInv(w, i, codeOf, delay))
    && Spaced(w.accepted)
  }

  lemma IssueKeepsInv(w: World, a: Action, delay: nat, codeOf: (string, int) -> string, hashOf: string -> TokenHash)
    requires a.IssueChallenge? && Inv(w, codeOf, delay) && Enabled(w, a, delay)
    ensures Inv(Step(w, a, codeOf, hashOf), codeOf, delay)
  {
    var w' := Step(w, a, codeOf, hashOf);
    forall token
      ensures TokenInv(w', token, delay)
    {
      assert TokenInv(w, token, delay);
    }
    forall i | 0 <= i < |w'.accepted|
      ensures AcceptanceInv(w', i, codeOf, delay)
    {
      assert AcceptanceInv(w, i, codeOf, delay);
      assert w.accepted[i].token != a.token;
    }
  }

  lemma UsesNext(accepted: seq<Acceptance>, a: Acceptance, token: string)
    ensures Uses(accepted + [a], token) == Uses(accepted, token) + Bit(a.token == token)
  {
    assert (accepted + [a])[..|accepted|] == accepted;
  }

  /** A completion that could have been taken in this state, whatever it found. */
  ghost predicate Possible(w: World, token: string, code: string, t: Readings, r: Completion, delay: nat, codeOf: (string, int) -> string) {
    Inv(w, codeOf, delay) && t.InOrder(w.clock) && t.writeAt - t.readAt <= delay && Effect(w.timed, token, code, t, codeOf, r)
  }

  lemma OthersStand(w: World, spent: string, code: string, t: Readings, r: Completion, delay: nat,
                    codeOf: (string, int) -> string, token: string)
    requires TokenInv(w, token, delay) && w.clock <= t.writeAt && token != spent
    requires Effect(w.timed, spent, code, t, codeOf, r)
    ensures TokenInv(AfterCompletion(w, spent, t.writeAt, r), token, delay)
  {
    if r.accepted.Some? {
      UsesNext(w.accepted, r.accepted.value, token);
    }
  }

  lemma FailureIsCounted(w: World, token: string, code: string, t: Readings, r: Completion, delay: nat,
                         codeOf: (string, int) -> string)
    requires TokenInv(w, token, delay) && t.InOrder(w.clock) && t.writeAt - t.readAt <= delay
    requires Effect(w.timed, token, code, t, codeOf, r) && r.counted
    ensures TokenInv(AfterCompletion(w, token, t.writeAt, r), token, delay)
  {
    assert r.accepted.None?;
  }

  lemma SpentOrClosed(w: World, token: string, code: string, t: Readings, r: Completion, delay: nat,
                      codeOf: (string, int) -> string)
    requires TokenInv(w, token, delay) && t.InOrder(w.clock)
    requires Effect(w.timed, token, code, t, codeOf, r) && !r.counted
    ensures TokenInv(AfterCompletion(w, token, t.writeAt, r), token, delay)
  {
    if r.accepted.Some? {
      UsesNext(w.accepted, r.accepted.value, token);
    }
  }

  lemma CompletionKeepsTokens(w: World, spent: string, code: string, t: Readings, r: Completion, delay: nat,
                              codeOf: (string, int) -> string, token: string)
    requires Possible(w, spent, code, t, r, delay, codeOf)
    ensures TokenInv(AfterCompletion(w, spent, t.writeAt, r), token, delay)
  {
    assert TokenInv(w, token, delay);
    if token != spent {
      OthersStand(w, spent, code, t, r, delay, codeOf, token);
    } else if r.counted {
      FailureIsCounted(w, token, code, t, r, delay, codeOf);
    } else {
      SpentOrClosed(w, token, code, t, r, delay, codeOf);
    }
  }

  lemma CompletionKeepsAcceptances(w: World, spent: string, code: string, t: Readings, r: Completion, delay: nat,
                                   codeOf: (string, int) -> string, i: nat)
    requires Possible(w, spent, code, t, r, delay, codeOf)
    requires i < |AfterCompletion(w, spent, t.writeAt, r).accepted|
    ensures AcceptanceInv(AfterCompletion(w, spent, t.writeAt, r), i, codeOf, delay)
  {
    assert TokenInv(w, spent, delay);
    if i < |w.accepted| {
      assert AcceptanceInv(w, i, codeOf, delay);
    } else {
      LifeBoundGrows(w.failures[spent], 4, delay);
    }
  }

  lemma CompletionKeepsSpacing(w: World, spent: string, code: string, t: Readings, r: Completion, delay: nat,
                               codeOf: (string, int) -> string)
    requires Possible(w, spent, code, t, r, delay, codeOf)
    ensures Spaced(AfterCompletion(w, spent, t.writeAt, r).accepted)
  {
    var accepted := AfterCompletion(w, spent, t.writeAt, r).accepted;
    forall i, j | 0 <= i < j < |accepted|
      ensures Apart(accepted[i], accepted[j])
    {
      if j < |w.accepted| {
        SpacedApart(w.accepted, i, j);
      } else {
        assert AcceptanceInv(w, i, codeOf, delay);
      }
    }
  }

  lemma CompletionKeepsInv(w: World, spent: string, code: string, t: Readings, r: Completion, delay: nat, codeOf: (string, int) -> string)
    requires Possible(w, spent, code, t, r, delay, codeOf)
    ensures Inv(AfterCompletion(w, spent, t.writeAt, r), codeOf, delay)
  {
    var w' := AfterCompletion(w, spent, t.writeAt, r);
    forall token ensures TokenInv(w', token, delay) {
      CompletionKeepsTokens(w, spent, code, t, r, delay, codeOf, token);
    }
    forall i | 0 <= i < |w'.accepted| ensures AcceptanceInv(w', i, codeOf, delay) {
      CompletionKeepsAcceptances(w, spent, code, t, r, delay, codeOf, i);
    }
    CompletionKeepsSpacing(w, spent, code, t, r, delay, codeOf);
  }

  lemma StepKeepsInv(w: World, a: Action, delay: nat, codeOf: (string, int) -> string, hashOf: string -> TokenHash)
    requires Inv(w, codeOf, delay) && Enabled(w, a, delay)
    ensures Inv(Step(w, a, codeOf, hashOf), codeOf, delay)
  {
    var w' := Step(w, a, codeOf, hashOf);
    match a
    case IssueChallenge(_, _, _) => IssueKeepsInv(w, a, delay, codeOf, hashOf);
    case CompleteChallenge(token, code, t, db) =>
      CompletionEffect(w.timed, w.users, token, code, t, db, codeOf, hashOf);
      CompletionKeepsInv(w, token, code, t, Complete(w.timed, w.users, token, code, t, db, codeOf, hashOf), delay, codeOf);
    case ChangeUsers(_) =>
      forall token ensures TokenInv(w', token, delay) {
        assert TokenInv(w, token, delay);
      }
      forall i | 0 <= i < |w'.accepted| ensures AcceptanceInv(w', i, codeOf, delay) {
        assert AcceptanceInv(w, i, codeOf, delay);
      }
  }

  lemma {:induction false} RunKeepsInv(users: map<int, User>, now: Time, acts: seq<Action>, delay: nat,
                                       codeOf: (string, int) -> string, hashOf: string -> TokenHash)
    requires Legal(Start(users, now), acts, delay, codeOf, hashOf)
    ensures Inv(Run(Start(users, now), acts, codeOf, hashOf), codeOf, delay)
  {
    if acts != [] {
      var before := acts[..|acts| - 1];
      RunKeepsInv(users, now, before, delay, codeOf, hashOf);
      StepKeepsInv(Run(Start(users, now), before, codeOf, hashOf), acts[|acts| - 1], delay, codeOf, hashOf);
    }
  }

  /** Every session that a completion starts has its acceptance on record, and no other step records one. */
  lemma SessionsAreRecorded(w: World, a: Action, codeOf: (string, int) -> string, hashOf: string -> TokenHash)
    ensures var w' := Step(w, a, codeOf, hashOf);
            && (!a.CompleteChallenge? ==> w'.accepted == w.accepted)
            && (a.CompleteChallenge? ==>
                  var outcome := Complete(w.timed, w.users, a.token, a.code, a.readings, a.db, codeOf, hashOf).outcome;
                  && (outcome.SessionStarted? ==>
                        && |w'.accepted| == |w.accepted| + 1 && w'.accepted[..|w.accepted|] == w.accepted
                        && w'.accepted[|w.accepted|].token == a.token && w'.accepted[|w.accepted|].code == a.code
                        && w'.accepted[|w.accepted|].userId == outcome.userId
                        && w'.accepted[|w.accepted|].verifyAt == a.readings.verifyAt)
                  && (outcome.ChallengeExpired? ==> w'.accepted == w.accepted))
  {
  }

  /**
   A one-time password is used once. In any run, for any generator, no time-step counter of a
   secret is the reason for two acceptances for the same user.
   */
  lemma {:induction false} CounterAcceptedOnce(users: map<int, User>, now: Time, acts: seq<Action>, delay: nat,
                            codeOf: (string, int) -> string, hashOf: string -> TokenHash, i: nat, j: nat, counter: int)
    requires Legal(Start(users, now), acts, delay, codeOf, hashOf)
    requires i < j < |Run(Start(users, now), acts, codeOf, hashOf).accepted|
    requires var a, b := Run(Start(users, now), acts, codeOf, hashOf).accepted[i], Run(Start(users, now), acts, codeOf, hashOf).accepted[j];
             a.userId == b.userId && a.secret == b.secret
    ensures var a, b := Run(Start(users, now), acts, codeOf, hashOf).accepted[i], Run(Start(users, now), acts, codeOf, hashOf).accepted[j];
            !(AcceptedFor(codeOf, a.secret, a.code, a.verifyAt, counter) && AcceptedFor(codeOf, b.secret, b.code, b.verifyAt, counter))
  {
    RunKeepsInv(users, now, acts, delay, codeOf, hashOf);
    var w := Run(Start(users, now), acts, codeOf, hashOf);
    var a, b := w.accepted[i], w.accepted[j];
    assert AcceptanceInv(w, i, codeOf, delay) && AcceptanceInv(w, j, codeOf, delay);
    if a.code == b.code {
      SpacedApart(w.accepted, i, j);
      WindowsAreDisjoint(a.verifyAt, b.verifyAt, counter);
    }
  }

  /**
   A challenge is spent once. Whatever the run, a token is accepted at most once and fails at
   most five times; after either end it can never be read again; until then it is readable exactly
   three hundred seconds from its issue or its latest counted failure; and it is accepted only by
   a completion that reads it less than five times three hundred seconds after its issue, plus
   the time its four earlier failures took to record.
   */
  lemma {:induction false} ChallengeIsSpentOnce(users: map<int, User>, now: Time, acts: seq<Action>, delay: nat,
                             codeOf: (string, int) -> string, hashOf: string -> TokenHash, token: string, later: Time)
    requires Legal(Start(users, now), acts, delay, codeOf, hashOf)
    requires token in Run(Start(users, now), acts, codeOf, hashOf).issued
    ensures var w := Run(Start(users, now), acts, codeOf, hashOf);
            && token in w.failures
            && Uses(w.accepted, token) <= 1 && w.failures[token] <= 5
            && (Uses(w.accepted, token) == 1 || w.failures[token] == 5 ==> ReadBack(w.timed, token, later).0 == None)
            && token in w.written
            && (ReadBack(w.timed, token, later).0.Some? <==> Pending(token) in w.timed && later < w.written[token] + Seconds(300))
            && (later >= w.issued[token] + Seconds(1500) + 4 * delay ==> ReadBack(w.timed, token, later).0 == None)
            && (forall i :: 0 <= i < |w.accepted| && w.accepted[i].token == token
                 ==> w.accepted[i].readAt < w.issued[token] + Seconds(1500) + 4 * delay)
  {
    RunKeepsInv(users, now, acts, delay, codeOf, hashOf);
    var w := Run(Start(users, now), acts, codeOf, hashOf);
    assert TokenInv(w, token, delay);
    FiveLives(delay);
    LifeBoundGrows(Min(w.failures[token], 4), 4, delay);
    forall i | 0 <= i < |w.accepted| && w.accepted[i].token == token
      ensures w.accepted[i].readAt < w.issued[token] + Seconds(1500) + 4 * delay
    {
      assert AcceptanceInv(w, i, codeOf, delay);
    }
  }

  /** Readable when three hundred seconds from the issue are over, exactly if open and extended; gone for good otherwise. */
  ghost predicate OutlastsIffExtended(w: World, token: string)
    requires token in w.issued && token in w.written && token in w.failures
  {
    var over := w.issued[token] + Seconds(300);
    && (ReadBack(w.timed, token, over).0.Some? <==> Pending(token) in w.timed && w.written[token] > w.issued[token])
    && (ReadBack(w.timed, token, over).0.None? ==> forall later :: later >= over ==> ReadBack(w.timed, token, later).0.None?)
    && (w.written[token] > w.issued[token] ==> w.failures[token] > 0)
  }

  lemma LifeOfAToken(w: World, token: string, delay: nat)
    requires TokenInv(w, token, delay) && token in w.issued
    ensures OutlastsIffExtended(w, token)
  {
  }

  /**
   The documented life of three hundred seconds from issue. A challenge is still readable when
   they are over if and only if it has not been closed and a failure was counted on it at a later
   clock reading than its issue; and nothing extends it that is not a counted failure.
   */
  lemma {:induction false} LifeOutlastsItsIssueIffExtended(users: map<int, User>, now: Time, acts: seq<Action>, delay: nat,
                                        codeOf: (string, int) -> string, hashOf: string -> TokenHash, token: string)
    requires Legal(Start(users, now), acts, delay, codeOf, hashOf)
    requires token in Run(Start(users, now), acts, codeOf, hashOf).issued
    ensures var w := Run(Start(users, now), acts, codeOf, hashOf);
            token in w.written && token in w.failures && OutlastsIffExtended(w, token)
  {
    RunKeepsInv(users, now, acts, delay, codeOf, hashOf);
    LifeOfAToken(Run(Start(users, now), acts, codeOf, hashOf), token, delay);
  }

  /** Only a counted failure moves the moment the three hundred seconds are counted from. */
  lemma OnlyFailuresExtend(w: World, a: Action, delay: nat, codeOf: (string, int) -> string, hashOf: string -> TokenHash, token: string)
    requires Inv(w, codeOf, delay) && Enabled(w, a, delay) && token in w.issued
    ensures var w' := Step(w, a, codeOf, hashOf);
            && token in w.written && token in w'.written && token in w.failures && token in w'.failures
            && (w'.failures[token] == w.failures[token] ==> w'.written[token] == w.written[token])
            && (w'.failures[token] != w.failures[token] ==>
                  a.CompleteChallenge? && a.token == token && w'.failures[token] == w.failures[token] + 1
                  && w'.written[token] == a.readings.writeAt)
  {
    assert TokenInv(w, token, delay);
  }

  /** A wrong code as neither the authenticator nor the backup codes of this user know it. */
  predicate WrongCode(u: User, code: string, now: Time, codeOf: (string, int) -> string, hashOf: string -> TokenHash)
    requires u.HasTwoFactor()
  {
    !VerifyCode(codeOf, u.twoFactorSecret.value.secret, code, now) && hashOf(code) !in u.twoFactorSecret.value.backupCodeHashes
  }

  /** A challenge issued at zero to any user with two factors, with a wrong code at 299 s, is still there at 400 s. */
  lemma {:induction false} ReadableAfterThreeHundredSeconds(u: User, c: Challenge, code: string,
                                         codeOf: (string, int) -> string, hashOf: string -> TokenHash)
    requires c.attempts == 0
    requires u.deletedAt.None? && u.HasTwoFactor() && !u.accountLock.IsLockedOut(Seconds(299))
    requires WrongCode(u, code, Seconds(299), codeOf, hashOf)
    ensures var t := Seconds(299);
            var issue := IssueChallenge("token", c, 0);
            var wrong := CompleteChallenge("token", code, Readings(t, t, t, t, t), Works);
            var users := map[c.userId := u];
            && Legal(Start(users, 0), [issue, wrong], 0, codeOf, hashOf)
            && ReadBack(Run(Start(users, 0), [issue, wrong], codeOf, hashOf).timed, "token", Seconds(400)).0.Some?
  {
    var t := Seconds(299);
    var issue := IssueChallenge("token", c, 0);
    var wrong := CompleteChallenge("token", code, Readings(t, t, t, t, t), Works);
    var start := Start(map[c.userId := u], 0);
    assert [issue, wrong][..1] == [issue] && [issue][..0] == [];
    var w1 := Step(start, issue, codeOf, hashOf);
    assert Run(start, [issue], codeOf, hashOf) == w1;
    assert Run(start, [issue, wrong], codeOf, hashOf) == Step(w1, wrong, codeOf, hashOf);
    assert Legal(start, [], 0, codeOf, hashOf) && Run(start, [], codeOf, hashOf) == start;
    assert Enabled(start, issue, 0);
    assert Legal(start, [issue], 0, codeOf, hashOf);
  }
}
