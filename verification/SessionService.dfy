/** Starting, refreshing and revoking sessions, and the use cases that commit or drop what was done. */
module SessionService {
  import opened Basics
  import opened AccountLock
  import opened Sessions
  import User
  import UserEffects
  import UserWrites

  /** What sessions depend on of a user. */
  datatype Account = Account(deleted: bool, lock: AccountLockInfo)

  type Accounts = map<Id, Account>

  type Users = map<Id, User.User>

  function AccountsOf(users: Users): Accounts {
    map id | id in users :: Account(users[id].deletedAt.Some?, users[id].accountLock)
  }

  /** The users after one was loaded, changed by an operation it allows, and written under the next version. */
  function AfterWrite(users: Users, id: Id, op: UserWrites.Op): Users
    requires id in users && UserWrites.Perform(users[id], op).Some?
  {
    var changed := UserWrites.Perform(users[id], op).value;
    users[id := changed.(version := users[id].version + 1)]
  }

  /** One user was written, under the next version, and no other. */
  ghost predicate OnlyWritten(before: Users, after: Users, id: Id) {
    && id in before && after.Keys == before.Keys && after[id].version == before[id].version + 1
    && forall other :: other in before && other != id ==> after[other] == before[other]
  }

  /** The user's stored reset token is the one presented. */
  predicate HoldsResetToken(users: Users, id: Id, presented: TokenHash) {
    id in users && users[id].passwordResetToken.Some? && users[id].passwordResetToken.value.tokenHash == presented
  }

  /** A random token value, of which only the hash is kept, and the clock where its row is built. */
  datatype NewToken = NewToken(id: Id, hash: TokenHash, expiryAt: Time, createdAt: Time)
  {
    function Token(): RefreshToken {
      RefreshToken(id, hash, expiryAt + Seconds(REFRESH_TOKEN_EXPIRE_SECONDS), false, createdAt)
    }
  }

  datatype RefreshReadings = RefreshReadings(sessionAt: Time, tokenAt: Time, lockAt: Time, refreshedAt: Time)

  datatype RefreshOutcome = Exchanged | InvalidCredentials | RefreshTokenReuse | LockedOut | IntegrityError

  // ----- what each operation does to the tables -----

  ghost function RefreshOf(store: Store, accounts: Accounts, hash: TokenHash, next: NewToken, r: RefreshReadings): RefreshOutcome {
    match LiveTokenWith(store, hash)
    case None => InvalidCredentials
    case Some(id) =>
      var token := store.tokens[id];
      var session := store.sessions[token.sessionId];
      if r.sessionAt >= session.expiresAt then InvalidCredentials
      else if r.tokenAt >= token.expiresAt then RefreshTokenReuse
      else if session.userId !in accounts || accounts[session.userId].deleted then InvalidCredentials
      else if accounts[session.userId].lock.IsLockedOut(r.lockAt) then LockedOut
      else if HashTaken(store.tokens, next.hash) then IntegrityError
      else Exchanged
  }

  /** What is committed after a refresh. */
  ghost function AfterRefresh(store: Store, accounts: Accounts, hash: TokenHash, next: NewToken, r: RefreshReadings): Store {
    if RefreshOf(store, accounts, hash, next, r) == Exchanged
    then Rotated(store, LiveTokenWith(store, hash).value, next.Token(), r.refreshedAt + Seconds(SESSION_EXPIRE_SECONDS))
    else store
  }

  /**
   The documentation has a replayed token kill its session. In the code a token that was already
   rotated away is not found at all, and the branch that kills the session is taken exactly when
   the presented token is live and merely expired, inside a session that is not. Nothing of what
   that branch writes is committed.
   */
  lemma ReuseIsReportedOnlyForExpiredTokens(store: Store, accounts: Accounts, hash: TokenHash, next: NewToken, r: RefreshReadings)
    requires store.Constrained()
    ensures RefreshOf(store, accounts, hash, next, r) == RefreshTokenReuse
       <==> exists id :: LiveToken(store, id) && store.tokens[id].tokenHash == hash
              && r.tokenAt >= store.tokens[id].expiresAt && r.sessionAt < store.sessions[store.tokens[id].sessionId].expiresAt
    ensures HashTaken(store.tokens, hash) && RefreshOf(store, accounts, hash, next, r) != Exchanged ==>
      AfterRefresh(store, accounts, hash, next, r) == store
    ensures (forall id :: id in store.tokens && store.tokens[id].tokenHash == hash ==> store.tokens[id].isRevoked) ==>
      RefreshOf(store, accounts, hash, next, r) == InvalidCredentials
  {
    var found := LiveTokenWith(store, hash);
    if RefreshOf(store, accounts, hash, next, r) == RefreshTokenReuse {
      assert LiveToken(store, found.value);
    }
  }

  ghost predicate LiveWith(store: Store, id: Id, hash: TokenHash) {
    LiveToken(store, id) && store.tokens[id].tokenHash == hash
  }

  /** What a live token is answered: each refusal has its own reason, and without a reason there is no refusal. */
  lemma EachAnswerHasItsReason(store: Store, accounts: Accounts, hash: TokenHash, next: NewToken, r: RefreshReadings, id: Id)
    requires store.Constrained() && LiveWith(store, id, hash)
    ensures var answer, token := RefreshOf(store, accounts, hash, next, r), store.tokens[id];
            var session := store.sessions[token.sessionId];
            var inTime := r.sessionAt < session.expiresAt && r.tokenAt < token.expiresAt;
            var known := session.userId in accounts && !accounts[session.userId].deleted;
            var locked := known && accounts[session.userId].lock.IsLockedOut(r.lockAt);
            && (answer == InvalidCredentials <==> r.sessionAt >= session.expiresAt || (inTime && !known))
            && (answer == RefreshTokenReuse <==> r.sessionAt < session.expiresAt && r.tokenAt >= token.expiresAt)
            && (answer == LockedOut <==> inTime && locked)
            && (answer == IntegrityError <==> inTime && known && !locked && HashTaken(store.tokens, next.hash))
            && (answer == Exchanged <==> inTime && known && !locked && !HashTaken(store.tokens, next.hash))
  {
    assert LiveTokenWith(store, hash) == Some(id);
  }

  lemma UnknownTokensAreRefused(store: Store, accounts: Accounts, hash: TokenHash, next: NewToken, r: RefreshReadings)
    requires forall id :: !LiveWith(store, id, hash)
    ensures RefreshOf(store, accounts, hash, next, r) == InvalidCredentials
  {
    var found := LiveTokenWith(store, hash);
    assert found.Some? ==> LiveWith(store, found.value, hash);
  }

  /** A session with its first token, or nothing when the token's hash is taken. */
  function Started(store: Store, sessionId: Id, userId: Id, device: DeviceInfo, createdAt: Time, token: NewToken): Option<Store> {
    if HashTaken(store.tokens, token.hash) then None
    else
      Some(Store(store.sessions[sessionId := SessionRow(userId, device, createdAt, createdAt + Seconds(SESSION_EXPIRE_SECONDS), false)],
                 store.tokens[token.id := TokenRow(sessionId, token.hash, token.Token().expiresAt, false, token.createdAt)]))
  }

  function AllRevoked(store: Store, userId: Id): Store {
    RevokedIn(store, LiveSessions(store, userId))
  }

  /** The presented hash finds the token that was looked up by it. */
  lemma FindsThePresented(store: Store, a: SessionAggregate, id: Id, hash: TokenHash)
    requires store.Constrained() && Loaded(store, a)
    requires id in TokensOf(store.tokens, a.sessionId) && store.tokens[id].tokenHash == hash
    ensures a.FindRefreshToken(hash) == Some(TokenFromRow(id, store.tokens[id]))
  {
    var i :| 0 <= i < |a.refreshTokens| && a.refreshTokens[i].id == id;
    assert a.refreshTokens[i].tokenHash == hash;
    var found := a.FindRefreshToken(hash).value;
    var j :| 0 <= j < |a.refreshTokens| && a.refreshTokens[j] == found;
    assert store.tokens[found.id].tokenHash == hash;
  }

  /** The presented token revoked, the new one beside it in the same session, and that session's end moved; nothing else. */
  ghost predicate Exchanges(before: Store, after: Store, id: Id, hash: TokenHash, token: NewToken, r: RefreshReadings) {
    && LiveWith(before, id, hash) && id != token.id
    && var row := before.tokens[id];
       && after.tokens.Keys == before.tokens.Keys + {token.id}
       && after.tokens[id] == row.(isRevoked := true)
       && after.tokens[token.id] == TokenRow(row.sessionId, token.hash, token.expiryAt + Seconds(7 * 86_400), false, token.createdAt)
       && (forall x :: x in before.tokens && x != id && x != token.id ==> after.tokens[x] == before.tokens[x])
       && after.sessions.Keys == before.sessions.Keys
       && after.sessions[row.sessionId] == before.sessions[row.sessionId].(expiresAt := r.refreshedAt + Seconds(30 * 86_400))
       && (forall x :: x in before.sessions && x != row.sessionId ==> after.sessions[x] == before.sessions[x])
  }

  lemma RefreshingExchanges(store: Store, accounts: Accounts, hash: TokenHash, token: NewToken, r: RefreshReadings)
    requires store.Constrained() && token.id !in store.tokens && RefreshOf(store, accounts, hash, token, r) == Exchanged
    ensures exists id :: Exchanges(store, AfterRefresh(store, accounts, hash, token, r), id, hash, token, r)
  {
    assert Exchanges(store, AfterRefresh(store, accounts, hash, token, r), LiveTokenWith(store, hash).value, hash, token, r);
  }

  /** One flag set on some sessions and on each of their tokens, and nothing else. */
  ghost predicate Revokes(before: Store, after: Store, sids: set<Id>) {
    && after.sessions.Keys == before.sessions.Keys && after.tokens.Keys == before.tokens.Keys
    && (forall sid :: sid in before.sessions ==>
          && after.sessions[sid].isRevoked == (before.sessions[sid].isRevoked || sid in sids)
          && after.sessions[sid].(isRevoked := before.sessions[sid].isRevoked) == before.sessions[sid])
    && (forall id :: id in before.tokens ==>
          && after.tokens[id].isRevoked == (before.tokens[id].isRevoked || before.tokens[id].sessionId in sids)
          && after.tokens[id].(isRevoked := before.tokens[id].isRevoked) == before.tokens[id])
  }

  lemma RevokingSetsFlags(store: Store, sids: set<Id>)
    ensures Revokes(store, RevokedIn(store, sids), sids)
  {
  }

  /** Everything of the user is revoked, told user by user. */
  lemma AllIsRevoked(store: Store, userId: Id, sid: Id)
    requires sid in store.sessions
    ensures AllRevoked(store, userId).sessions[sid].isRevoked <==> store.sessions[sid].isRevoked || store.sessions[sid].userId == userId
    ensures Revokes(store, AllRevoked(store, userId), LiveSessions(store, userId))
    ensures sid in LiveSessions(store, userId) <==> !store.sessions[sid].isRevoked && store.sessions[sid].userId == userId
  {
    RevokingSetsFlags(store, LiveSessions(store, userId));
  }

  // ----- the service -----

  class UserService {
    const repo: SessionRepository
    var users: Users

    constructor (repo: SessionRepository, users: Users)
      ensures this.repo == repo && this.users == users
    {
      this.repo := repo;
      this.users := users;
    }

    method StartSession(sessionId: Id, userId: Id, device: DeviceInfo, createdAt: Time, token: NewToken) returns (ok: bool)
      requires sessionId !in repo.tables.sessions && token.id !in repo.tables.tokens
      modifies repo`tables
      ensures ok <==> Started(old(repo.tables), sessionId, userId, device, createdAt, token).Some?
      ensures ok ==> Some(repo.tables) == Started(old(repo.tables), sessionId, userId, device, createdAt, token)
      ensures ok <==> forall id :: id in old(repo.tables).tokens ==> old(repo.tables).tokens[id].tokenHash != token.hash
      ensures ok ==> repo.tables.sessions == old(repo.tables).sessions[sessionId := SessionRow(userId, device, createdAt, createdAt + Seconds(30 * 86_400), false)]
      ensures ok ==> repo.tables.tokens == old(repo.tables).tokens[token.id := TokenRow(sessionId, token.hash, token.expiryAt + Seconds(7 * 86_400), false, token.createdAt)]
    {
      var session := SessionAggregate.Create(sessionId, userId, device, createdAt).AddRefreshToken(token.Token());
      assert session.refreshTokens[..0] == [];
      assert UpsertAll(repo.tables.tokens, sessionId, []) == Some(repo.tables.tokens);
      ok := repo.Add(session);
    }

    /** Everything a refresh writes inside its transaction. */
    method RefreshSession(hash: TokenHash, token: NewToken, r: RefreshReadings) returns (outcome: RefreshOutcome)
      requires repo.tables.Constrained() && token.id !in repo.tables.tokens
      modifies repo`tables
      ensures outcome == RefreshOf(old(repo.tables), AccountsOf(users), hash, token, r)
      ensures outcome.Exchanged? ==> repo.tables == AfterRefresh(old(repo.tables), AccountsOf(users), hash, token, r)
      ensures outcome.Exchanged? ==> exists id :: Exchanges(old(repo.tables), repo.tables, id, hash, token, r)
    {
      var loaded := repo.AcquireByTokenHash(hash);
      if loaded.None? || loaded.value.IsExpired(r.sessionAt) {
        return InvalidCredentials;
      }
      var session := loaded.value;
      ghost var id := LiveTokenWith(repo.tables, hash).value;
      FindsThePresented(repo.tables, session, id, hash);
      var presented := session.FindRefreshToken(hash).value;
      if !presented.IsValid(r.tokenAt) {
        RevocationCoversEveryToken(repo.tables, session);
        var _ := repo.Update(session.Revoke());
        return RefreshTokenReuse;
      }
      if session.userId !in users || users[session.userId].deletedAt.Some? {
        return InvalidCredentials;
      }
      if users[session.userId].accountLock.IsLockedOut(r.lockAt) {
        return LockedOut;
      }
      RotationIsStored(repo.tables, session, presented.id, token.Token(), r.refreshedAt);
      var ok := repo.Update(session.RevokeToken(presented.id).AddRefreshToken(token.Token()).Refresh(r.refreshedAt));
      outcome := if ok then Exchanged else IntegrityError;
      if ok {
        RefreshingExchanges(old(repo.tables), AccountsOf(users), hash, token, r);
      }
    }

    method RevokeSession(sessionId: Id, userId: Id) returns (found: bool)
      modifies repo`tables
      ensures found <==> sessionId in old(repo.tables).sessions && old(repo.tables).sessions[sessionId].userId == userId
      ensures repo.tables == if found then RevokedIn(old(repo.tables), {sessionId}) else old(repo.tables)
    {
      var session := repo.AcquireBySessionId(sessionId);
      if session.Some? && session.value.userId == userId {
        RevocationCoversEveryToken(repo.tables, session.value);
        found := repo.Update(session.value.Revoke());
      } else {
        found := false;
      }
    }

    /** Every aggregate is loaded before the first is stored. */
    method RevokeAllSessions(userId: Id)
      modifies repo`tables
      ensures repo.tables == AllRevoked(old(repo.tables), userId)
    {
      ghost var was := repo.tables;
      var sessions := repo.AcquireByUserId(userId);
      RevokingNone(was);
      assert SessionIds(sessions[..0]) == {};
      for n := 0 to |sessions|
        invariant repo.tables == RevokedIn(was, SessionIds(sessions[..n]))
      {
        ghost var done := SessionIds(sessions[..n]);
        RevokingOthersKeepsLoaded(was, done, sessions[n]);
        RevocationCoversEveryToken(repo.tables, sessions[n]);
        var _ := repo.Update(sessions[n].Revoke());
        RevokedInTwice(was, done, {sessions[n].sessionId});
        OneMoreSession(sessions, n);
      }
      assert sessions[..|sessions|] == sessions;
    }

    // ----- the use cases: commit on success, nothing kept otherwise -----

    method RefreshTokenUseCase(hash: TokenHash, token: NewToken, r: RefreshReadings) returns (outcome: RefreshOutcome)
      requires repo.tables == repo.committed && repo.tables.Constrained() && token.id !in repo.tables.tokens
      modifies repo
      ensures outcome == RefreshOf(old(repo.committed), AccountsOf(users), hash, token, r)
      ensures repo.tables == repo.committed == AfterRefresh(old(repo.committed), AccountsOf(users), hash, token, r)
    {
      outcome := RefreshSession(hash, token, r);
      if outcome.Exchanged? {
        repo.Commit();
      } else {
        repo.Rollback();
      }
    }

    method ChangePasswordUseCase(userId: Id, oldPassword: string, hashed: seq<User.byte>, compare: (string, seq<User.byte>) -> bool)
      returns (changed: bool)
      requires repo.tables == repo.committed
      modifies this`users, repo
      ensures changed <==> userId in old(users) && old(users)[userId].deletedAt.None? && compare(oldPassword, old(users)[userId].hashedPassword)
      ensures changed ==> UserWrites.Perform(old(users)[userId], UserWrites.ChangePassword(hashed)).Some?
      ensures users == if changed then AfterWrite(old(users), userId, UserWrites.ChangePassword(hashed)) else old(users)
      ensures changed ==> OnlyWritten(old(users), users, userId) && UserEffects.NewPassword(old(users)[userId], users[userId], hashed)
      ensures !changed ==> users == old(users)
      ensures repo.tables == repo.committed == if changed then AllRevoked(old(repo.committed), userId) else old(repo.committed)
    {
      changed := userId in users && users[userId].deletedAt.None? && compare(oldPassword, users[userId].hashedPassword);
      if changed {
        UserEffects.ChangedPasswordIsStored(users[userId], hashed);
        users := AfterWrite(users, userId, UserWrites.ChangePassword(hashed));
        RevokeAllSessions(userId);
        repo.Commit();
      }
    }

    /** The user is found by the hash of the presented token; that the token is still valid is the user's to say. */
    method ResetPasswordUseCase(presented: TokenHash, hashed: seq<User.byte>, now: Time) returns (owner: Option<Id>, changed: bool)
      requires repo.tables == repo.committed
      modifies this`users, repo
      ensures owner.Some? <==> exists id :: HoldsResetToken(old(users), id, presented)
      ensures owner.Some? ==> HoldsResetToken(old(users), owner.value, presented)
      ensures changed <==> owner.Some? && old(users)[owner.value].passwordResetToken.value.IsValid(now)
      ensures changed ==> UserWrites.Perform(old(users)[owner.value], UserWrites.ResetPassword(presented, hashed, now)).Some?
      ensures users == if changed then AfterWrite(old(users), owner.value, UserWrites.ResetPassword(presented, hashed, now)) else old(users)
      ensures changed ==> OnlyWritten(old(users), users, owner.value)
      ensures changed ==> UserEffects.NewPassword(old(users)[owner.value], users[owner.value], hashed)
      ensures !changed ==> users == old(users)
      ensures repo.tables == repo.committed == if changed then AllRevoked(old(repo.committed), owner.value) else old(repo.committed)
    {
      var found := set id | id in users && HoldsResetToken(users, id, presented);
      if found == {} {
        assert forall id :: HoldsResetToken(users, id, presented) ==> id in found;
        return None, false;
      }
      var id := AnyOf(found);
      owner := Some(id);
      changed := users[id].passwordResetToken.value.IsValid(now);
      if changed {
        UserEffects.ResetPasswordIsStored(users[id], presented, hashed, now);
        users := AfterWrite(users, id, UserWrites.ResetPassword(presented, hashed, now));
        RevokeAllSessions(id);
        repo.Commit();
      }
    }

    /** A user who is deleted already is returned as is, with nothing revoked again. */
    method DeleteMeUseCase(userId: Id, now: Time) returns (found: bool)
      requires repo.tables == repo.committed
      modifies this`users, repo
      ensures found <==> userId in old(users)
      ensures found && old(users)[userId].deletedAt.None? ==> UserWrites.Perform(old(users)[userId], UserWrites.Delete(now)).Some?
      ensures users == if found && old(users)[userId].deletedAt.None? then AfterWrite(old(users), userId, UserWrites.Delete(now)) else old(users)
      ensures found && old(users)[userId].deletedAt.None? ==>
        OnlyWritten(old(users), users, userId) && users[userId] == old(users)[userId].(deletedAt := Some(now), version := users[userId].version)
      ensures repo.tables == repo.committed
      ensures repo.committed == if found && old(users)[userId].deletedAt.None? then AllRevoked(old(repo.committed), userId) else old(repo.committed)
    {
      found := userId in users;
      if found && users[userId].deletedAt.None? {
        RevokeAllSessions(userId);
        users := AfterWrite(users, userId, UserWrites.Delete(now));
        repo.Commit();
      }
    }
  }

  /** What sessions see of a committed write: whether it deleted the user, and the lock it left. */
  lemma WritesSeenBySessions(users: Users, id: Id, op: UserWrites.Op)
    requires id in users && UserWrites.Perform(users[id], op).Some?
    ensures AccountsOf(AfterWrite(users, id, op))
         == AccountsOf(users)[id := Account(op.Delete? || users[id].deletedAt.Some?, UserWrites.Perform(users[id], op).value.accountLock)]
  {
  }

  lemma RevokingNone(store: Store)
    ensures RevokedIn(store, {}) == store
  {
    assert RevokedIn(store, {}).sessions == store.sessions;
    forall id | id in store.tokens ensures RevokedIn(store, {}).tokens[id] == store.tokens[id] {
    }
    assert RevokedIn(store, {}).tokens == store.tokens;
  }

  lemma OneMoreSession(sessions: seq<SessionAggregate>, n: nat)
    requires n < |sessions|
    ensures SessionIds(sessions[..n + 1]) == SessionIds(sessions[..n]) + {sessions[n].sessionId}
  {
    forall sid | sid in SessionIds(sessions[..n]) + {sessions[n].sessionId} ensures sid in SessionIds(sessions[..n + 1]) {
      if sid in SessionIds(sessions[..n]) {
        var i :| 0 <= i < n && sessions[i].sessionId == sid;
        assert sessions[..n + 1][i].sessionId == sid;
      } else {
        assert sessions[..n + 1][n].sessionId == sid;
      }
    }
  }
}
