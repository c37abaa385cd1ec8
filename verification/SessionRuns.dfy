/**
 Any serial run of logins, refreshes, revocations, password changes and deletions over the session
 tables, and what holds of every token it ever issued.
 */
module SessionRuns {
  import opened Basics
  import opened AccountLock
  import opened Sessions
  import opened SessionService
  import User
  import UserWrites

  datatype State = State(
    store: Store,
    accounts: Accounts,
    issued: map<TokenHash, Id>,      // every token hash ever handed out, and to whom
    exchanged: seq<TokenHash>)       // the hashes exchanged so far, in order

  datatype Action =
    | Register(userId: Id)
    | SetLock(userId: Id, lock: AccountLockInfo)
    | Start(sessionId: Id, userId: Id, device: DeviceInfo, checkedAt: Time, createdAt: Time, token: NewToken)
    | Exchange(hash: TokenHash, token: NewToken, r: RefreshReadings)
    | RevokeOne(sessionId: Id, userId: Id)
    | RevokeAll(userId: Id)
    | ChangePassword(userId: Id, oldPasswordMatches: bool)
    | ResetPassword(owner: Option<Id>)
    | DeleteMe(userId: Id)
    | DropExpired(before: Time)

  /** Sessions that ended before `before` are deleted, and their tokens with them. */
  function Dropped(store: Store, before: Time): Store {
    Store(map sid | sid in store.sessions && store.sessions[sid].expiresAt >= before :: store.sessions[sid],
          map id | id in store.tokens && store.tokens[id].sessionId in store.sessions
                   && store.sessions[store.tokens[id].sessionId].expiresAt >= before :: store.tokens[id])
  }

  /** A session is started only for a user who has just been found neither deleted nor locked. */
  function AfterStart(s: State, sid: Id, userId: Id, device: DeviceInfo, checkedAt: Time, createdAt: Time, token: NewToken): State {
    if userId !in s.accounts || s.accounts[userId].deleted || s.accounts[userId].lock.IsLockedOut(checkedAt) then s
    else
      match Started(s.store, sid, userId, device, createdAt, token)
      case Some(store) => s.(store := store, issued := s.issued[token.hash := userId])
      case None => s
  }

  ghost function AfterExchange(s: State, hash: TokenHash, token: NewToken, r: RefreshReadings): State {
    if RefreshOf(s.store, s.accounts, hash, token, r) != Exchanged then s
    else
      var id := LiveTokenWith(s.store, hash).value;
      s.(store := AfterRefresh(s.store, s.accounts, hash, token, r),
         issued := s.issued[token.hash := s.store.sessions[s.store.tokens[id].sessionId].userId],
         exchanged := s.exchanged + [hash])
  }

  function AfterDelete(s: State, userId: Id): State {
    if userId !in s.accounts || s.accounts[userId].deleted then s
    else s.(store := AllRevoked(s.store, userId), accounts := s.accounts[userId := s.accounts[userId].(deleted := true)])
  }

  /** A new password ends every session of the user and lifts the lock. */
  function AfterPassword(s: State, userId: Id): State
    requires userId in s.accounts
  {
    s.(store := AllRevoked(s.store, userId),
       accounts := s.accounts[userId := s.accounts[userId].(lock := s.accounts[userId].lock.Unlock())])
  }

  ghost function Step(s: State, a: Action): State {
    match a
    case Register(u) => if u in s.accounts then s else s.(accounts := s.accounts[u := Account(false, Unlocked())])
    case SetLock(u, lock) => if u !in s.accounts then s else s.(accounts := s.accounts[u := s.accounts[u].(lock := lock)])
    case Start(sid, u, device, checkedAt, createdAt, token) => AfterStart(s, sid, u, device, checkedAt, createdAt, token)
    case Exchange(hash, token, r) => AfterExchange(s, hash, token, r)
    case RevokeOne(sid, u) =>
      if sid in s.store.sessions && s.store.sessions[sid].userId == u then s.(store := RevokedIn(s.store, {sid})) else s
    case RevokeAll(u) => s.(store := AllRevoked(s.store, u))
    case ChangePassword(u, matches) =>
      if u in s.accounts && !s.accounts[u].deleted && matches then AfterPassword(s, u) else s
    case ResetPassword(owner) => if owner.Some? && owner.value in s.accounts then AfterPassword(s, owner.value) else s
    case DeleteMe(u) => AfterDelete(s, u)
    case DropExpired(before) => s.(store := Dropped(s.store, before))
  }

  /**
   Random identifiers and token values do not repeat, the clock does not run backwards inside one
   request, and starting a session takes less than the 23 days between the two lifetimes.
   */
  ghost predicate Enabled(s: State, a: Action) {
    match a
    case Start(sid, _, _, _, createdAt, token) =>
      && sid !in s.store.sessions && token.id !in s.store.tokens && token.hash !in s.issued
      && createdAt <= token.expiryAt <= createdAt + Seconds(SESSION_EXPIRE_SECONDS - REFRESH_TOKEN_EXPIRE_SECONDS)
    case Exchange(_, token, r) =>
      token.id !in s.store.tokens && token.hash !in s.issued && token.expiryAt <= r.refreshedAt
    case _ => true
  }

  ghost function Run(s: State, acts: seq<Action>): State {
    if acts == [] then s else Step(Run(s, acts[..|acts| - 1]), acts[|acts| - 1])
  }

  ghost predicate Legal(s: State, acts: seq<Action>) {
    acts == [] || (Legal(s, acts[..|acts| - 1]) && Enabled(Run(s, acts[..|acts| - 1]), acts[|acts| - 1]))
  }

  function Empty(): State {
    State(Store(map[], map[]), map[], map[], [])
  }

  // ----- the invariant -----

  /** One token of a session: where it came from, and how it stands to its session. */
  ghost predicate TokenOk(s: State, id: Id)
    requires id in s.store.tokens
  {
    var row := s.store.tokens[id];
    && row.sessionId in s.store.sessions
    && row.tokenHash in s.issued && s.issued[row.tokenHash] == s.store.sessions[row.sessionId].userId
    && (!row.isRevoked ==> !s.store.sessions[row.sessionId].isRevoked)
    && (!row.isRevoked ==> row.expiresAt <= s.store.sessions[row.sessionId].expiresAt)
  }

  /** Two tokens: different hashes, and not both live in one session. */
  predicate Apart(a: TokenRow, b: TokenRow) {
    a.tokenHash != b.tokenHash && (a.sessionId == b.sessionId ==> a.isRevoked || b.isRevoked)
  }

  ghost predicate TokensOk(s: State) {
    && (forall id {:trigger TokenOk(s, id)} :: id in s.store.tokens ==> TokenOk(s, id))
    && (forall i, j {:trigger Apart(s.store.tokens[i], s.store.tokens[j])} ::
          i in s.store.tokens && j in s.store.tokens && i != j ==> Apart(s.store.tokens[i], s.store.tokens[j]))
  }

  /** A hash that was handed out and has no unrevoked row. */
  ghost predicate Retired(s: State, hash: TokenHash) {
    && hash in s.issued
    && forall id :: id in s.store.tokens && s.store.tokens[id].tokenHash == hash ==> s.store.tokens[id].isRevoked
  }

  /** A deleted user has no live session. */
  ghost predicate SessionOk(s: State, sid: Id)
    requires sid in s.store.sessions
  {
    var u := s.store.sessions[sid].userId;
    u in s.accounts && (s.accounts[u].deleted ==> s.store.sessions[sid].isRevoked)
  }

  ghost predicate Inv(s: State) {
    && TokensOk(s)
    && (forall sid {:trigger SessionOk(s, sid)} :: sid in s.store.sessions ==> SessionOk(s, sid))
    && (forall i :: 0 <= i < |s.exchanged| ==> Retired(s, s.exchanged[i]))
    && Distinct(s.exchanged)
  }

  lemma InvConstrains(s: State)
    requires TokensOk(s)
    ensures s.store.Constrained()
  {
    forall i, j | i in s.store.tokens && j in s.store.tokens && s.store.tokens[i].tokenHash == s.store.tokens[j].tokenHash
      ensures i == j
    {
      assert i != j ==> Apart(s.store.tokens[i], s.store.tokens[j]);
    }
    forall id | id in s.store.tokens ensures s.store.tokens[id].sessionId in s.store.sessions {
      assert TokenOk(s, id);
    }
  }

  // ----- revoking -----

  lemma RevokingKeepsInv(s: State, sids: set<Id>)
    requires Inv(s)
    ensures Inv(s.(store := RevokedIn(s.store, sids)))
  {
    var s' := s.(store := RevokedIn(s.store, sids));
    forall id | id in s'.store.tokens ensures TokenOk(s', id) {
      assert TokenOk(s, id);
      assert s'.store.tokens[id] == RevokedRow(s.store.tokens[id], sids);
    }
    forall i, j | i in s'.store.tokens && j in s'.store.tokens && i != j
      ensures Apart(s'.store.tokens[i], s'.store.tokens[j])
    {
      assert Apart(s.store.tokens[i], s.store.tokens[j]);
    }
    forall sid | sid in s'.store.sessions ensures SessionOk(s', sid) {
      assert SessionOk(s, sid);
    }
    forall i | 0 <= i < |s'.exchanged| ensures Retired(s', s'.exchanged[i]) {
      RevokingKeepsRetired(s, sids, s.exchanged[i]);
    }
  }

  lemma RevokingKeepsRetired(s: State, sids: set<Id>, hash: TokenHash)
    requires Retired(s, hash)
    ensures Retired(s.(store := RevokedIn(s.store, sids)), hash)
  {
  }

  // ----- dropping expired sessions -----

  lemma DroppingKeepsInv(s: State, before: Time)
    requires Inv(s)
    ensures Inv(s.(store := Dropped(s.store, before)))
  {
    var s' := s.(store := Dropped(s.store, before));
    forall id | id in s'.store.tokens ensures TokenOk(s', id) {
      assert TokenOk(s, id);
    }
    forall i, j | i in s'.store.tokens && j in s'.store.tokens && i != j
      ensures Apart(s'.store.tokens[i], s'.store.tokens[j])
    {
      assert Apart(s.store.tokens[i], s.store.tokens[j]);
    }
    forall sid | sid in s'.store.sessions ensures SessionOk(s', sid) {
      assert SessionOk(s, sid);
    }
    forall i | 0 <= i < |s'.exchanged| ensures Retired(s', s'.exchanged[i]) {
      assert Retired(s, s.exchanged[i]);
    }
  }

  // ----- issuing a token -----

  /** The rows after a token was issued: the old ones, some of them revoked since, and the new one. */
  ghost predicate Issues(s: State, s': State, token: NewToken, userId: Id) {
    && token.id !in s.store.tokens && token.hash !in s.issued
    && s'.issued == s.issued[token.hash := userId]
    && s'.store.tokens.Keys == s.store.tokens.Keys + {token.id}
    && s'.store.tokens[token.id].tokenHash == token.hash
    && forall id :: id in s.store.tokens ==> MayHaveBeenRevoked(s.store.tokens[id], s'.store.tokens[id])
  }

  predicate MayHaveBeenRevoked(before: TokenRow, after: TokenRow) {
    after == before || after == before.(isRevoked := true)
  }

  lemma IssuingKeepsRetired(s: State, s': State, token: NewToken, userId: Id, hash: TokenHash)
    requires Issues(s, s', token, userId) && Retired(s, hash)
    ensures Retired(s', hash)
  {
    forall id | id in s'.store.tokens && s'.store.tokens[id].tokenHash == hash ensures s'.store.tokens[id].isRevoked {
      assert id in s.store.tokens && MayHaveBeenRevoked(s.store.tokens[id], s'.store.tokens[id]);
    }
  }

  /** A new hash is no stored one, and the new token is the one live token its session can have. */
  lemma IssuingKeepsApart(s: State, s': State, token: NewToken, userId: Id)
    requires TokensOk(s) && Issues(s, s', token, userId)
    requires forall id :: id in s.store.tokens && s.store.tokens[id].sessionId == s'.store.tokens[token.id].sessionId ==>
      s'.store.tokens[id].isRevoked
    ensures forall i, j {:trigger Apart(s'.store.tokens[i], s'.store.tokens[j])} ::
      i in s'.store.tokens && j in s'.store.tokens && i != j ==> Apart(s'.store.tokens[i], s'.store.tokens[j])
  {
    forall i, j | i in s'.store.tokens && j in s'.store.tokens && i != j
      ensures Apart(s'.store.tokens[i], s'.store.tokens[j])
    {
      if i != token.id {
        assert TokenOk(s, i) && MayHaveBeenRevoked(s.store.tokens[i], s'.store.tokens[i]);
      }
      if j != token.id {
        assert TokenOk(s, j) && MayHaveBeenRevoked(s.store.tokens[j], s'.store.tokens[j]);
      }
      if i != token.id && j != token.id {
        assert Apart(s.store.tokens[i], s.store.tokens[j]);
      }
    }
  }

  lemma StartIssues(s: State, sid: Id, userId: Id, device: DeviceInfo, checkedAt: Time, createdAt: Time, token: NewToken)
    requires Enabled(s, Start(sid, userId, device, checkedAt, createdAt, token))
    ensures var s' := AfterStart(s, sid, userId, device, checkedAt, createdAt, token);
            s' == s || Issues(s, s', token, userId)
  {
  }

  lemma StartKeepsInv(s: State, sid: Id, userId: Id, device: DeviceInfo, checkedAt: Time, createdAt: Time, token: NewToken)
    requires Inv(s) && Enabled(s, Start(sid, userId, device, checkedAt, createdAt, token))
    ensures Inv(AfterStart(s, sid, userId, device, checkedAt, createdAt, token))
  {
    var s' := AfterStart(s, sid, userId, device, checkedAt, createdAt, token);
    if s' != s {
      StartIssues(s, sid, userId, device, checkedAt, createdAt, token);
      forall id | id in s.store.tokens ensures s.store.tokens[id].sessionId != sid && TokenOk(s', id) {
        assert TokenOk(s, id);
      }
      assert TokenOk(s', token.id);
      IssuingKeepsApart(s, s', token, userId);
      forall x | x in s'.store.sessions ensures SessionOk(s', x) {
        assert x != sid ==> SessionOk(s, x);
      }
      forall i | 0 <= i < |s'.exchanged| ensures Retired(s', s'.exchanged[i]) {
        IssuingKeepsRetired(s, s', token, userId, s.exchanged[i]);
      }
    }
  }

  // ----- exchanging -----

  /** An exchange seen from the state: the presented token is live, and it alone is retired for the new one. */
  lemma ExchangeIssues(s: State, hash: TokenHash, token: NewToken, r: RefreshReadings)
    requires TokensOk(s) && Enabled(s, Exchange(hash, token, r))
    requires RefreshOf(s.store, s.accounts, hash, token, r) == Exchanged
    ensures var id := LiveTokenWith(s.store, hash).value;
            var row := s.store.tokens[id];
            var s' := AfterExchange(s, hash, token, r);
            && LiveToken(s.store, id) && row.tokenHash == hash
            && Issues(s, s', token, s.store.sessions[row.sessionId].userId)
            && s'.store.tokens == s.store.tokens[id := row.(isRevoked := true)]
                 [token.id := TokenRow(row.sessionId, token.hash, token.Token().expiresAt, false, token.createdAt)]
            && s'.store.sessions == s.store.sessions[row.sessionId :=
                 s.store.sessions[row.sessionId].(expiresAt := r.refreshedAt + Seconds(SESSION_EXPIRE_SECONDS))]
            && s'.exchanged == s.exchanged + [hash]
  {
  }

  lemma ExchangeRetires(s: State, hash: TokenHash, token: NewToken, r: RefreshReadings)
    requires TokensOk(s) && Enabled(s, Exchange(hash, token, r))
    requires RefreshOf(s.store, s.accounts, hash, token, r) == Exchanged
    ensures Retired(AfterExchange(s, hash, token, r), hash)
  {
    ExchangeIssues(s, hash, token, r);
    InvConstrains(s);
    var s' := AfterExchange(s, hash, token, r);
    var id := LiveTokenWith(s.store, hash).value;
    assert TokenOk(s, id);
    forall x | x in s'.store.tokens && s'.store.tokens[x].tokenHash == hash ensures s'.store.tokens[x].isRevoked {
      assert x != token.id;
      assert x == id;
    }
  }

  lemma ExchangeKeepsTokens(s: State, hash: TokenHash, token: NewToken, r: RefreshReadings)
    requires TokensOk(s) && Enabled(s, Exchange(hash, token, r))
    requires RefreshOf(s.store, s.accounts, hash, token, r) == Exchanged
    ensures TokensOk(AfterExchange(s, hash, token, r))
  {
    ExchangeIssues(s, hash, token, r);
    var s' := AfterExchange(s, hash, token, r);
    var id := LiveTokenWith(s.store, hash).value;
    assert TokenOk(s, id);
    forall x | x in s.store.tokens && x != id && s.store.tokens[x].sessionId == s.store.tokens[id].sessionId
      ensures s.store.tokens[x].isRevoked
    {
      assert Apart(s.store.tokens[x], s.store.tokens[id]);
    }
    forall x | x in s'.store.tokens ensures TokenOk(s', x) {
      assert x != token.id ==> TokenOk(s, x);
    }
    IssuingKeepsApart(s, s', token, s.store.sessions[s.store.tokens[id].sessionId].userId);
  }

  lemma ExchangeKeepsInv(s: State, hash: TokenHash, token: NewToken, r: RefreshReadings)
    requires Inv(s) && Enabled(s, Exchange(hash, token, r))
    ensures Inv(AfterExchange(s, hash, token, r))
  {
    if RefreshOf(s.store, s.accounts, hash, token, r) == Exchanged {
      ExchangeIssues(s, hash, token, r);
      ExchangeKeepsTokens(s, hash, token, r);
      ExchangeRetires(s, hash, token, r);
      var s' := AfterExchange(s, hash, token, r);
      var id := LiveTokenWith(s.store, hash).value;
      var userId := s.store.sessions[s.store.tokens[id].sessionId].userId;
      forall sid | sid in s'.store.sessions ensures SessionOk(s', sid) {
        assert SessionOk(s, sid);
      }
      forall i | 0 <= i < |s'.exchanged| ensures Retired(s', s'.exchanged[i]) {
        if i < |s.exchanged| {
          IssuingKeepsRetired(s, s', token, userId, s.exchanged[i]);
        }
      }
      forall i | 0 <= i < |s.exchanged| ensures s.exchanged[i] != hash {
        assert Retired(s, s.exchanged[i]);
      }
    }
  }

  // ----- accounts -----

  lemma AccountsKeepInv(s: State, accounts: Accounts)
    requires Inv(s)
    requires forall u :: u in s.accounts ==> u in accounts && (accounts[u].deleted ==> s.accounts[u].deleted)
    ensures Inv(s.(accounts := accounts))
  {
    var s' := s.(accounts := accounts);
    forall id | id in s'.store.tokens ensures TokenOk(s', id) {
      assert TokenOk(s, id);
    }
    forall i, j | i in s'.store.tokens && j in s'.store.tokens && i != j
      ensures Apart(s'.store.tokens[i], s'.store.tokens[j])
    {
      assert Apart(s.store.tokens[i], s.store.tokens[j]);
    }
    forall sid | sid in s'.store.sessions ensures SessionOk(s', sid) {
      assert SessionOk(s, sid);
    }
    forall i | 0 <= i < |s'.exchanged| ensures Retired(s', s'.exchanged[i]) {
      assert Retired(s, s.exchanged[i]);
    }
  }

  lemma DeleteKeepsInv(s: State, userId: Id)
    requires Inv(s)
    ensures Inv(AfterDelete(s, userId))
  {
    if userId in s.accounts && !s.accounts[userId].deleted {
      var live := LiveSessions(s.store, userId);
      var revoked := s.(store := RevokedIn(s.store, live));
      RevokingKeepsInv(s, live);
      var s' := AfterDelete(s, userId);
      assert s' == revoked.(accounts := s'.accounts);
      forall id | id in s'.store.tokens ensures TokenOk(s', id) {
        assert TokenOk(revoked, id);
      }
      forall i, j | i in s'.store.tokens && j in s'.store.tokens && i != j
        ensures Apart(s'.store.tokens[i], s'.store.tokens[j])
      {
        assert Apart(revoked.store.tokens[i], revoked.store.tokens[j]);
      }
      forall sid | sid in s'.store.sessions ensures SessionOk(s', sid) {
        assert SessionOk(s, sid) && SessionOk(revoked, sid);
      }
      forall i | 0 <= i < |s'.exchanged| ensures Retired(s', s'.exchanged[i]) {
        assert Retired(revoked, s.exchanged[i]);
      }
    }
  }

  lemma PasswordKeepsInv(s: State, userId: Id)
    requires Inv(s) && userId in s.accounts
    ensures Inv(AfterPassword(s, userId))
  {
    var revoked := s.(store := AllRevoked(s.store, userId));
    RevokingKeepsInv(s, LiveSessions(s.store, userId));
    AccountsKeepInv(revoked, AfterPassword(s, userId).accounts);
  }

  lemma StepKeepsInv(s: State, a: Action)
    requires Inv(s) && Enabled(s, a)
    ensures Inv(Step(s, a))
  {
    match a
    case Register(u) => AccountsKeepInv(s, Step(s, a).accounts);
    case SetLock(u, lock) => AccountsKeepInv(s, Step(s, a).accounts);
    case Start(sid, u, device, checkedAt, createdAt, token) => StartKeepsInv(s, sid, u, device, checkedAt, createdAt, token);
    case Exchange(hash, token, r) => ExchangeKeepsInv(s, hash, token, r);
    case RevokeOne(sid, u) => RevokingKeepsInv(s, {sid});
    case RevokeAll(u) => RevokingKeepsInv(s, LiveSessions(s.store, u));
    case ChangePassword(u, _) => if Step(s, a) != s { PasswordKeepsInv(s, u); }
    case ResetPassword(owner) => if Step(s, a) != s { PasswordKeepsInv(s, owner.value); }
    case DeleteMe(u) => DeleteKeepsInv(s, u);
    case DropExpired(before) => DroppingKeepsInv(s, before);
  }

  lemma {:induction false} RunKeepsInv(s: State, acts: seq<Action>)
    requires Inv(s) && Legal(s, acts)
    ensures Inv(Run(s, acts))
  {
    if acts != [] {
      RunKeepsInv(s, acts[..|acts| - 1]);
      StepKeepsInv(Run(s, acts[..|acts| - 1]), acts[|acts| - 1]);
    }
  }

  // ----- the use cases are steps -----

  /** The machine's state when the tables and the users are these. */
  function Seen(store: Store, users: Users, issued: map<TokenHash, Id>, exchanged: seq<TokenHash>): State {
    State(store, AccountsOf(users), issued, exchanged)
  }

  /** Any write of a user but a deletion is one change of the lock, as far as sessions can tell. */
  lemma WriteIsAStep(s: State, users: Users, id: Id, op: UserWrites.Op)
    requires s == Seen(s.store, users, s.issued, s.exchanged)
    requires id in users && UserWrites.Perform(users[id], op).Some? && !op.Delete?
    ensures Step(s, SetLock(id, UserWrites.Perform(users[id], op).value.accountLock))
         == Seen(s.store, AfterWrite(users, id, op), s.issued, s.exchanged)
  {
    WritesSeenBySessions(users, id, op);
  }

  /** What the change of a password commits to the tables and to the user is one step. */
  lemma ChangePasswordIsAStep(s: State, users: Users, id: Id, matches: bool, hashed: seq<User.byte>)
    requires s == Seen(s.store, users, s.issued, s.exchanged)
    ensures id in users && users[id].deletedAt.None? ==> UserWrites.Perform(users[id], UserWrites.ChangePassword(hashed)).Some?
    ensures Step(s, ChangePassword(id, matches))
         == if id in users && users[id].deletedAt.None? && matches
            then Seen(AllRevoked(s.store, id), AfterWrite(users, id, UserWrites.ChangePassword(hashed)), s.issued, s.exchanged)
            else s
  {
    if id in users && users[id].deletedAt.None? {
      WritesSeenBySessions(users, id, UserWrites.ChangePassword(hashed));
    }
  }

  lemma ResetPasswordIsAStep(s: State, users: Users, id: Id, presented: TokenHash, hashed: seq<User.byte>, now: Time)
    requires s == Seen(s.store, users, s.issued, s.exchanged)
    requires HoldsResetToken(users, id, presented) && users[id].passwordResetToken.value.IsValid(now)
    ensures UserWrites.Perform(users[id], UserWrites.ResetPassword(presented, hashed, now)).Some?
    ensures Step(s, ResetPassword(Some(id)))
         == Seen(AllRevoked(s.store, id), AfterWrite(users, id, UserWrites.ResetPassword(presented, hashed, now)), s.issued, s.exchanged)
  {
    WritesSeenBySessions(users, id, UserWrites.ResetPassword(presented, hashed, now));
  }

  lemma DeleteMeIsAStep(s: State, users: Users, id: Id, now: Time)
    requires s == Seen(s.store, users, s.issued, s.exchanged)
    ensures id in users && users[id].deletedAt.None? ==> UserWrites.Perform(users[id], UserWrites.Delete(now)).Some?
    ensures Step(s, DeleteMe(id))
         == if id in users && users[id].deletedAt.None?
            then Seen(AllRevoked(s.store, id), AfterWrite(users, id, UserWrites.Delete(now)), s.issued, s.exchanged)
            else s
  {
    if id in users && users[id].deletedAt.None? {
      WritesSeenBySessions(users, id, UserWrites.Delete(now));
    }
  }

  // ----- theorems -----

  /**
   At every point of every run: a session has at most one unrevoked token, a revoked session or a
   deleted user's session has none, and no unrevoked token outlives its session.
   */
  lemma {:induction false} OneLiveTokenPerSession(acts: seq<Action>, i: Id, j: Id)
    requires Legal(Empty(), acts)
    requires i in Run(Empty(), acts).store.tokens && !Run(Empty(), acts).store.tokens[i].isRevoked
    ensures var s := Run(Empty(), acts);
            var row := s.store.tokens[i];
            && row.sessionId in s.store.sessions
            && !s.store.sessions[row.sessionId].isRevoked && row.expiresAt <= s.store.sessions[row.sessionId].expiresAt
            && s.store.sessions[row.sessionId].userId in s.accounts
            && !s.accounts[s.store.sessions[row.sessionId].userId].deleted
            && (j in s.store.tokens && !s.store.tokens[j].isRevoked && s.store.tokens[j].sessionId == row.sessionId ==> i == j)
  {
    RunKeepsInv(Empty(), acts);
    var s := Run(Empty(), acts);
    assert TokenOk(s, i) && SessionOk(s, s.store.tokens[i].sessionId);
    if j in s.store.tokens && i != j {
      assert Apart(s.store.tokens[i], s.store.tokens[j]);
    }
  }

  /** Each token is exchanged at most once, and once exchanged it is refused whatever else is true. */
  lemma {:induction false} ExchangedOnce(acts: seq<Action>, i: nat, token: NewToken, r: RefreshReadings)
    requires Legal(Empty(), acts) && i < |Run(Empty(), acts).exchanged|
    ensures var s := Run(Empty(), acts);
            && (forall j :: 0 <= j < |s.exchanged| && s.exchanged[j] == s.exchanged[i] ==> j == i)
            && RefreshOf(s.store, s.accounts, s.exchanged[i], token, r) == InvalidCredentials
            && Step(s, Exchange(s.exchanged[i], token, r)) == s
  {
    RunKeepsInv(Empty(), acts);
    var s := Run(Empty(), acts);
    assert Retired(s, s.exchanged[i]);
  }

  /** A retired token stays retired, and is not exchanged. */
  lemma StepKeepsRetired(s: State, a: Action, hash: TokenHash)
    requires Inv(s) && Enabled(s, a) && Retired(s, hash)
    ensures Retired(Step(s, a), hash)
    ensures Step(s, a).exchanged == s.exchanged || (a.Exchange? && a.hash != hash && Step(s, a).exchanged == s.exchanged + [a.hash])
  {
    match a
    case Start(sid, u, device, checkedAt, createdAt, token) =>
      StartIssues(s, sid, u, device, checkedAt, createdAt, token);
      if Step(s, a) != s { IssuingKeepsRetired(s, Step(s, a), token, u, hash); }
    case Exchange(presented, token, r) =>
      if RefreshOf(s.store, s.accounts, presented, token, r) == Exchanged {
        ExchangeIssues(s, presented, token, r);
        var id := LiveTokenWith(s.store, presented).value;
        IssuingKeepsRetired(s, Step(s, a), token, s.store.sessions[s.store.tokens[id].sessionId].userId, hash);
      }
    case _ =>
  }

  lemma {:induction false} RetiredForever(s: State, after: seq<Action>, hash: TokenHash)
    requires Inv(s) && Legal(s, after) && Retired(s, hash)
    ensures Retired(Run(s, after), hash)
    ensures |s.exchanged| <= |Run(s, after).exchanged|
    ensures forall i :: |s.exchanged| <= i < |Run(s, after).exchanged| ==> Run(s, after).exchanged[i] != hash
  {
    if after != [] {
      var init := after[..|after| - 1];
      RetiredForever(s, init, hash);
      RunKeepsInv(s, init);
      StepKeepsRetired(Run(s, init), after[|after| - 1], hash);
    }
  }

  /** The committed requests that end every session of a user. */
  predicate ShutsOut(s: State, a: Action, userId: Id) {
    match a
    case RevokeAll(u) => u == userId
    case ChangePassword(u, matches) => u == userId && u in s.accounts && !s.accounts[u].deleted && matches
    case ResetPassword(owner) => owner == Some(userId) && userId in s.accounts
    case DeleteMe(u) => u == userId && u in s.accounts
    case _ => false
  }

  lemma ShuttingOutRetires(s: State, a: Action, userId: Id, hash: TokenHash)
    requires Inv(s) && ShutsOut(s, a, userId)
    requires hash in s.issued && s.issued[hash] == userId
    ensures Retired(Step(s, a), hash)
  {
    var s' := Step(s, a);
    forall id | id in s'.store.tokens && s'.store.tokens[id].tokenHash == hash ensures s'.store.tokens[id].isRevoked {
      assert TokenOk(s, id) && SessionOk(s, s.store.tokens[id].sessionId);
    }
  }

  /**
   After a committed password change, password reset, sign-out everywhere or account deletion, no
   refresh token issued to that user before is exchanged in any later run.
   */
  lemma {:induction false} NoTokenSurvives(before: seq<Action>, a: Action, userId: Id, after: seq<Action>, hash: TokenHash)
    requires Legal(Empty(), before) && ShutsOut(Run(Empty(), before), a, userId)
    requires Legal(Step(Run(Empty(), before), a), after)
    requires hash in Run(Empty(), before).issued && Run(Empty(), before).issued[hash] == userId
    ensures var s, s' := Run(Empty(), before), Run(Step(Run(Empty(), before), a), after);
            && |s.exchanged| <= |s'.exchanged|
            && (forall i :: |s.exchanged| <= i < |s'.exchanged| ==> s'.exchanged[i] != hash)
            && forall token, r :: RefreshOf(s'.store, s'.accounts, hash, token, r) == InvalidCredentials
  {
    var s := Run(Empty(), before);
    RunKeepsInv(Empty(), before);
    StepKeepsInv(s, a);
    ShuttingOutRetires(s, a, userId, hash);
    RetiredForever(Step(s, a), after, hash);
  }

  /** Shutting a user out takes that user's live tokens and nobody else's. */
  lemma OnlyThatUserIsShutOut(s: State, userId: Id, id: Id)
    requires Inv(s)
    ensures LiveToken(AllRevoked(s.store, userId), id)
       <==> LiveToken(s.store, id) && s.store.sessions[s.store.tokens[id].sessionId].userId != userId
  {
    if id in s.store.tokens {
      assert TokenOk(s, id);
    }
  }

  // ----- how long a token stays good -----

  /** The steps that end a token: its own exchange, a revocation, a shut-out of its owner, the removal of its session. */
  ghost predicate Ends(s: State, a: Action, id: Id) {
    && id in s.store.tokens && s.store.tokens[id].sessionId in s.store.sessions
    && var row := s.store.tokens[id];
       var owner := s.store.sessions[row.sessionId].userId;
       match a
       case Exchange(hash, token, r) => hash == row.tokenHash && RefreshOf(s.store, s.accounts, hash, token, r) == Exchanged
       case RevokeOne(sid, u) => sid == row.sessionId && u == owner
       case DropExpired(before) => s.store.sessions[row.sessionId].expiresAt < before
       case _ => ShutsOut(s, a, owner)
  }

  /** The token is live, with the same row in a session of the same user and the same end. */
  ghost predicate StaysLive(s: State, s': State, id: Id)
    requires LiveToken(s.store, id)
  {
    && LiveToken(s'.store, id) && s'.store.tokens[id] == s.store.tokens[id]
    && s'.store.sessions[s.store.tokens[id].sessionId] == s.store.sessions[s.store.tokens[id].sessionId]
  }

  lemma ExchangeEndsOne(s: State, hash: TokenHash, token: NewToken, r: RefreshReadings, id: Id)
    requires Inv(s) && Enabled(s, Exchange(hash, token, r)) && LiveToken(s.store, id)
    requires RefreshOf(s.store, s.accounts, hash, token, r) == Exchanged && hash != s.store.tokens[id].tokenHash
    ensures StaysLive(s, AfterExchange(s, hash, token, r), id)
  {
    ExchangeIssues(s, hash, token, r);
    var presented := LiveTokenWith(s.store, hash).value;
    assert Apart(s.store.tokens[id], s.store.tokens[presented]);
  }

  /** A live token either goes on as it was or is retired, and which of the two is for the step to say. */
  lemma EndedOrNot(s: State, a: Action, id: Id)
    requires Inv(s) && Enabled(s, a) && LiveToken(s.store, id)
    ensures !Ends(s, a, id) ==> StaysLive(s, Step(s, a), id)
    ensures Ends(s, a, id) ==> Retired(Step(s, a), s.store.tokens[id].tokenHash)
  {
    var row := s.store.tokens[id];
    var owner := s.store.sessions[row.sessionId].userId;
    assert TokenOk(s, id) && SessionOk(s, row.sessionId);
    forall x | x in s.store.tokens && s.store.tokens[x].tokenHash == row.tokenHash ensures x == id {
      assert x != id ==> Apart(s.store.tokens[x], row);
    }
    match a
    case Exchange(hash, token, r) =>
      if RefreshOf(s.store, s.accounts, hash, token, r) == Exchanged {
        if hash == row.tokenHash {
          ExchangeRetires(s, hash, token, r);
        } else {
          ExchangeEndsOne(s, hash, token, r, id);
        }
      }
    case _ =>
      if ShutsOut(s, a, owner) {
        ShuttingOutRetires(s, a, owner, row.tokenHash);
      }
  }

  /** No step of a run ended the token. */
  ghost predicate Spared(s: State, acts: seq<Action>, id: Id) {
    acts == [] || (Spared(s, acts[..|acts| - 1], id) && !Ends(Run(s, acts[..|acts| - 1]), acts[|acts| - 1], id))
  }

  lemma {:induction false} SparedStaysLive(s: State, acts: seq<Action>, id: Id)
    requires Inv(s) && Legal(s, acts) && LiveToken(s.store, id)
    ensures Spared(s, acts, id) ==> StaysLive(s, Run(s, acts), id)
    ensures !Spared(s, acts, id) ==> Retired(Run(s, acts), s.store.tokens[id].tokenHash)
  {
    if acts != [] {
      var init, last := acts[..|acts| - 1], acts[|acts| - 1];
      SparedStaysLive(s, init, id);
      RunKeepsInv(s, init);
      if Spared(s, init, id) {
        EndedOrNot(Run(s, init), last, id);
      } else {
        StepKeepsRetired(Run(s, init), last, s.store.tokens[id].tokenHash);
      }
    }
  }

  lemma LiveTokenIsExchangeable(s: State, id: Id, next: NewToken, r: RefreshReadings)
    requires Inv(s) && LiveToken(s.store, id) && next.hash !in s.issued
    ensures var row := s.store.tokens[id];
            var session := s.store.sessions[row.sessionId];
            && session.userId in s.accounts
            && (RefreshOf(s.store, s.accounts, row.tokenHash, next, r) == Exchanged
                <==> r.sessionAt < session.expiresAt && r.tokenAt < row.expiresAt && !s.accounts[session.userId].lock.IsLockedOut(r.lockAt))
  {
    var row := s.store.tokens[id];
    assert TokenOk(s, id) && SessionOk(s, row.sessionId);
    var found := LiveTokenWith(s.store, row.tokenHash).value;
    assert found != id ==> Apart(s.store.tokens[found], row);
    forall x | x in s.store.tokens ensures s.store.tokens[x].tokenHash != next.hash {
      assert TokenOk(s, x);
    }
  }

  /**
   A live token is exchanged after a run exactly when no step of the run ended it, neither it nor
   its session has expired, and its user is not locked.
   */
  lemma {:induction false} ExchangeableUntilEnded(s: State, acts: seq<Action>, id: Id, next: NewToken, r: RefreshReadings)
    requires Inv(s) && Legal(s, acts) && LiveToken(s.store, id)
    requires next.hash !in Run(s, acts).issued
    ensures var row, s' := s.store.tokens[id], Run(s, acts);
            var session := s.store.sessions[row.sessionId];
            RefreshOf(s'.store, s'.accounts, row.tokenHash, next, r) == Exchanged
            <==> && Spared(s, acts, id) && r.sessionAt < session.expiresAt && r.tokenAt < row.expiresAt
                 && session.userId in s'.accounts && !s'.accounts[session.userId].lock.IsLockedOut(r.lockAt)
  {
    SparedStaysLive(s, acts, id);
    RunKeepsInv(s, acts);
    if Spared(s, acts, id) {
      LiveTokenIsExchangeable(Run(s, acts), id, next, r);
    }
  }

  /** A session is started exactly for a user who is there, not deleted and not locked at that moment. */
  lemma SessionsStartExactlyFor(s: State, a: Action)
    requires Inv(s) && Enabled(s, a) && a.Start?
    ensures Step(s, a) != s <==> a.userId in s.accounts && !s.accounts[a.userId].deleted && !s.accounts[a.userId].lock.IsLockedOut(a.checkedAt)
    ensures Step(s, a) != s ==> Step(s, a).issued == s.issued[a.token.hash := a.userId]
  {
    forall id | id in s.store.tokens ensures s.store.tokens[id].tokenHash != a.token.hash {
      assert TokenOk(s, id);
    }
  }

  /** When the session of a token that a step hands out ends. */
  function SessionEnd(a: Action): Time
    requires a.Start? || a.Exchange?
  {
    Seconds(SESSION_EXPIRE_SECONDS) + if a.Start? then a.createdAt else a.r.refreshedAt
  }

  /** A token just handed out, by a new session or by a refresh, is live, with the lifetimes it was given. */
  lemma HandedOutIsLive(s: State, a: Action)
    requires Inv(s) && Enabled(s, a) && (a.Start? || a.Exchange?) && Step(s, a) != s
    ensures Inv(Step(s, a)) && LiveToken(Step(s, a).store, a.token.id)
    ensures var s' := Step(s, a);
            var row := s'.store.tokens[a.token.id];
            && row.tokenHash == a.token.hash && row.expiresAt == a.token.Token().expiresAt
            && s'.store.sessions[row.sessionId].expiresAt == SessionEnd(a)
            && s'.store.sessions[row.sessionId].userId == s'.issued[a.token.hash]
  {
    StepKeepsInv(s, a);
    if a.Exchange? {
      ExchangeIssues(s, a.hash, a.token, a.r);
    }
    assert TokenOk(Step(s, a), a.token.id);
  }

  /**
   Every token ever handed out: after any later run it is exchanged exactly when nothing has ended
   it since, its two lifetimes last, and its user is not locked at the moment.
   */
  lemma {:induction false} FreshTokenIsExchangeable(s: State, a: Action, after: seq<Action>, next: NewToken, r: RefreshReadings)
    requires Inv(s) && Enabled(s, a) && (a.Start? || a.Exchange?) && Step(s, a) != s
    requires Legal(Step(s, a), after) && next.hash !in Run(Step(s, a), after).issued
    ensures var s' := Run(Step(s, a), after);
            var owner := Step(s, a).issued[a.token.hash];
            RefreshOf(s'.store, s'.accounts, a.token.hash, next, r) == Exchanged
            <==> && Spared(Step(s, a), after, a.token.id) && r.sessionAt < SessionEnd(a) && r.tokenAt < a.token.Token().expiresAt
                 && owner in s'.accounts && !s'.accounts[owner].lock.IsLockedOut(r.lockAt)
  {
    HandedOutIsLive(s, a);
    ExchangeableUntilEnded(Step(s, a), after, a.token.id, next, r);
  }
}
