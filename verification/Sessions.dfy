/** The session aggregate and the two tables it is stored in. */
module Sessions {
  import opened Basics
  import User
  import TwoFactorChallenge

  type Id = int
  type TokenHash = User.TokenHash
  type DeviceInfo = TwoFactorChallenge.DeviceInfo

  const SESSION_EXPIRE_SECONDS := 2_592_000
  const REFRESH_TOKEN_EXPIRE_SECONDS := 604_800

  // ----- the aggregate -----

  datatype RefreshToken = RefreshToken(id: Id, tokenHash: TokenHash, expiresAt: Time, isRevoked: bool, createdAt: Time)
  {
    predicate IsExpired(now: Time) {
      now >= expiresAt
    }

    predicate IsValid(now: Time) {
      !isRevoked && !IsExpired(now)
    }

    function Revoked(): RefreshToken {
      this.(isRevoked := true)
    }
  }

  datatype SessionAggregate = SessionAggregate(
    sessionId: Id,
    userId: Id,
    deviceInfo: DeviceInfo,
    createdAt: Time,
    expiresAt: Time,
    isRevoked: bool,
    refreshTokens: seq<RefreshToken>)
  {
    static function Create(sessionId: Id, userId: Id, device: DeviceInfo, now: Time): SessionAggregate {
      SessionAggregate(sessionId, userId, device, now, now + Seconds(SESSION_EXPIRE_SECONDS), false, [])
    }

    predicate IsExpired(now: Time) {
      now >= expiresAt
    }

    function AddRefreshToken(token: RefreshToken): SessionAggregate {
      this.(refreshTokens := refreshTokens + [token])
    }

    /** Any token with this hash, valid or not. */
    function FindRefreshToken(hash: TokenHash): Option<RefreshToken> {
      FirstWithHash(refreshTokens, hash)
    }

    function RevokeToken(tokenId: Id): SessionAggregate {
      this.(refreshTokens := seq(|refreshTokens|, i requires 0 <= i < |refreshTokens| =>
        if refreshTokens[i].id == tokenId then refreshTokens[i].Revoked() else refreshTokens[i]))
    }

    function Revoke(): SessionAggregate {
      this.(isRevoked := true,
            refreshTokens := seq(|refreshTokens|, i requires 0 <= i < |refreshTokens| => refreshTokens[i].Revoked()))
    }

    function Refresh(now: Time): SessionAggregate {
      this.(expiresAt := now + Seconds(SESSION_EXPIRE_SECONDS))
    }
  }

  function FirstWithHash(tokens: seq<RefreshToken>, hash: TokenHash): (r: Option<RefreshToken>)
    ensures r.Some? ==> r.value in tokens && r.value.tokenHash == hash
    ensures r.None? ==> forall i :: 0 <= i < |tokens| ==> tokens[i].tokenHash != hash
  {
    if tokens == [] then None
    else if tokens[0].tokenHash == hash then Some(tokens[0])
    else FirstWithHash(tokens[1..], hash)
  }

  // ----- the tables -----

  datatype SessionRow = SessionRow(userId: Id, deviceInfo: DeviceInfo, createdAt: Time, expiresAt: Time, isRevoked: bool)

  datatype TokenRow = TokenRow(sessionId: Id, tokenHash: TokenHash, expiresAt: Time, isRevoked: bool, createdAt: Time)

  datatype Store = Store(sessions: map<Id, SessionRow>, tokens: map<Id, TokenRow>)
  {
    /** The constraints the database enforces: unique token hashes, and no token without its session. */
    ghost predicate Constrained() {
      && (forall i, j :: i in tokens && j in tokens && tokens[i].tokenHash == tokens[j].tokenHash ==> i == j)
      && (forall id :: id in tokens ==> tokens[id].sessionId in sessions)
    }
  }

  predicate HashTaken(tokens: map<Id, TokenRow>, hash: TokenHash) {
    exists id :: id in tokens && tokens[id].tokenHash == hash
  }

  function TokenFromRow(id: Id, row: TokenRow): RefreshToken {
    RefreshToken(id, row.tokenHash, row.expiresAt, row.isRevoked, row.createdAt)
  }

  function TokensOf(tokens: map<Id, TokenRow>, sessionId: Id): set<Id> {
    set id | id in tokens && tokens[id].sessionId == sessionId
  }

  function LiveSessions(store: Store, userId: Id): set<Id> {
    set sid | sid in store.sessions && store.sessions[sid].userId == userId && !store.sessions[sid].isRevoked
  }

  /** Insert the token, or on a conflict of ids set the two columns a token may change. */
  function Upsert(tokens: map<Id, TokenRow>, sessionId: Id, t: RefreshToken): Option<map<Id, TokenRow>> {
    if t.id in tokens then Some(tokens[t.id := tokens[t.id].(isRevoked := t.isRevoked, expiresAt := t.expiresAt)])
    else if HashTaken(tokens, t.tokenHash) then None
    else Some(tokens[t.id := TokenRow(sessionId, t.tokenHash, t.expiresAt, t.isRevoked, t.createdAt)])
  }

  function UpsertAll(tokens: map<Id, TokenRow>, sessionId: Id, ts: seq<RefreshToken>): Option<map<Id, TokenRow>> {
    if ts == [] then Some(tokens)
    else
      match UpsertAll(tokens, sessionId, ts[..|ts| - 1])
      case Some(before) => Upsert(before, sessionId, ts[|ts| - 1])
      case None => None
  }

  /** What `update` makes of the tables, or nothing when a unique token hash is violated. */
  function Updated(store: Store, a: SessionAggregate): Option<Store>
    requires a.sessionId in store.sessions
  {
    match UpsertAll(store.tokens, a.sessionId, a.refreshTokens)
    case Some(tokens) =>
      Some(Store(store.sessions[a.sessionId := store.sessions[a.sessionId].(isRevoked := a.isRevoked, expiresAt := a.expiresAt)], tokens))
    case None => None
  }

  // ----- what an aggregate loaded from the tables looks like -----

  /** The rows with the given ids, each once, in some order. */
  ghost predicate Lists(tokens: map<Id, TokenRow>, ids: set<Id>, ts: seq<RefreshToken>) {
    && (forall i :: 0 <= i < |ts| ==> ts[i].id in ids && ts[i].id in tokens)
    && (forall i :: 0 <= i < |ts| ==> ts[i] == TokenFromRow(ts[i].id, tokens[ts[i].id]))
    && (forall i, j :: 0 <= i < j < |ts| ==> ts[i].id != ts[j].id)
    && (forall id :: id in ids ==> exists i :: 0 <= i < |ts| && ts[i].id == id)
  }

  ghost predicate Loaded(store: Store, a: SessionAggregate) {
    && a.sessionId in store.sessions
    && store.sessions[a.sessionId] == SessionRow(a.userId, a.deviceInfo, a.createdAt, a.expiresAt, a.isRevoked)
    && Lists(store.tokens, TokensOf(store.tokens, a.sessionId), a.refreshTokens)
  }

  function SessionFromRows(sessionId: Id, row: SessionRow, tokens: seq<RefreshToken>): SessionAggregate {
    SessionAggregate(sessionId, row.userId, row.deviceInfo, row.createdAt, row.expiresAt, row.isRevoked, tokens)
  }

  lemma ListsOneMore(tokens: map<Id, TokenRow>, ids: set<Id>, ts: seq<RefreshToken>, id: Id)
    requires Lists(tokens, ids, ts) && id in tokens && id !in ids
    ensures Lists(tokens, ids + {id}, ts + [TokenFromRow(id, tokens[id])])
  {
    var more := ts + [TokenFromRow(id, tokens[id])];
    forall x | x in ids + {id} ensures exists i :: 0 <= i < |more| && more[i].id == x {
      if x == id {
        assert more[|ts|].id == x;
      } else {
        var i :| 0 <= i < |ts| && ts[i].id == x;
        assert more[i].id == x;
      }
    }
  }

  // ----- the effect of storing an aggregate, row by row -----

  function RevokedRow(row: TokenRow, sessions: set<Id>): TokenRow {
    if row.sessionId in sessions then row.(isRevoked := true) else row
  }

  /** The given sessions and every one of their tokens revoked, everything else as it was. */
  function RevokedIn(store: Store, sids: set<Id>): Store {
    Store(map sid | sid in store.sessions ::
            if sid in sids then store.sessions[sid].(isRevoked := true) else store.sessions[sid],
          map id | id in store.tokens :: RevokedRow(store.tokens[id], sids))
  }

  /** One token revoked, one new token of the same session, and a new end for the session. */
  function Rotated(store: Store, tokenId: Id, token: RefreshToken, expiresAt: Time): Store
    requires tokenId in store.tokens && store.tokens[tokenId].sessionId in store.sessions
  {
    var sid := store.tokens[tokenId].sessionId;
    Store(store.sessions[sid := store.sessions[sid].(expiresAt := expiresAt)],
          store.tokens[tokenId := store.tokens[tokenId].(isRevoked := true)]
                      [token.id := TokenRow(sid, token.tokenHash, token.expiresAt, token.isRevoked, token.createdAt)])
  }

  function Touched(row: TokenRow, t: RefreshToken): TokenRow {
    row.(isRevoked := t.isRevoked, expiresAt := t.expiresAt)
  }

  /** The tokens `ts` touched, and no others. */
  ghost predicate TouchedBy(tokens: map<Id, TokenRow>, after: map<Id, TokenRow>, ts: seq<RefreshToken>) {
    && after.Keys == tokens.Keys
    && (forall i :: 0 <= i < |ts| ==> ts[i].id in tokens && after[ts[i].id] == Touched(tokens[ts[i].id], ts[i]))
    && (forall id :: id in tokens && (forall i :: 0 <= i < |ts| ==> ts[i].id != id) ==> after[id] == tokens[id])
  }

  lemma {:induction false} UpsertingKnownTokens(tokens: map<Id, TokenRow>, sessionId: Id, ts: seq<RefreshToken>)
    requires forall i :: 0 <= i < |ts| ==> ts[i].id in tokens
    requires forall i, j :: 0 <= i < j < |ts| ==> ts[i].id != ts[j].id
    ensures UpsertAll(tokens, sessionId, ts).Some? && TouchedBy(tokens, UpsertAll(tokens, sessionId, ts).value, ts)
  {
    if ts != [] {
      var init := ts[..|ts| - 1];
      UpsertingKnownTokens(tokens, sessionId, init);
      var before := UpsertAll(tokens, sessionId, init).value;
      assert forall i :: 0 <= i < |init| ==> init[i] == ts[i];
      assert before[ts[|ts| - 1].id] == tokens[ts[|ts| - 1].id];
    }
  }

  /** The rows of one session, with the given ones revoked. */
  function Flagged(tokens: map<Id, TokenRow>, sessionId: Id, revoked: set<Id>): map<Id, TokenRow> {
    map id | id in tokens :: if tokens[id].sessionId == sessionId then tokens[id].(isRevoked := id in revoked) else tokens[id]
  }

  /** Storing every token of a session with nothing changed but some flags sets just those flags. */
  lemma StoringFlags(tokens: map<Id, TokenRow>, sessionId: Id, loaded: seq<RefreshToken>, ts: seq<RefreshToken>, revoked: set<Id>)
    requires Lists(tokens, TokensOf(tokens, sessionId), loaded) && |ts| == |loaded|
    requires forall i :: 0 <= i < |ts| ==> ts[i] == loaded[i].(isRevoked := loaded[i].id in revoked)
    ensures UpsertAll(tokens, sessionId, ts) == Some(Flagged(tokens, sessionId, revoked))
  {
    assert forall i :: 0 <= i < |ts| ==> ts[i].id == loaded[i].id;
    UpsertingKnownTokens(tokens, sessionId, ts);
    var after := UpsertAll(tokens, sessionId, ts).value;
    forall id | id in tokens ensures after[id] == Flagged(tokens, sessionId, revoked)[id] {
      FlaggedRow(tokens, after, sessionId, loaded, ts, revoked, id);
    }
    assert after == Flagged(tokens, sessionId, revoked);
  }

  lemma FlaggedRow(tokens: map<Id, TokenRow>, after: map<Id, TokenRow>, sessionId: Id,
                   loaded: seq<RefreshToken>, ts: seq<RefreshToken>, revoked: set<Id>, id: Id)
    requires Lists(tokens, TokensOf(tokens, sessionId), loaded) && |ts| == |loaded|
    requires forall i :: 0 <= i < |ts| ==> ts[i] == loaded[i].(isRevoked := loaded[i].id in revoked)
    requires TouchedBy(tokens, after, ts) && id in tokens
    ensures after[id] == if tokens[id].sessionId == sessionId then tokens[id].(isRevoked := id in revoked) else tokens[id]
  {
    if id in TokensOf(tokens, sessionId) {
      var i :| 0 <= i < |loaded| && loaded[i].id == id;
      assert ts[i].id == id;
    } else {
      assert forall i :: 0 <= i < |ts| ==> ts[i].id == loaded[i].id != id;
    }
  }

  /** Loading a session, revoking it and storing it leaves no token of it unrevoked, and touches nothing else. */
  lemma RevocationCoversEveryToken(store: Store, a: SessionAggregate)
    requires Loaded(store, a)
    ensures Updated(store, a.Revoke()) == Some(RevokedIn(store, {a.sessionId}))
  {
    var all := TokensOf(store.tokens, a.sessionId);
    StoringFlags(store.tokens, a.sessionId, a.refreshTokens, a.Revoke().refreshTokens, all);
    forall id | id in store.tokens
      ensures Flagged(store.tokens, a.sessionId, all)[id] == RevokedRow(store.tokens[id], {a.sessionId})
    {
    }
    assert Flagged(store.tokens, a.sessionId, all) == RevokedIn(store, {a.sessionId}).tokens;
    var row := store.sessions[a.sessionId];
    assert row.(isRevoked := true, expiresAt := a.expiresAt) == row.(isRevoked := true);
    assert store.sessions[a.sessionId := row.(isRevoked := true)] == RevokedIn(store, {a.sessionId}).sessions;
  }

  lemma RetiredToken(store: Store, a: SessionAggregate, tokenId: Id)
    requires Loaded(store, a) && tokenId in TokensOf(store.tokens, a.sessionId)
    ensures UpsertAll(store.tokens, a.sessionId, a.RevokeToken(tokenId).refreshTokens)
         == Some(store.tokens[tokenId := store.tokens[tokenId].(isRevoked := true)])
  {
    var revoked := set id | id in store.tokens && (id == tokenId || store.tokens[id].isRevoked);
    StoringFlags(store.tokens, a.sessionId, a.refreshTokens, a.RevokeToken(tokenId).refreshTokens, revoked);
    assert Flagged(store.tokens, a.sessionId, revoked) == store.tokens[tokenId := store.tokens[tokenId].(isRevoked := true)];
  }

  /** Storing a rotated session retires the presented token, adds the new one, and touches nothing else. */
  lemma RotationIsStored(store: Store, a: SessionAggregate, tokenId: Id, token: RefreshToken, now: Time)
    requires Loaded(store, a) && tokenId in TokensOf(store.tokens, a.sessionId)
    requires token.id !in store.tokens
    ensures Updated(store, a.RevokeToken(tokenId).AddRefreshToken(token).Refresh(now))
         == if HashTaken(store.tokens, token.tokenHash) then None
            else Some(Rotated(store, tokenId, token, now + Seconds(SESSION_EXPIRE_SECONDS)))
  {
    var ts := a.RevokeToken(tokenId).refreshTokens;
    RetiredToken(store, a, tokenId);
    var retired := store.tokens[tokenId := store.tokens[tokenId].(isRevoked := true)];
    assert forall id :: id in retired ==> retired[id].tokenHash == store.tokens[id].tokenHash;
    assert HashTaken(retired, token.tokenHash) <==> HashTaken(store.tokens, token.tokenHash);
    assert (ts + [token])[..|ts|] == ts;
    var row := store.sessions[a.sessionId];
    assert row.(isRevoked := a.isRevoked) == row;
  }

  /** A session loaded before others were revoked is still what the tables hold. */
  lemma RevokingOthersKeepsLoaded(store: Store, sids: set<Id>, a: SessionAggregate)
    requires Loaded(store, a) && a.sessionId !in sids
    ensures Loaded(RevokedIn(store, sids), a)
  {
    var after := RevokedIn(store, sids);
    forall id | id in store.tokens && store.tokens[id].sessionId == a.sessionId
      ensures after.tokens[id] == store.tokens[id]
    {
    }
    assert forall id :: id in store.tokens ==> after.tokens[id].sessionId == store.tokens[id].sessionId;
    assert TokensOf(after.tokens, a.sessionId) == TokensOf(store.tokens, a.sessionId);
  }

  lemma RevokedInTwice(store: Store, sids: set<Id>, more: set<Id>)
    ensures RevokedIn(RevokedIn(store, sids), more) == RevokedIn(store, sids + more)
  {
    var once := RevokedIn(store, sids);
    forall id | id in store.tokens
      ensures RevokedRow(once.tokens[id], more) == RevokedRow(store.tokens[id], sids + more)
    {
    }
  }

  // ----- the repository -----

  /** The open transaction's view of the tables, and what is committed. */
  class SessionRepository {
    var tables: Store
    var committed: Store

    constructor ()
      ensures tables == committed == Store(map[], map[])
      ensures tables.Constrained()
    {
      tables, committed := Store(map[], map[]), Store(map[], map[]);
    }

    method Commit()
      modifies this
      ensures tables == committed == old(tables)
    {
      committed := tables;
    }

    method Rollback()
      modifies this
      ensures tables == committed == old(committed)
    {
      tables := committed;
    }

    method AcquireBySessionId(sessionId: Id) returns (r: Option<SessionAggregate>)
      ensures r.Some? <==> sessionId in tables.sessions
      ensures r.Some? ==> r.value.sessionId == sessionId && Loaded(tables, r.value)
    {
      if sessionId !in tables.sessions {
        return None;
      }
      var grouped := RefreshTokensFor([sessionId]);
      r := Some(SessionFromRows(sessionId, tables.sessions[sessionId], Group(grouped, sessionId)));
    }

    /** One query for the whole batch, its rows grouped in whatever order they come. */
    method RefreshTokensFor(sessionIds: seq<Id>) returns (grouped: map<Id, seq<RefreshToken>>)
      ensures forall sid :: sid in sessionIds ==> Lists(tables.tokens, TokensOf(tables.tokens, sid), Group(grouped, sid))
    {
      grouped := map[];
      var rows := set id | id in tables.tokens && tables.tokens[id].sessionId in sessionIds;
      while rows != {}
        invariant forall id :: id in rows ==> id in tables.tokens && tables.tokens[id].sessionId in sessionIds
        invariant GroupedBut(tables.tokens, sessionIds, rows, grouped)
        decreases |rows|
      {
        var id := AnyOf(rows);
        var row := tables.tokens[id];
        GroupedOneMore(tables.tokens, sessionIds, rows, grouped, id);
        grouped := grouped[row.sessionId := Group(grouped, row.sessionId) + [TokenFromRow(id, row)]];
        rows := rows - {id};
      }
      forall sid | sid in sessionIds ensures TokensOf(tables.tokens, sid) - rows == TokensOf(tables.tokens, sid) {
      }
    }

    /** The user's unrevoked sessions, each once and with all its tokens. */
    method AcquireByUserId(userId: Id) returns (r: seq<SessionAggregate>)
      ensures forall i :: 0 <= i < |r| ==> Loaded(tables, r[i])
      ensures SessionIds(r) == LiveSessions(tables, userId)
      ensures forall i, j :: 0 <= i < j < |r| ==> r[i].sessionId != r[j].sessionId
    {
      var ids := Listed(LiveSessions(tables, userId));
      var grouped := RefreshTokensFor(ids);
      r := [];
      for n := 0 to |ids|
        invariant |r| == n && forall i :: 0 <= i < n ==> r[i].sessionId == ids[i] && Loaded(tables, r[i])
      {
        assert ids[n] in ids;
        r := r + [SessionFromRows(ids[n], tables.sessions[ids[n]], Group(grouped, ids[n]))];
      }
      forall sid | sid in LiveSessions(tables, userId) ensures sid in SessionIds(r) {
        var i :| 0 <= i < |ids| && ids[i] == sid;
        assert r[i].sessionId == sid;
      }
    }

    /** The session of an unrevoked token with this hash, unless the session is revoked. */
    method AcquireByTokenHash(hash: TokenHash) returns (r: Option<SessionAggregate>)
      requires tables.Constrained()
      ensures match LiveTokenWith(tables, hash)
              case None => r == None
              case Some(id) => r.Some? && Loaded(tables, r.value) && r.value.sessionId == tables.tokens[id].sessionId
    {
      var live := set id | id in tables.tokens && tables.tokens[id].tokenHash == hash && !tables.tokens[id].isRevoked;
      ghost var found := LiveTokenWith(tables, hash);
      assert found.Some? ==> found.value in live;
      if live == {} {
        return None;
      }
      var id := AnyOf(live);
      var sid := tables.tokens[id].sessionId;
      if tables.sessions[sid].isRevoked {
        return None;
      }
      r := AcquireBySessionId(sid);
    }

    /** Identifiers are random UUIDs, taken never to repeat, so only a token hash can be refused. */
    method Add(a: SessionAggregate) returns (ok: bool)
      requires a.sessionId !in tables.sessions
      requires forall i, j :: 0 <= i < j < |a.refreshTokens| ==> a.refreshTokens[i].id != a.refreshTokens[j].id
      requires forall i :: 0 <= i < |a.refreshTokens| ==> a.refreshTokens[i].id !in tables.tokens
      modifies this`tables
      ensures ok <==> UpsertAll(old(tables).tokens, a.sessionId, a.refreshTokens).Some?
      ensures ok ==> tables == Store(
        old(tables).sessions[a.sessionId := SessionRow(a.userId, a.deviceInfo, a.createdAt, a.expiresAt, a.isRevoked)],
        UpsertAll(old(tables).tokens, a.sessionId, a.refreshTokens).value)
    {
      tables := tables.(sessions := tables.sessions[a.sessionId :=
        SessionRow(a.userId, a.deviceInfo, a.createdAt, a.expiresAt, a.isRevoked)]);
      ok := StoreTokens(a.sessionId, a.refreshTokens);
    }

    method Update(a: SessionAggregate) returns (ok: bool)
      requires a.sessionId in tables.sessions
      modifies this`tables
      ensures ok <==> Updated(old(tables), a).Some?
      ensures ok ==> tables == Updated(old(tables), a).value
    {
      tables := tables.(sessions := tables.sessions[a.sessionId :=
        tables.sessions[a.sessionId].(isRevoked := a.isRevoked, expiresAt := a.expiresAt)]);
      ok := StoreTokens(a.sessionId, a.refreshTokens);
    }

    method StoreTokens(sessionId: Id, ts: seq<RefreshToken>) returns (ok: bool)
      modifies this`tables
      ensures ok <==> UpsertAll(old(tables).tokens, sessionId, ts).Some?
      ensures ok ==> tables == old(tables).(tokens := UpsertAll(old(tables).tokens, sessionId, ts).value)
    {
      for n := 0 to |ts|
        invariant UpsertAll(old(tables).tokens, sessionId, ts[..n]) == Some(tables.tokens)
        invariant tables.sessions == old(tables).sessions
      {
        assert ts[..n + 1][..n] == ts[..n];
        match Upsert(tables.tokens, sessionId, ts[n]) {
          case Some(tokens) =>
            tables := tables.(tokens := tokens);
          case None =>
            OneViolationFailsAll(old(tables).tokens, sessionId, ts, n + 1);
            return false;
        }
      }
      assert ts[..|ts|] == ts;
      return true;
    }
  }

  /** Every row of the given sessions is in its group, except those still to come. */
  ghost predicate GroupedBut(tokens: map<Id, TokenRow>, sessionIds: seq<Id>, rows: set<Id>, grouped: map<Id, seq<RefreshToken>>) {
    forall sid :: sid in sessionIds ==> Lists(tokens, TokensOf(tokens, sid) - rows, Group(grouped, sid))
  }

  lemma GroupedOneMore(tokens: map<Id, TokenRow>, sessionIds: seq<Id>, rows: set<Id>, grouped: map<Id, seq<RefreshToken>>, id: Id)
    requires GroupedBut(tokens, sessionIds, rows, grouped)
    requires id in rows && id in tokens && tokens[id].sessionId in sessionIds
    ensures var sid := tokens[id].sessionId;
            GroupedBut(tokens, sessionIds, rows - {id}, grouped[sid := Group(grouped, sid) + [TokenFromRow(id, tokens[id])]])
  {
    var sid := tokens[id].sessionId;
    var after := grouped[sid := Group(grouped, sid) + [TokenFromRow(id, tokens[id])]];
    forall other | other in sessionIds ensures Lists(tokens, TokensOf(tokens, other) - (rows - {id}), Group(after, other)) {
      if other == sid {
        ListsOneMore(tokens, TokensOf(tokens, sid) - rows, Group(grouped, sid), id);
        assert TokensOf(tokens, sid) - (rows - {id}) == TokensOf(tokens, sid) - rows + {id};
      } else {
        assert TokensOf(tokens, other) - (rows - {id}) == TokensOf(tokens, other) - rows;
      }
    }
  }

  function Group(grouped: map<Id, seq<RefreshToken>>, sessionId: Id): seq<RefreshToken> {
    if sessionId in grouped then grouped[sessionId] else []
  }

  function SessionIds(sessions: seq<SessionAggregate>): set<Id> {
    set i | 0 <= i < |sessions| :: sessions[i].sessionId
  }

  lemma {:induction false} OneViolationFailsAll(tokens: map<Id, TokenRow>, sessionId: Id, ts: seq<RefreshToken>, n: nat)
    requires n <= |ts| && UpsertAll(tokens, sessionId, ts[..n]).None?
    ensures UpsertAll(tokens, sessionId, ts).None?
  {
    if n == |ts| {
      assert ts[..n] == ts;
    } else {
      var init := ts[..|ts| - 1];
      assert init[..n] == ts[..n];
      OneViolationFailsAll(tokens, sessionId, init, n);
    }
  }

  /** An unrevoked token of an unrevoked session. */
  ghost predicate LiveToken(store: Store, id: Id) {
    && id in store.tokens && !store.tokens[id].isRevoked
    && store.tokens[id].sessionId in store.sessions && !store.sessions[store.tokens[id].sessionId].isRevoked
  }

  /** The live token with this hash: at most one, by the unique hash. */
  ghost function LiveTokenWith(store: Store, hash: TokenHash): (r: Option<Id>)
    ensures r.Some? ==> LiveToken(store, r.value) && store.tokens[r.value].tokenHash == hash
    ensures r.None? ==> forall id :: LiveToken(store, id) ==> store.tokens[id].tokenHash != hash
  {
    if id :| LiveToken(store, id) && store.tokens[id].tokenHash == hash then Some(id) else None
  }
}
