/** Pending second-factor challenges and the registry of spent codes, both kept in the cache. */
module TwoFactorChallenge {
  import opened Basics
  import opened MemoryCache
  import opened User

  const CHALLENGE_TTL_SECONDS := 300
  const MAX_ATTEMPTS := 5
  const CODE_MEMORY_SECONDS := 120

  datatype DeviceInfo = DeviceInfo(
    userAgent: Option<string>, ipAddress: Option<string>, deviceName: Option<string>,
    browser: Option<string>, os: Option<string>, isMobile: bool)

  datatype Challenge = Challenge(userId: int, deviceInfo: DeviceInfo, attempts: nat, loginChallenge: Option<string>)
  {
    function WithFailedAttempt(): Challenge {
      this.(attempts := attempts + 1)
    }

    predicate IsExhausted() {
      attempts >= MAX_ATTEMPTS
    }
  }

  datatype StoredChallenge = StoredChallenge(
    userId: int, userAgent: Option<string>, ipAddress: Option<string>, attempts: nat, loginChallenge: Option<string>)
  {
    static function Of(c: Challenge): StoredChallenge {
      StoredChallenge(c.userId, c.deviceInfo.userAgent, c.deviceInfo.ipAddress, c.attempts, c.loginChallenge)
    }

    function ToChallenge(): Challenge {
      Challenge(userId, DeviceInfo(userAgent, ipAddress, None, None, None, false), attempts, loginChallenge)
    }
  }

  /** The cache keeps only the agent and the address of the device, so a round trip is exact for just those. */
  lemma StorageKeepsAgentAndAddress(c: Challenge)
    ensures StoredChallenge.Of(c).ToChallenge() == c
       <==> c.deviceInfo == DeviceInfo(c.deviceInfo.userAgent, c.deviceInfo.ipAddress, None, None, None, false)
  {
  }

  /** Cache keys. Distinct user and code pairs are taken to have distinct digests. */
  datatype Key = Pending(token: string) | UsedCode(userId: int, code: string)

  datatype Cached = Stored(challenge: StoredChallenge) | Mark | Unreadable(raw: string)

  type TimedMap = map<Key, Entry<Cached>>

  function Issued(timed: TimedMap, token: string, c: Challenge, now: Time): TimedMap {
    Written(timed, Pending(token), Stored(StoredChallenge.Of(c)), Some(CHALLENGE_TTL_SECONDS), now)
  }

  /** The challenge, if there is a live one, and the cache afterwards: an entry that does not parse is discarded. */
  function ReadBack(timed: TimedMap, token: string, now: Time): (Option<Challenge>, TimedMap) {
    match Lookup(timed, Pending(token), now)
    case Some(v) => if v.Stored? then (Some(v.challenge.ToChallenge()), timed) else (None, timed - {Pending(token)})
    case None => (None, timed)
  }

  /** A counted failure: the challenge is rewritten with a fresh time to live, or discarded when exhausted. */
  function FailureRecorded(timed: TimedMap, token: string, c: Challenge, now: Time): TimedMap {
    var updated := c.WithFailedAttempt();
    if updated.IsExhausted() then timed - {Pending(token)}
    else Written(timed, Pending(token), Stored(StoredChallenge.Of(updated)), Some(CHALLENGE_TTL_SECONDS), now)
  }

  /**
   What comes back of an issued challenge: for three hundred seconds the challenge with its device
   cut down to agent and address, which is the whole challenge exactly when there was no more to it.
   */
  lemma IssuedComesBack(timed: TimedMap, token: string, c: Challenge, now: Time, later: Time)
    ensures var (back, after) := ReadBack(Issued(timed, token, c, now), token, later);
            && after == Issued(timed, token, c, now)
            && (back.Some? <==> later < now + Seconds(300))
            && (back.Some? ==> back.value.(deviceInfo := c.deviceInfo) == c)
            && (back == Some(c) <==> back.Some? && c.deviceInfo == DeviceInfo(c.deviceInfo.userAgent, c.deviceInfo.ipAddress, None, None, None, false))
  {
    StorageKeepsAgentAndAddress(c);
  }

  /** A counted failure adds one attempt for another three hundred seconds; the fifth closes the challenge. */
  lemma FailureComesBack(timed: TimedMap, token: string, c: Challenge, now: Time, later: Time)
    ensures var (back, after) := ReadBack(FailureRecorded(timed, token, c, now), token, later);
            && (back.Some? <==> c.attempts + 1 < 5 && later < now + Seconds(300))
            && (back.Some? ==> back.value.(deviceInfo := c.deviceInfo) == c.(attempts := c.attempts + 1)
                               && back.value.deviceInfo == DeviceInfo(c.deviceInfo.userAgent, c.deviceInfo.ipAddress, None, None, None, false))
            && (c.attempts + 1 >= 5 ==> Pending(token) !in FailureRecorded(timed, token, c, now))
  {
  }

  /** Reading answers with the live entry that parses, discards one that does not, and touches no other. */
  lemma ReadingDiscardsTheUnreadable(timed: TimedMap, token: string, now: Time)
    ensures var (back, after) := ReadBack(timed, token, now);
            && (forall k :: k in timed && k != Pending(token) ==> k in after && after[k] == timed[k])
            && (after == timed || after == timed - {Pending(token)})
            && (back.Some? <==> Lookup(timed, Pending(token), now).Some? && Lookup(timed, Pending(token), now).value.Stored?)
            && (back.Some? ==> after == timed && back.value.loginChallenge == timed[Pending(token)].value.challenge.loginChallenge
                               && back.value.userId == timed[Pending(token)].value.challenge.userId
                               && back.value.attempts == timed[Pending(token)].value.challenge.attempts)
            && (Lookup(timed, Pending(token), now).Some? && back.None? ==> Pending(token) !in after)
  {
  }

  class CachedTwoFactorChallengeStore {
    const cache: InMemoryCache<Key, Cached>

    constructor (cache: InMemoryCache<Key, Cached>)
      ensures this.cache == cache
    {
      this.cache := cache;
    }

    method Issue(token: string, c: Challenge, now: Time)
      requires cache.Valid() && cache.clock <= now
      modifies cache
      ensures cache.Valid() && cache.clock == now
      ensures cache.timed == Issued(old(cache.timed), token, c, now)
    {
      cache.Set(Pending(token), Stored(StoredChallenge.Of(c)), Some(CHALLENGE_TTL_SECONDS), now);
    }

    /** Nothing stands for the expired-challenge error. */
    method Read(token: string, now: Time) returns (c: Option<Challenge>)
      requires cache.Valid() && cache.clock <= now
      modifies cache
      ensures cache.Valid() && cache.clock == now
      ensures (c, cache.timed) == ReadBack(old(cache.timed), token, now)
    {
      var raw := cache.Get(Pending(token), now);
      if raw.None? {
        return None;
      }
      if !raw.value.Stored? {
        Discard(token);
        return None;
      }
      c := Some(raw.value.challenge.ToChallenge());
    }

    /** `exhausted` stands for the expired-challenge error raised after the last attempt. */
    method RecordFailure(token: string, c: Challenge, now: Time) returns (exhausted: bool)
      requires cache.Valid() && cache.clock <= now
      modifies cache
      ensures cache.Valid() && cache.clock <= now
      ensures cache.timed == FailureRecorded(old(cache.timed), token, c, now)
      ensures exhausted <==> c.attempts + 1 >= MAX_ATTEMPTS
    {
      var updated := c.WithFailedAttempt();
      if updated.IsExhausted() {
        Discard(token);
        return true;
      }
      cache.Set(Pending(token), Stored(StoredChallenge.Of(updated)), Some(CHALLENGE_TTL_SECONDS), now);
      exhausted := false;
    }

    method Discard(token: string)
      requires cache.Valid()
      modifies cache
      ensures cache.Valid() && cache.clock == old(cache.clock)
      ensures cache.timed == old(cache.timed) - {Pending(token)}
    {
      cache.Delete(Pending(token));
    }
  }

  class UsedCodeRegistry {
    const cache: InMemoryCache<Key, Cached>

    constructor (cache: InMemoryCache<Key, Cached>)
      ensures this.cache == cache
    {
      this.cache := cache;
    }

    method WasUsed(userId: int, code: string, now: Time) returns (used: bool)
      requires cache.Valid() && cache.clock <= now
      modifies cache
      ensures cache.Valid() && cache.clock == now && cache.timed == old(cache.timed)
      ensures used == Lookup(cache.timed, UsedCode(userId, code), now).Some?
    {
      var held := cache.Get(UsedCode(userId, code), now);
      used := held.Some?;
    }

    method Remember(userId: int, code: string, now: Time)
      requires cache.Valid() && cache.clock <= now
      modifies cache
      ensures cache.Valid() && cache.clock == now
      ensures cache.timed == Written(old(cache.timed), UsedCode(userId, code), Mark, Some(CODE_MEMORY_SECONDS), now)
    {
      cache.Set(UsedCode(userId, code), Mark, Some(CODE_MEMORY_SECONDS), now);
    }
  }

  // ----- one-time codes -----

  /** The time-step counter of section 4.2 of RFC 6238, with a thirty second step. */
  function TimeStep(now: Time): int {
    now / 30_000_000
  }

  /** Is this the code of the counter? `codeOf` stands for the HMAC-based generator. */
  predicate IsCodeOf(codeOf: (string, int) -> string, secret: string, code: string, counter: int) {
    codeOf(secret, counter) == code
  }

  /** Verification with a window of one: the codes of the previous, current and next step. */
  predicate VerifyCode(codeOf: (string, int) -> string, secret: string, code: string, now: Time) {
    || IsCodeOf(codeOf, secret, code, TimeStep(now) - 1)
    || IsCodeOf(codeOf, secret, code, TimeStep(now))
    || IsCodeOf(codeOf, secret, code, TimeStep(now) + 1)
  }

  /** Does verifying at this moment accept the code on the strength of this counter? */
  predicate AcceptedFor(codeOf: (string, int) -> string, secret: string, code: string, now: Time, counter: int) {
    TimeStep(now) - 1 <= counter <= TimeStep(now) + 1 && IsCodeOf(codeOf, secret, code, counter)
  }

  /** A code verifies exactly if it belongs to one of three counters. */
  lemma VerifiesItsWindow(codeOf: (string, int) -> string, secret: string, code: string, now: Time)
    ensures VerifyCode(codeOf, secret, code, now) <==> exists counter :: AcceptedFor(codeOf, secret, code, now, counter)
  {
    var step := TimeStep(now);
    assert IsCodeOf(codeOf, secret, code, step - 1) ==> AcceptedFor(codeOf, secret, code, now, step - 1);
    assert IsCodeOf(codeOf, secret, code, step) ==> AcceptedFor(codeOf, secret, code, now, step);
    assert IsCodeOf(codeOf, secret, code, step + 1) ==> AcceptedFor(codeOf, secret, code, now, step + 1);
  }

  /** The code of a counter is good from thirty seconds before its time step to thirty seconds after it. */
  lemma LifeOfACode(codeOf: (string, int) -> string, secret: string, now: Time, counter: int)
    ensures AcceptedFor(codeOf, secret, codeOf(secret, counter), now, counter)
       <==> Seconds(30 * (counter - 1)) <= now < Seconds(30 * (counter + 2))
  {
  }

  /** Two verifications that far apart share no counter. */
  lemma WindowsAreDisjoint(first: Time, second: Time, counter: int)
    requires second - first >= Seconds(90)
    ensures !(TimeStep(first) - 1 <= counter <= TimeStep(first) + 1 && TimeStep(second) - 1 <= counter <= TimeStep(second) + 1)
  {
  }
}
