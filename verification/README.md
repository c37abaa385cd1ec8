# A verified model of the identity service

This project models, in Dafny, the stateful mechanisms of the identity service and proves what they
guarantee. `dafny verify dfyconfig.toml` checks all of it. The files follow the program's components:

| files | component |
|---|---|
| `SlidingWindow`, `RateLimiter` | the in-memory request limiter and login-attempt limiter: lists of timestamps pruned in place, swept periodically and evicted at capacity, proved to decide as an unbounded log would |
| `RedisRateLimiter` | the fixed-window counter and its own, different bound |
| `AccountLock`, `User`, `OptimisticLock`, `UserWrites`, `UserEffects` | the lockout value object, the user aggregate and its row, any number of clients racing on one row through the version-conditional write, and what each change of a user means for the next |
| `MemoryCache`, `TwoFactorChallenge`, `CompleteTwoFactor` | the lazily expiring cache, second-factor challenges and used codes stored in it, and the use case that spends both |
| `Outbox`, `OutboxWorker`, `OutboxMachine`, `OutboxSafety`, `OutboxSecrecy` | the transactional outbox: the repository, the publisher and one worker's batch as code; any number of workers with crashes, replays and pruning as a step relation |
| `Sessions`, `SessionService`, `SessionRuns` | the session aggregate, its two tables with the upsert, the service and its use cases, and whole serial runs of them |
| `Rbac`, `RbacRuns`, `RbacService` | roles, permissions and assignments: the exact sync of a role's links, the one-pass join against the per-role loop, and whole runs of the service |
| `UnitOfWork`, `EventLineage`, `EventDelivery` | the two units of work, the fate of every recorded domain event, and its way to the broker |

## How the model is set up

* Time is an integer in microseconds. Every reading of the clock is a parameter, so the gap between
  two readings inside one call is arbitrary unless a statement bounds it.
* The database is maps and sets of rows. A conditional `UPDATE`, and Redis `INCR` with its first
  `EXPIRE`, are single steps. `FOR UPDATE SKIP LOCKED` is a set of locked ids.
* Components that change state in place are classes whose methods are proved against pure functions;
  the theorems over runs are about those functions, and where a request writes users and sessions
  together, a lemma says that what it commits is one step of the run.
* A query without `ORDER BY` may return its rows in any order: the methods pick an arbitrary one.
* Random UUIDs and tokens are taken never to repeat. Hashing, encryption, bcrypt and code generation
  are arbitrary functions; `CipherWorks` says only that decryption undoes encryption. A presented
  refresh token enters only through its hash, so a bound per hash is a bound per raw token.
* `verify_code` accepts the codes of the counters T-1, T and T+1 (sections 4.2 and 5.2 of RFC 6238),
  and exactly one string per counter: two spellings of a code that the authenticator took for equal
  would be two codes to the registry of used ones.
* A publish is a success or a failure chosen by the environment; a failed publish delivered nothing.
* Only user rows carry a version, so only they get a theorem about interleaved clients. Challenges,
  used codes, sessions and roles are proved for serial runs.

## Where the code and its documentation differ

The model follows the code.

* The README promises replay detection for refresh tokens and `refresh_session` documents that a
  replayed token kills its session. A rotated token is no longer found at all
  (`src/infrastructure/db/sqlalchemy/repositories/session.py:237`), and the branch that revokes the
  session is reached only for a live token that has expired, whose writes are not committed
  (`src/application/user/commands/refresh_token.py:34`).
  `SessionService.ReuseIsReportedOnlyForExpiredTokens` gives the exact condition;
  `SessionRuns.ExchangedOnce` proves what does hold, that a rotated token is never exchanged again.
* A challenge is documented to live 300 s. Every recorded failure restarts its time to live
  (`src/infrastructure/two_factor_challenge_store.py:85`), so an open challenge is readable until
  exactly 300 s after its issue or its latest counted failure, whichever is later.
  `CompleteTwoFactor.LifeOutlastsItsIssueIffExtended` says when the documented life is exceeded,
  `CompleteTwoFactor.ReadableAfterThreeHundredSeconds` shows a challenge that is readable 400 s after
  its issue, and `CompleteTwoFactor.ChallengeIsSpentOnce` bounds every life by 1500 s plus four times
  the longest a single completion takes.
* A fixed window of n requests admits up to 2n-1 of them in an interval of the window's length:
  `RedisRateLimiter.FixedWindowBound`, and `FixedWindowBoundIsReached` shows the bound is attained.
* Capacity eviction in the in-memory limiter can drop live buckets.
  `RateLimiter.EvictionBreaksTheWindow` runs a limiter of one request an hour that allows two within
  a minute. Eviction happens exactly when a cleanup finds more live keys than `max_keys`
  (`RateLimiter.EvictionIsForced`); a limiter whose cleanups never did keeps the window bound for
  every key that was not reset (`RateLimiter.InMemoryRateLimiter.UncrowdedWindowBound`). With
  `max_requests` below one a check raises instead of denying.
* The two request limiters differ in `remaining`: the in-memory one reports the room before the hit,
  the Redis one the room after it. When less than half a second of a window is left, the Redis
  limiter reports a `reset_at` a whole window away (`RedisRateLimiter.CheckLimit`).

## Model

| member | source | states |
|---|---|---|
| SlidingWindow.WindowBound | src/infrastructure/security/rate_limiter.py:50-92 | over any stretch of any run in which a key is neither reset nor evicted, no window of the configured length holds more allowed checks than the limit |
| SlidingWindow.LiveLogIsBounded | src/infrastructure/security/rate_limiter.py:50-70 | what is currently remembered of a key never exceeds the limit in any window, in the past or the future |
| SlidingWindow.ResetTimeIsExact | src/infrastructure/security/rate_limiter.py:56-70 | whatever happens to this key or others after a denial, as long as the key is not forgotten, every check before the denial's `reset_at` is denied and the first at or after it is allowed |
| RateLimiter.Sweep | src/infrastructure/security/rate_limiter.py:75-92 | the cleanup removes exactly the stale keys and then exactly as many of the first keys in list order as exceed the capacity |
| RateLimiter.ListLeqIsLexicographic | src/infrastructure/security/rate_limiter.py:89-91 | the order in which keys are evicted is the lexicographic order of their lists |
| RateLimiter.EvictsTheOldest | src/infrastructure/security/rate_limiter.py:89-92 | an evicted key's first remembered request is no later than that of any key that stays |
| RateLimiter.EvictionIsForced | src/infrastructure/security/rate_limiter.py:89-92 | a cleanup evicts live keys if and only if more of them are left than the capacity |
| RateLimiter.InMemoryRateLimiter.UncrowdedWindowBound | src/infrastructure/security/rate_limiter.py:50-92 | over the whole life of a limiter whose cleanups never found more live keys than the capacity, no window of a key that was never reset holds more allowed checks than the limit |
| RateLimiter.EvictionBreaksTheWindow | src/infrastructure/security/rate_limiter.py:75-92 | a run in which an evicted key gets two requests within a minute from a limiter of one an hour |
| RateLimiter.CleanupIsKept | src/infrastructure/security/rate_limiter.py:75-92 | after a cleanup the lists still answer every later question as the unbounded log would, with evicted keys forgotten |
| RateLimiter.DecisionIsKept | src/infrastructure/security/rate_limiter.py:50-70 | pruning a list and appending to it, or not, keeps it in agreement with the unbounded log |
| RateLimiter.RecordIsKept | src/infrastructure/security/rate_limiter.py:102-112 | the same for appending first and pruning afterwards |
| RateLimiter.InMemoryRateLimiter.Check | src/infrastructure/security/rate_limiter.py:50-70 | the check allows exactly when the unbounded log has room, reports the exact reset time and the room there was before the hit, so that one fewer may follow, records only allowed hits, and raises exactly when the limit is below one |
| RateLimiter.InMemoryRateLimiter.Decide | src/infrastructure/security/rate_limiter.py:53-70 | the decision itself, after the cleanup, against the unbounded log |
| RateLimiter.InMemoryRateLimiter.MaybeCleanup | src/infrastructure/security/rate_limiter.py:75-92 | nothing changes before the interval is up; afterwards the sweep runs and only evicted keys are forgotten, which are none exactly when the live keys fit the capacity |
| RateLimiter.InMemoryRateLimiter.Reset | src/infrastructure/security/rate_limiter.py:72-73 | a reset forgets one key and nothing else |
| RateLimiter.InMemoryLoginAttemptLimiter.RecordFailedLogin | src/infrastructure/security/rate_limiter.py:102-112 | every failure is logged, and the answer is whether the log now has no room |
| RateLimiter.InMemoryLoginAttemptLimiter.IsLocked | src/infrastructure/security/rate_limiter.py:114-116 | locked exactly when the unbounded log of failures has no room at that moment |
| RateLimiter.InMemoryLoginAttemptLimiter.GetRemainingLockTime | src/infrastructure/security/rate_limiter.py:118-125 | the whole seconds, rounded down, until the oldest recent failure leaves the window, which for a locked key is exactly when it unlocks |
| RateLimiter.InMemoryLoginAttemptLimiter.LockoutEndsOnTime | src/infrastructure/security/rate_limiter.py:102-135 | over a serial run of logins a key is locked at a later moment exactly when that moment is before the end reported for it |
| RateLimiter.InMemoryLoginAttemptLimiter.RecentIsLive | src/infrastructure/security/rate_limiter.py:130-135 | the stored list filtered by the window equals the unbounded log filtered by the window |
| RateLimiter.Login | src/application/user/commands/login.py:77-128 | the order in which a login consults and feeds its two limiters, with both logs as they stand afterwards; it is rate limited exactly when the request limiter's log has no room, until the moment it names, and locked out exactly when the failure log has none; a failure is recorded only after the lockout let the attempt through, so the failure log never exceeds its maximum in any window |
| RedisRateLimiter.FixedWindowBound | src/infrastructure/security/redis_rate_limiter.py:21-38 | for every sequence of hits, any interval of the window's length holds at most twice the limit less one allowed hits |
| RedisRateLimiter.FixedWindowBoundIsReached | src/infrastructure/security/redis_rate_limiter.py:21-38 | that bound is attained for every limit and every window |
| RedisRateLimiter.OneLifetimeBound | src/infrastructure/security/redis_rate_limiter.py:21-38 | within one lifetime of the key at most the limit are allowed |
| RedisRateLimiter.LifetimeBound | src/infrastructure/security/redis_rate_limiter.py:22-28 | the hits of the current lifetime are counted exactly and lie inside it; earlier ones do not |
| RedisRateLimiter.CounterStore.Increment | src/infrastructure/security/redis_rate_limiter.py:22-28 | the stored counters stay those of the full history of increments, across expiry and deletion |
| RedisRateLimiter.CheckLimit | src/infrastructure/security/redis_rate_limiter.py:21-38 | a hit joins the allowed ones exactly when the check says so; the remaining count is that after the hit; `reset_at` is the end of the lifetime to within half a second and the time the check took, or a whole window away when that rest rounds to zero |
| RedisRateLimiter.RecordFailure | src/infrastructure/security/redis_rate_limiter.py:56-67 | the failure is counted and the answer is whether the count has reached the maximum |
| RedisRateLimiter.IsLocked | src/infrastructure/security/redis_rate_limiter.py:69-71 | locked exactly while the counter lives at or above the maximum |
| RedisRateLimiter.LockedByEnoughFailures | src/infrastructure/security/redis_rate_limiter.py:56-71 | locked exactly when the failures since the lifetime in progress began, at one of them and less than a window ago, have reached the maximum |
| RedisRateLimiter.LockEndsWithItsLifetime | src/infrastructure/security/redis_rate_limiter.py:56-71 | failures during a lock never move its end: it ends one window after the first failure of its lifetime |
| MemoryCache.LazyDeletionIsInvisible | src/infrastructure/cache/memory_cache.py:8-24 | no reader, now or later, can tell the lazily purged store from a plain timed map |
| MemoryCache.WrittenIsRead | src/infrastructure/cache/memory_cache.py:8-21 | a written value is read back exactly until its time is up, or always without one, and no other key is affected |
| MemoryCache.InMemoryCache.Get | src/infrastructure/cache/memory_cache.py:8-17 | reads the live value and may purge the expired one; the timed map is unchanged |
| MemoryCache.InMemoryCache.Set | src/infrastructure/cache/memory_cache.py:19-21 | the timed map gains the entry; a time to live of zero or none never expires |
| MemoryCache.InMemoryCache.Delete | src/infrastructure/cache/memory_cache.py:23-24 | the timed map loses the entry, present or not |
| AccountLock.LockIsItsHistory | src/domain/user/value_objects/account_lock.py:33-76 | over any history the stored counter is the failures since the last success, clearance or elapsed lock, never above the maximum, and a lock ends exactly fifteen minutes after the failure that set it |
| User.RowRoundTrip | src/infrastructure/db/sqlalchemy/repositories/user.py:66-160 | storing a user and reading the row back loses nothing but the version it was stored under |
| User.HexAllRoundTrip | src/infrastructure/db/sqlalchemy/repositories/user.py:106-160 | backup-code hashes survive their hexadecimal storage |
| User.RowsThatDoNotRead | src/infrastructure/db/sqlalchemy/repositories/user.py:66-104 | reading a row raises if and only if it has a secret and a backup code that is not a hash in hexadecimal |
| User.WithoutMembers | src/domain/user/value_objects/two_factor_secret.py:46-57 | consuming a backup code removes every copy of its hash and keeps every copy of the others |
| User.ConsumingOneCode | src/domain/user/value_objects/two_factor_secret.py:46-57 | a code is consumed if and only if it is held; it alone is lost, and the secret and the moment of enabling stay |
| User.VerifyingTwoFactor | src/domain/user/entities/user.py:113-122 | a second factor is good if and only if it is enabled and the authenticator agrees, which changes nothing, or the code is a backup code, which alone is lost |
| OptimisticLock.UserTable.Update | src/infrastructure/db/sqlalchemy/repositories/user.py:163-266 | the conditional write goes through exactly when the row still carries the loaded version and no other row has the name or address, and then a load gives back the returned user; otherwise the matching error and no change; names and addresses stay unique, a write that leaves them alone is never refused for them, and no other user's row is touched |
| OptimisticLock.RowIsSerial | src/infrastructure/db/sqlalchemy/repositories/user.py:243-266 | for every interleaving of any number of clients, the row reads as the committed operations applied one after another in commit order, and its version counts them |
| OptimisticLock.StepKeepsInv | src/infrastructure/db/sqlalchemy/repositories/user.py:243-266 | every load and every write keeps each client's copy a snapshot of some prefix of the committed operations |
| OptimisticLock.FreshWriteSucceeds | src/infrastructure/db/sqlalchemy/repositories/user.py:243-266 | a write made right after loading is refused only by the operation itself or by a name or address already taken |
| UserWrites.BackupCodeSpentOnce | src/domain/user/entities/user.py:113-122 | of two committed transactions that spend the same backup code, whether in completing a challenge or in verifying, a committed enrolment that issued the code again lies between |
| UserWrites.NoFailureIsLost | src/domain/user/entities/user.py:124-150 | for every interleaving, and whatever guarded history the row starts with, the stored failure counter is the number of failures in that history and the commits since the last clearance, modulo the maximum |
| UserWrites.TakenIsRefused | src/infrastructure/db/sqlalchemy/repositories/user.py:243-266 | a write of a taken name or address changes neither the row nor any client |
| UserWrites.LockedRowIsUntouched | src/application/user/services.py:111-132 | while a lock holds, no number of racing logins, right or wrong, changes the row |
| UserWrites.IndefiniteLockHoldsAlways | src/domain/user/value_objects/account_lock.py:65-76 | a lock holds at every moment if and only if it has no end; one with an end holds exactly until it |
| UserEffects.EachFieldHasItsOperations | src/domain/user/entities/user.py:113-321 | each field of a user changes only by the operations meant for it, and no operation touches the id or the version |
| UserEffects.DeletedUsersAreRefused | src/application/user/services.py:236-340 | on a deleted user only a password reset and the confirmation of an address go through |
| UserEffects.DeletingOnce | src/domain/user/entities/user.py:283-288 | a deletion goes through if and only if the user was not deleted before, and sets the moment and nothing else |
| UserEffects.LoginsAreRecorded | src/application/user/services.py:111-132 | the outcome of a password comparison is recorded if and only if the user is there and not locked when it is made |
| UserEffects.ChangedPasswordIsStored | src/domain/user/entities/user.py:312-321 | the new hash is stored, the lock lifted, no reset token is good any more, and nothing else changes |
| UserEffects.ResetPasswordIsStored | src/domain/user/entities/user.py:197-209 | a reset goes through if and only if the stored token matches, is unused and in time; then the same holds |
| UserEffects.RequestOpensAReset | src/domain/user/entities/user.py:184-209 | after a request exactly its own token resets, for exactly an hour |
| UserEffects.ResetAnswersARequest | src/domain/user/entities/user.py:184-209 | for every interleaving, a committed reset answers a committed request with the same token, less than an hour old, with no other reset, request or password change between them, or uses the token the row started with before any of these; so no token resets twice |
| UserEffects.EnrolmentFromStartToFinish | src/domain/user/entities/user.py:211-246 | an enrolment accepts nothing until it is confirmed with a right code; then exactly its own codes; it cannot be begun or confirmed again, and switching it off leaves the user without one |
| UserEffects.SpendingLosesOneCode | src/domain/user/entities/user.py:113-122 | a spending goes through if and only if the factor is on and holds the code, and loses that code alone |
| UserEffects.CodesAreLostOnlyBySpending | src/domain/user/entities/user.py:113-122 | for every interleaving without a new enrolment or a switching off, a code is left if and only if it was there and was not spent |
| UserEffects.ProfileIsStored | src/domain/user/entities/user.py:248-281 | a new name and address are stored; a different address starts unverified and the same one keeps its verification |
| UserEffects.AddressIsConfirmedOnce | src/domain/user/entities/user.py:170-182 | a changed address is confirmed by exactly its own token, within a day, once |
| TwoFactorChallenge.CachedTwoFactorChallengeStore.Issue | src/infrastructure/two_factor_challenge_store.py:59-67 | the challenge is written under its token for 300 s |
| TwoFactorChallenge.IssuedComesBack | src/infrastructure/two_factor_challenge_store.py:19-78 | what is issued is read back for exactly 300 s, with its device cut down to agent and address; it is the same challenge exactly when there was no more to the device |
| TwoFactorChallenge.FailureComesBack | src/infrastructure/two_factor_challenge_store.py:80-90 | a counted failure is read back as one attempt more for exactly another 300 s, for the same user, device and login; at the fifth nothing is |
| TwoFactorChallenge.ReadingDiscardsTheUnreadable | src/infrastructure/two_factor_challenge_store.py:69-78 | a read answers with a live entry that parses, removes one that does not, and touches no other |
| TwoFactorChallenge.CachedTwoFactorChallengeStore.Read | src/infrastructure/two_factor_challenge_store.py:69-78 | the live challenge, or none; an unreadable entry is discarded |
| TwoFactorChallenge.CachedTwoFactorChallengeStore.RecordFailure | src/infrastructure/two_factor_challenge_store.py:80-90 | one more attempt with a fresh time to live, or discarded at the fifth |
| TwoFactorChallenge.CachedTwoFactorChallengeStore.Discard | src/infrastructure/two_factor_challenge_store.py:92-93 | the token's entry is gone |
| TwoFactorChallenge.UsedCodeRegistry.WasUsed | src/application/user/replay_guard.py:28-29 | whether the user's code is still remembered |
| TwoFactorChallenge.UsedCodeRegistry.Remember | src/application/user/replay_guard.py:31-32 | the user's code is remembered for 120 s |
| TwoFactorChallenge.WindowsAreDisjoint | src/infrastructure/two_factor.py:20-21 | two verifications at least 90 s apart share no accepted counter |
| TwoFactorChallenge.LifeOfACode | src/infrastructure/two_factor.py:20-21 | the code of a counter is good exactly from thirty seconds before its time step to thirty seconds after it |
| CompleteTwoFactor.CompleteTwoFactorUseCase.Call | src/application/user/commands/complete_two_factor.py:55-95 | the use case, with its early exits and database failures, does to cache and users exactly what the pure step of the run theorems says |
| CompleteTwoFactor.SessionStartsExactlyWhen | src/application/user/commands/complete_two_factor.py:55-95 | for every cache, user table and clock, a session starts if and only if a live challenge is there, its account exists and is neither deleted nor locked, the code is not remembered and is the authenticator's or a backup code, and the database works; then for the challenge's own user, device and login |
| CompleteTwoFactor.OnlyTheSpentCodeIsLost | src/application/user/commands/complete_two_factor.py:68-77 | users change only when a backup code started the session, and then only that user by that code |
| CompleteTwoFactor.SpentCodeAndChallenge | src/application/user/commands/complete_two_factor.py:58-82 | after a session starts its challenge is gone and its code is remembered for exactly 120 s; a failure is counted if and only if the account is open and the code is spent or wrong |
| CompleteTwoFactor.SessionsAreRecorded | src/application/user/commands/complete_two_factor.py:55-95 | the acceptances the run theorems speak of include one for every session started, and none for a refusal |
| CompleteTwoFactor.CompletionEffect | src/application/user/commands/complete_two_factor.py:55-95 | a call counts a failure, or accepts an unused code that verified and remembers it, or at most closes the challenge: never two of these |
| CompleteTwoFactor.CounterAcceptedOnce | src/application/user/commands/complete_two_factor.py:63-79 | in any serial run and for any code generator, no time-step counter of a secret is the reason for two acceptances for a user |
| CompleteTwoFactor.ChallengeIsSpentOnce | src/infrastructure/two_factor_challenge_store.py:59-93 | a challenge is accepted at most once and fails at most five times; after either end it is never readable again, and until then exactly for 300 s from its issue or latest counted failure, so never past five lifetimes plus the time its failures took to record |
| CompleteTwoFactor.LifeOutlastsItsIssueIffExtended | src/infrastructure/two_factor_challenge_store.py:80-90 | a challenge is readable 300 s after its issue if and only if it is open and a failure was counted on it later than its issue |
| CompleteTwoFactor.OnlyFailuresExtend | src/infrastructure/two_factor_challenge_store.py:80-90 | nothing but a counted failure of the challenge itself moves its expiry |
| CompleteTwoFactor.ReadableAfterThreeHundredSeconds | src/infrastructure/two_factor_challenge_store.py:80-90 | for any user with two factors and any code that is wrong at 299 s: issued at zero, failed at 299 s, readable at 400 s |
| CompleteTwoFactor.RunKeepsInv | src/application/user/commands/complete_two_factor.py:55-95 | the invariant behind both, over every run of issues, completions and other users' changes |
| Outbox.OutboxRepository.GetUnprocessed | src/infrastructure/db/sqlalchemy/repositories/outbox.py:34-50 | a claim is exactly the oldest due, unlocked, pending rows in order, up to the limit |
| Outbox.ClaimIsOldestFirst | src/infrastructure/db/sqlalchemy/repositories/outbox.py:34-50 | the claim told by columns: pending, due, free rows in order of creation and id, and whatever is left behind comes later |
| Outbox.OutboxRepository.MarkProcessed | src/infrastructure/db/sqlalchemy/repositories/outbox.py:52-62 | each event is marked, its sensitive keys removed and its error cleared; other rows are untouched |
| Outbox.OutboxRepository.Reschedule | src/infrastructure/db/sqlalchemy/repositories/outbox.py:64-72 | the attempt is charged and the event backs off, to become due exactly 2, 4, 8, 16, 32, 64 or 128 seconds later, or is dead-lettered at the eighth |
| Outbox.FailureBacksOff | src/infrastructure/db/sqlalchemy/repositories/outbox.py:11-23 | after the n-th failure, n below eight, the event is due at a moment if and only if two to the n seconds have passed |
| Outbox.LastFailureIsFinal | src/infrastructure/db/sqlalchemy/repositories/outbox.py:64-72 | the eighth failure makes the row dead from that moment, and due at none |
| Outbox.FailureIsRecorded | src/infrastructure/db/sqlalchemy/repositories/outbox.py:64-72 | a failed row keeps the first two thousand characters of the error and everything of the event |
| Outbox.ProcessingIsRecorded | src/infrastructure/db/sqlalchemy/repositories/outbox.py:52-62 | a processed row has lost its error and exactly its sensitive fields |
| Outbox.OutboxRepository.Replay | src/infrastructure/db/sqlalchemy/repositories/outbox.py:83-91 | each listed dead letter is due at every moment with all its attempts ahead and nothing else about it changed, no other row changes, and the count is theirs |
| Outbox.OutboxRepository.DeleteProcessedOlderThan | src/infrastructure/db/sqlalchemy/repositories/outbox.py:93-99 | a row stays if and only if it was not processed before the cutoff, and the count is of those that go |
| Outbox.EventPublisher.PublishOutbox | src/infrastructure/queue/event_publisher.py:82-95 | each event is published on its own: the ones that got through, in order, and a failure for each of the others |
| Outbox.WirePayload | src/infrastructure/queue/event_publisher.py:98-117 | the message carries every field, the sensitive ones redacted |
| OutboxWorker.ProcessBatch | src/infrastructure/queue/outbox_worker.py:111-132 | one batch claims, publishes, marks what got through and reschedules what did not with the broker's own answer, each event at its own clock reading, and leaves every other row alone |
| OutboxWorker.BatchIsARun | src/infrastructure/queue/outbox_worker.py:111-132 | a batch that runs to its end is a legal run of the machine and leaves rows and broker as the worker's code does |
| OutboxWorker.IndexIsComplete | src/infrastructure/queue/outbox_worker.py:119-123 | the error index holds exactly the events the broker refused, with their errors |
| OutboxWorker.Start | src/infrastructure/queue/outbox_worker.py:78-103 | the wait after each batch, in poll intervals, from the failures in a row up to it |
| OutboxWorker.PollingBacksOff | src/infrastructure/queue/outbox_worker.py:85-99 | the wait doubles with each failure in a row, is thirty intervals exactly from the fifth on, and drops back after one success |
| OutboxMachine.StepKeepsInv | src/infrastructure/db/sqlalchemy/repositories/outbox.py:34-99 | every commit, claim, publish, finish, crash, replay and prune keeps the invariant: disjoint batches, charged attempts, every event and delivery accounted for |
| OutboxMachine.StepKeepsDisjoint | src/infrastructure/db/sqlalchemy/repositories/outbox.py:34-50 | no row is ever held by two workers |
| OutboxSafety.NothingIsLost | src/infrastructure/queue/outbox_worker.py:111-132 | in every run every committed event is pending, or dead-lettered after eight attempts, or delivered at least once |
| OutboxSafety.DeliveriesAreConserved | src/infrastructure/queue/outbox_worker.py:111-132 | the deliveries of an event equal those lost to crashes, plus one if in flight, plus one if done |
| OutboxSafety.AtMostOnceWithoutCrashes | src/infrastructure/queue/outbox_worker.py:111-132 | without crashes each event reaches the broker at most once |
| OutboxSafety.OnlyProcessedRowsAreDeleted | src/infrastructure/db/sqlalchemy/repositories/outbox.py:93-99 | if a row is gone after any run, some step of the run pruned it, and it had been processed before that step's cutoff |
| OutboxSafety.BatchMakesProgress | src/infrastructure/db/sqlalchemy/repositories/outbox.py:52-72 | finishing a batch settles or charges every event in it, sets `failed_at` exactly at the eighth attempt, and touches no other row |
| OutboxSafety.RetriesComeOnTime | src/infrastructure/db/sqlalchemy/repositories/outbox.py:34-72 | over every run in which nobody claims it meanwhile, an event whose publish failed for the n-th time, n below eight, can be claimed at a moment if and only if two to the n seconds have passed since it was rescheduled |
| OutboxSafety.MeasureFalls | src/infrastructure/db/sqlalchemy/repositories/outbox.py:52-72 | the sum of eight less the attempts over pending rows falls with every completed batch that has an event, and only a commit or a replay raises it |
| OutboxSafety.BatchesAreBounded | src/infrastructure/queue/outbox_worker.py:111-132 | without replays, crashes or not, at most eight completed batches for each event |
| OutboxSafety.RetriesAreBounded | src/infrastructure/db/sqlalchemy/repositories/outbox.py:64-72 | without crashes and replays no event is published more than eight times, so n events take at most 8n attempts |
| OutboxSafety.AttemptsAreAccountedFor | src/infrastructure/db/sqlalchemy/repositories/outbox.py:64-91 | in every run the attempts on an event exceed eight only by those crashes wasted and eight for each replay |
| OutboxSafety.PastIsWhatHappened | src/infrastructure/queue/outbox_worker.py:111-132 | the attempts, losses, wasted attempts and replays the other theorems count are the publish, crash and replay steps of the run |
| OutboxSafety.BackoffsInFull | src/infrastructure/db/sqlalchemy/repositories/outbox.py:11-23 | the backoffs double from two seconds and the 300 s cap never binds for a reachable attempt count |
| OutboxSafety.DeadLetterTakesItsTime | src/infrastructure/db/sqlalchemy/repositories/outbox.py:45-72 | a dead-lettered event failed for the eighth time, and some step of the run rescheduled it, still without an attempt charged, at least 254 s before |
| OutboxSafety.SecretsAreContained | src/infrastructure/queue/event_publisher.py:98-117 | every message carries its event's type, aggregate, time and payload with exactly the sensitive fields redacted, and every processed row has lost exactly those |
| OutboxSecrecy.SecretsDoNotInterfere | src/infrastructure/queue/event_publisher.py:98-117 | two histories that differ only in sensitive values run in step through retries, crashes, replays and pruning, and the broker sees the same messages |
| Sessions.RevocationCoversEveryToken | src/infrastructure/db/sqlalchemy/repositories/session.py:173-203 | loading a session, revoking it and storing it leaves no token of it unrevoked and touches nothing else |
| Sessions.RotationIsStored | src/infrastructure/db/sqlalchemy/repositories/session.py:173-203 | storing a rotated session retires the presented token, adds the new one and moves the session's end, or fails on a taken hash; nothing else changes |
| Sessions.RevokingOthersKeepsLoaded | src/application/user/services.py:229-235 | an aggregate loaded before other sessions were revoked is still what the tables hold |
| Sessions.SessionRepository.Add | src/infrastructure/db/sqlalchemy/repositories/session.py:141-170 | the session row and its token rows are inserted, or a unique hash is violated |
| Sessions.SessionRepository.Update | src/infrastructure/db/sqlalchemy/repositories/session.py:173-203 | the two columns of the session and an upsert of each token, or a unique hash is violated |
| Sessions.SessionRepository.AcquireBySessionId | src/infrastructure/db/sqlalchemy/repositories/session.py:86-103 | the session with each of its tokens exactly once, revoked or not |
| Sessions.SessionRepository.RefreshTokensFor | src/infrastructure/db/sqlalchemy/repositories/session.py:127-138 | one pass over the rows of a batch, in any order, groups exactly each session's tokens |
| Sessions.SessionRepository.AcquireByUserId | src/infrastructure/db/sqlalchemy/repositories/session.py:106-125 | the user's unrevoked sessions, each once, with all their tokens |
| Sessions.SessionRepository.AcquireByTokenHash | src/infrastructure/db/sqlalchemy/repositories/session.py:233-267 | the session of the live token with this hash; revoked tokens and sessions are not found |
| SessionService.UserService.StartSession | src/application/user/services.py:137-165 | exactly one session row of 30 days and one token row of 7 are added, for the given user and device, unless the token's hash is taken |
| SessionService.UserService.RefreshSession | src/application/user/services.py:167-218 | each outcome of a refresh under its exact condition; on success the presented token is revoked, the new one of 7 days stands beside it, the session ends 30 days later, and nothing else changes |
| SessionService.UserService.RefreshTokenUseCase | src/application/user/commands/refresh_token.py:33-42 | only a successful exchange is committed; every other outcome leaves the committed tables as they were |
| SessionService.UserService.RevokeSession | src/application/user/services.py:220-227 | the session and all its tokens are revoked exactly when it belongs to the user |
| SessionService.UserService.RevokeAllSessions | src/application/user/services.py:229-235 | the loop over aggregates loaded beforehand revokes exactly the user's live sessions and all their tokens |
| SessionService.UserService.ChangePasswordUseCase | src/application/user/services.py:291-306 | accepted exactly for a user who is there, not deleted and knows the old password; then the new hash is stored, no reset token is good any more, every session is revoked and no other user changes; otherwise nothing changes |
| SessionService.UserService.ResetPasswordUseCase | src/application/user/services.py:269-289 | the owner is a user who holds the presented token's hash; accepted exactly when that token is still valid, with the same effect, so the token is refused from then on |
| SessionService.UserService.DeleteMeUseCase | src/application/user/services.py:308-320 | deletion marks the user with the moment, changes nothing else of any user, and revokes every session, unless the user was deleted before |
| SessionService.ReuseIsReportedOnlyForExpiredTokens | src/application/user/services.py:167-193 | reuse is reported if and only if the presented token is live but expired inside a session that is not; a revoked token is simply not found, and no refused refresh changes the tables |
| SessionService.EachAnswerHasItsReason | src/application/user/services.py:167-218 | the exact condition of each answer to a live token: over, expired, unknown user, locked user, taken hash, exchanged |
| SessionService.UnknownTokensAreRefused | src/application/user/services.py:167-175 | a hash without a live token gets invalid credentials, whatever else is true |
| SessionService.AllIsRevoked | src/application/user/services.py:229-235 | signing out everywhere sets one flag on exactly the user's live sessions and their tokens and changes nothing else |
| SessionService.FindsThePresented | src/domain/user/entities/session.py:106-114 | the search by hash in the loaded aggregate finds the token it was loaded by |
| SessionRuns.ChangePasswordIsAStep | src/application/user/services.py:291-306 | what the change of a password commits, to the tables and to the user, is one step of the machine, for every user and every answer of the comparison |
| SessionRuns.ResetPasswordIsAStep | src/application/user/services.py:269-289 | the same for an accepted password reset |
| SessionRuns.DeleteMeIsAStep | src/application/user/services.py:308-320 | the same for the deletion of a user |
| SessionRuns.WriteIsAStep | src/infrastructure/db/sqlalchemy/repositories/user.py:163-266 | any other committed change of a user is, for sessions, one change of the user's lock |
| SessionRuns.StepKeepsInv | src/application/user/services.py:137-235 | every operation keeps the invariant on tokens, sessions, users and exchanged hashes |
| SessionRuns.OneLiveTokenPerSession | src/application/user/services.py:137-218 | in every serial run a session has at most one unrevoked token, revoked sessions and deleted users have none, and none outlives its session |
| SessionRuns.SessionsStartExactlyFor | src/application/user/services.py:137-165 | a session starts if and only if the user is there, not deleted and not locked at that moment |
| SessionRuns.ExchangedOnce | src/application/user/services.py:167-218 | each refresh token is exchanged at most once, and presenting it again is refused and changes nothing |
| SessionRuns.RetiredForever | src/infrastructure/db/sqlalchemy/repositories/session.py:186-201 | revocation is monotone: a token without an unrevoked row never has one again and is never exchanged |
| SessionRuns.NoTokenSurvives | src/application/user/services.py:229-320 | after a committed password change, reset, sign-out everywhere or deletion, no token issued to that user before is exchanged in any later run |
| SessionRuns.OnlyThatUserIsShutOut | src/application/user/services.py:229-235 | shutting a user out takes exactly that user's live tokens |
| SessionRuns.EndedOrNot | src/application/user/services.py:167-320 | a step either leaves a live token and its session as they were or retires it for good, and it retires it exactly by exchanging it, revoking its session, shutting its user out or removing its session |
| SessionRuns.FreshTokenIsExchangeable | src/application/user/services.py:137-218 | every token handed out, by a new session or by a refresh, is exchanged after any later run if and only if no step of the run ended it, neither its 7 days nor its session's 30 are over, and its user is not locked |
| Rbac.SyncIsExact | src/infrastructure/db/sqlalchemy/repositories/rbac.py:189-241 | after a role is stored it holds exactly the names it mentions, and every other role exactly what it held |
| Rbac.SyncKeepsConstraints | src/infrastructure/db/sqlalchemy/repositories/rbac.py:189-241 | storing a role keeps names unique and links whole |
| Rbac.SyncingLinks | src/infrastructure/db/sqlalchemy/repositories/rbac.py:223-239 | removing what is no longer wanted and inserting what is new makes the links exactly the wanted ones |
| Rbac.ExceptMentions | src/domain/user/entities/rbac.py:76-83 | removing a permission removes every copy of the name and no other name |
| Rbac.ShownPermissionsAreGranted | src/application/user/rbac_service.py:129-132 | a user holds a permission exactly when a role shown for the user lists it |
| Rbac.ViewSaysItsRole | src/infrastructure/db/sqlalchemy/repositories/rbac.py:96-112 | what is shown of a role is its row and exactly the names it holds |
| RbacService.RbacRepository.UpdateRole | src/infrastructure/db/sqlalchemy/repositories/rbac.py:189-241 | the whole new state of the tables after the sync, or nothing when another role has the name |
| RbacService.RbacRepository.EnsurePermission | src/infrastructure/db/sqlalchemy/repositories/rbac.py:209-221 | the id that carries the name, with a row inserted only when there was none |
| RbacService.RbacRepository.DeleteRole | src/infrastructure/db/sqlalchemy/repositories/rbac.py:244-253 | the role, its links and its assignments go, and nothing else |
| RbacService.RbacRepository.AcquireRole | src/infrastructure/db/sqlalchemy/repositories/rbac.py:96-112 | the role's row, with exactly the names it holds |
| RbacService.RBACService.GetUserRoles | src/application/user/rbac_service.py:120-127 | the per-role loop returns each assigned role once with exactly its permissions |
| RbacService.RBACService.HasPermission | src/application/user/rbac_service.py:129-132 | true exactly when some assigned role carries the permission |
| RbacService.GroupRows | src/infrastructure/db/sqlalchemy/repositories/readers.py:178-202 | one pass over joined rows gives each role once with its names in row order; roles come out in the order of names when rows do |
| RbacService.GroupedRowsShowTheRoles | src/infrastructure/db/sqlalchemy/repositories/readers.py:152-202 | for every state of the tables and every order of the joined rows, the groups are exactly the assigned roles with exactly their permissions, including roles with none |
| RbacService.NoNameTwice | src/infrastructure/db/sqlalchemy/repositories/readers.py:152-202 | no permission is listed twice for a role |
| RbacService.ReadUserRoles | src/infrastructure/db/sqlalchemy/repositories/readers.py:137-147 | the reader's answer for a user, complete, without repeats and in order of name |
| RbacService.JoinAgreesWithLoop | src/infrastructure/db/sqlalchemy/repositories/readers.py:152-202 | for every state of the tables and every order of rows, grouping the join and loading role after role give the same roles with the same permissions and the same answer to every permission check |
| RbacService.CheckPermission | src/application/user/queries/rbac.py:24-26 | true exactly when some assigned role carries the permission, hence always as `has_permission` |
| RbacService.RBACService.CreateRole | src/application/user/rbac_service.py:40-52 | outcome and tables of the step, for every input |
| RbacService.RBACService.DeleteRole | src/application/user/rbac_service.py:54-67 | outcome and tables of the step; the admin role is refused |
| RbacService.RBACService.AssignRole | src/application/user/rbac_service.py:69-96 | outcome and tables of the step; a second assignment changes nothing |
| RbacService.RBACService.RevokeRole | src/application/user/rbac_service.py:98-118 | outcome and tables of the step; the admin role is refused |
| RbacService.RBACService.AddPermissionToRole | src/application/user/rbac_service.py:138-155 | loading, changing and storing the whole role amounts to one permission and one link |
| RbacService.RBACService.RemovePermissionFromRole | src/application/user/rbac_service.py:157-169 | loading, changing and storing the whole role amounts to one link removed |
| RbacRuns.AddingStoresOneLink | src/application/user/rbac_service.py:152-153 | the sync of a loaded role with one permission added changes one link |
| RbacRuns.RemovingStoresOneLinkLess | src/application/user/rbac_service.py:166-167 | the sync of a loaded role with one permission removed changes one link |
| RbacRuns.RunKeepsConstraints | src/application/user/rbac_service.py:40-169 | over any run permission and role names stay unique and no link or assignment dangles |
| RbacRuns.AdminPersists | src/application/user/rbac_service.py:54-118 | over any run the admin role keeps its row and everyone assigned to it stays assigned |
| RbacRuns.AuthorizationChangesExactly | src/application/user/rbac_service.py:40-169 | each operation changes who may do what exactly as its name says, for every user, role and permission at once, and a refused one changes nothing |
| RbacRuns.EachOutcomeHasItsReason | src/application/user/rbac_service.py:40-169 | each error has its one condition, so an operation goes through whenever none of them holds |
| RbacRuns.OperationsTakeEffect | src/application/user/rbac_service.py:40-169 | what an operation is for holds after it if and only if it went through or held before |
| RbacRuns.OperationsTouchNoMore | src/application/user/rbac_service.py:40-169 | every other user, role, assignment, permission and link stays |
| UnitOfWork.Aggregate.With | src/domain/common/event_dispatcher.py:29-39 | a copy is a new object with the same identity and the same unpulled events |
| UnitOfWork.Aggregate.PullEvents | src/domain/common/event_dispatcher.py:21-24 | the events are handed over and the list is emptied |
| UnitOfWork.SameCollection | src/infrastructure/db/memory/uow.py:26-38 | the identity-based and the equality-based units of work collect the same sequence if and only if every object the latter drops has no events left |
| UnitOfWork.RegisteringTwoVersions | src/infrastructure/db/sqlalchemy/uow.py:28-44 | with both an old version and its copy registered, one unit of work repeats the old events and the other loses the new ones |
| UnitOfWork.SQLAlchemyUoW.RegisterAll | src/infrastructure/db/sqlalchemy/uow.py:28-32 | registering in sequence tracks each object once, by reference |
| UnitOfWork.SQLAlchemyUoW.Drain | src/infrastructure/db/sqlalchemy/uow.py:38-44 | everything pending and tracked is collected in order, once, and nothing is left |
| UnitOfWork.SQLAlchemyUoW.Commit | src/infrastructure/db/sqlalchemy/uow.py:47-64 | one row for each collected event in order, each with the event's type, aggregate, payload and sensitive fields under its own clock reading, or none at all when a handler or the database raises |
| UnitOfWork.WrittenRowsAreNew | src/infrastructure/db/sqlalchemy/uow.py:89-103 | a written row says exactly what its event says, has no history and is due at once |
| UnitOfWork.CommitIsAStep | src/infrastructure/db/sqlalchemy/uow.py:47-103 | what a unit of work commits is one step of the outbox in any state of it: each event's row is new and pending with its sensitive fields marked, and no other row changes |
| UnitOfWork.SQLAlchemyUoW.Rollback | src/infrastructure/db/sqlalchemy/uow.py:67-71 | no row is written and no event is left behind |
| UnitOfWork.InMemoryUoW.RegisterAll | src/infrastructure/db/memory/uow.py:26-28 | registering in sequence tracks one object for each identity |
| UnitOfWork.InMemoryUoW.Commit | src/infrastructure/db/memory/uow.py:34-45 | the collected events are kept in order and no aggregate has any left |
| EventLineage.EventsAreConserved | src/domain/common/event_dispatcher.py:18-39 | when only the newest version of each lineage is registered, every recorded event is collected exactly once, each lineage's events in the order they were recorded |
| EventLineage.UnitsOfWorkAgree | src/infrastructure/db/memory/uow.py:26-45 | for the objects behind the versions, the identity-based unit of work collects what the versions hold, and the equality-based one the same sequence when only newest versions are registered and no entity was loaded twice |
| EventLineage.Transaction | src/infrastructure/db/sqlalchemy/uow.py:28-71 | a transaction on real objects: the outbox gains one row for each event handed over directly and then one for each recorded event of every lineage, in order, or none when something raises |
| EventLineage.PerformKeepsInv | src/domain/common/event_dispatcher.py:18-39 | however often versions are copied, the newest of a lineage holds all its events in order |
| EventDelivery.EventsArriveAsRecorded | src/infrastructure/queue/event_publisher.py:82-117 | in every later state of the outbox, each message under a committed event's id carries that event's type, aggregate, time and every field that is not sensitive, and there is one as soon as the row is processed |

## Left out

- HTTP controllers, middleware, templates, wiring, settings, logging and metrics: they hold no state of their own.
- Hydra, SMTP, RabbitMQ connections and the email step of the worker: network calls whose failures are swallowed, so nothing is claimed about emails.
- Concurrency of challenge, used-code, session and role writes: the code gives none of them a version or a lock.
- Maintenance jobs other than outbox pruning and the deletion of expired sessions: single bulk statements. Anonymised rows fall outside the user value objects.
- Value-object patterns, audit mapping, pagination, the idempotency store and AMQP consumers: they would add only easy members.
- Domain events of sessions, roles and users are not followed into the session and role tables; `UnitOfWork` and `EventLineage` treat events for any aggregate.
- RateLimiter.Sweep: does not fix which of two keys with equal lists is evicted first, because no claim depends on it.
- RedisRateLimiter.CheckLimit: takes the rounding of a remaining time to whole seconds as any function that is never more than half a second off.
- RedisRateLimiter.CounterStore.Increment: does not model a crash between `INCR` and the first `EXPIRE`, which are one step here.
- CompleteTwoFactor.ChallengeIsSpentOnce: bounds the last acceptance by five lifetimes plus the time between reading the challenge and rewriting it, because the code reads the clock twice; the expiry itself is exact.
- SessionRuns.OneLiveTokenPerSession: takes starting a session to be quicker than the 23 days between the two lifetimes; beyond that a first token would outlive its session.
- SessionService.UserService.ChangePasswordUseCase: takes the comparison of a password with its hash as an arbitrary function.
- RbacService.RBACService.CreateRole: inserts roles without permissions, the only ones the service creates; the repository could insert permissions with them.
- RbacService.GroupRows: takes the order of role names as any relation the rows already follow, because collation is the database's.
- EventLineage.EventsAreConserved: assumes that only the newest version of a lineage is copied or recorded on, which is how every entity method uses them.
