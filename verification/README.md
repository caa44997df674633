# Verified core of an IM backend

The backend is written in Go. Its service layer is small, but six stateful algorithms are present in
full, and this project models them and proves what they promise.

| component | source | files |
|---|---|---|
| elastic goroutine pool | `pool/goroutine_pool.go` | `PoolModel`, `PoolInvariant`, `PoolTheorems`, `PoolShutdown`, `PoolRace`, `PoolLimit`, `PoolMetrics`, `GoroutinePool`, `Sums` |
| Redis lease lock | `utils/redis/lock.go` | `LeaseModel`, `LeaseTheorems`, `LeaseWatchdog`, `LeaseRenewers`, `LeaseCalls`, `RedisLock` |
| protected cache read | `utils/redis/cache.go` | `CacheModel`, `CacheTheorems`, `CacheCalls`, `ProtectedCache` |
| Snowflake generator | `utils/snowflake/snowflake.go` | `Bits`, `SnowflakeModel`, `SnowflakeTheorems`, `SnowflakeOrder`, `Snowflake` |
| per-IP rate limiter | `utils/ratelimit/ratelimit.go` | `LimiterModel`, `LimiterTheorems`, `LimiterWindow`, `LimiterExcess`, `LimiterCrowd`, `LimiterAtomic`, `RateLimiter` |
| registration under a shard lock | `service/user/user_service.go`, `utils/sync/shard_lock.go`, `utils/redis/redis.go` | `UserKeys`, `RegisterModel`, `RegisterTheorems`, `RegisterCalls`, `ShardLock`, `UserService` |

`Wrappers` holds the one `Option` type. `dafny verify dfyconfig.toml` checks everything.

## How the model is built

A component whose goroutines interleave has a `...Model` file: a `datatype` for the shared state with the
program counter of every goroutine, and `Enabled` and `Apply`, which give one step to each atomic action
of the code (an atomic load, a compare-and-swap, a channel operation, a Redis command, a lock, a query).
A run is a sequence of steps, so a statement about all runs covers any number of goroutines and any
scheduling. Time, failures and lost answers are steps or parameters of steps. Some fields only record
history (the order of acceptance, which nonce was drawn by whom, ...); the code does not have them and no
step looks at them to decide anything.

Beside the models stand classes with the source's fields and methods. Those of the pool perform the
atomic actions of the model one at a time, with the other goroutines let loose between any two of them
(`env` lists what the scheduler tries in each gap); the theorems about runs are what their `ensures`
rest on. The other classes are run by one caller and are tied to the functions the step systems use.

## Where the code falls short of its promise

The failures below are proved by concrete runs or inputs; beside them stands the condition under which the
promise does hold.

- `Submit` can race `Close`: the stopped check and the sends are separate, so a call that has passed the
  check can panic on the closed channel although `Close` returns nil, which says that no task is lost
  (`PoolRace.SubmitCanRaceClose`). Exactly the calls for which a run to such a panic exists:
  `PoolRace.PanicExactly`. Exactly when a shutdown is free of panics: `PoolRace.ShutdownPanicsExactly`.
- The worker limit is stored in an int32, so a configured limit of 2^31 or more becomes another number. A
  pool can grow to its limit exactly when the limit is smaller (`PoolLimit.LimitReachedExactly`).
- `TryLock` on a handle that already holds the lock fails but overwrites the handle's nonce; the `Unlock`
  that follows reports an expired lock and the key stays until its deadline
  (`LeaseTheorems.RetryOrphansLock`). Exactly when an unlock frees its own lock:
  `LeaseTheorems.UnlockReleasesExactly`.
- The comment in `Unlock` says that renewal is stopped first; the `defer` runs after the script. The model
  follows the code.
- Without timely renewals two holders overlap: `LeaseTheorems.LateHoldersOverlap` is a run from the start,
  `LeaseTheorems.UntimelyHolderOverlaps` extends any run with a holder. Exactly when a nonce owns the key:
  `LeaseTheorems.OwnsExactlyWhenTimely`.
- A stored value `<NIL>` is read back as empty (`CacheTheorems.SentinelIsLost`, exact condition
  `CacheTheorems.TransparentExactly`).
- The sign bit of an ID is not forced to zero: after 2^41 milliseconds IDs turn negative
  (`SnowflakeTheorems.EraEnds`, exact condition `SnowflakeTheorems.NonNegativeExactly`). A rollback of
  exactly five milliseconds is still tolerated, where the comment says less than five. IDs stay unique
  within any 2^42 milliseconds, and no longer (`SnowflakeTheorems.UniqueExactly`), and increase exactly
  while the signed stamp does not turn (`SnowflakeOrder.IncreasesExactly`).
- Eviction is not always invisible. A single removal can show in a later answer exactly when the bucket
  that goes is not full or a call holds it (`LimiterTheorems.RemovalShowsExactly`). The code comes to such
  a removal in three ways: a call holds the entry while it is deleted
  (`LimiterTheorems.RemovalUnderCallShows`); the entry is found expired, then used by calls that come and
  go, and only then deleted (`LimiterTheorems.RemovalAfterUseShows`); or the bucket was used more than 598 s
  and 1 ns after `lastSeen` was written (`LimiterTheorems.LateTakesShow`). If the entry is still expired and
  not held when it is deleted, that delay is the exact bound (`LimiterTheorems.SlackIsExact`). The same
  removals, and no others, let a window admit more than its bound (`LimiterExcess.BoundBreaksExactly`); what
  holds even then is `LimiterCrowd.CrowdBound`. With whole calls and whole tests nothing shows
  (`LimiterAtomic.TracesAreInvisible`).
- The flight tables live in one process, Redis is shared. Loads of a key are a TTL apart exactly in
  deployments of at most one process (`CacheTheorems.SpacedExactly`); values stay right in any number.
- A generator that is started anew forgets its last stamp (`SnowflakeOrder.RestartExactly`).
- The shard mutexes live in one process. Any two processes can both find an email free, and only the unique
  column stops the second row (`RegisterTheorems.TwoProcessesClash`). No Create is attempted for a stored
  email exactly in deployments of at most one process (`RegisterTheorems.NoClashExactly`).
- The panic of a submit to a closing pool leaves `Register` without a response after the row was stored
  (`UserServiceCode.UserService.Register`, code `UNWOUND`).

## Model

| member | source | states |
|---|---|---|
| GoroutinePoolCode.GoroutinePool.Submit | pool/goroutine_pool.go:182-252 | the log grows by legal steps only; ErrNilTask exactly for a nil task; ErrPoolStopped only, and on a stopped pool always, with the flag set; nil exactly when the task is among those accepted; ErrPoolFull only with the channel full, after two refused sends or three with a worker started; a panic only on a closed channel |
| GoroutinePoolCode.GoroutinePool.SubmitWithRetry | pool/goroutine_pool.go:311-351 | between 1 and max(0, retryTimes)+1 new calls of Submit, one after the other, every one but the last full and not accepted; the last accepted exactly if nil is returned; ErrNilTask exactly for a nil task; ErrPoolStopped for any other on a stopped pool; ErrPoolFull only after all attempts |
| GoroutinePoolCode.GoroutinePool.Close | pool/goroutine_pool.go:268-308 | refused exactly if another call has won the swap; otherwise nil exactly if the waiter has returned before the scheduler's list is exhausted, and a timeout otherwise; nil only with an empty channel and every accepted task completed exactly once |
| GoroutinePoolCode.GoroutinePool.AwaitDrain | pool/goroutine_pool.go:294-307 | waits, gap by gap, until the waiter has returned or the timer fires; nil exactly in the first case |
| GoroutinePoolCode.GoroutinePool.Interfere | pool/goroutine_pool.go:182-308 | between two actions the others take exactly the possible steps of the gap, and leave the caller where it is |
| PoolInvariant.InvRun | pool/goroutine_pool.go:97-308 | every run of atomic actions of submitters, workers and closers keeps counter accounting, staffing, FIFO order, custody of tasks, the metrics, closing and the growth history |
| PoolInvariant.IdleWhenGroupIsZero | pool/goroutine_pool.go:97-152 | the WaitGroup reaches zero only when the channel is closed and empty, every worker is gone and nobody holds a task |
| PoolTheorems.GracefulDrain | pool/goroutine_pool.go:182-308 | if some Close returned nil, then in every interleaving each task whose Submit returned nil has been through runTask exactly once and no other task has |
| PoolTheorems.AtMostOnce | pool/goroutine_pool.go:160-252 | at any moment an accepted task is in exactly one of: the queue, one worker's hands, the completed tasks; a task not accepted is nowhere |
| PoolTheorems.TaskConservation | pool/goroutine_pool.go:160-252 | submitted = accepted + rejected + lost + in flight; accepted = queued + held + completed; panics ≤ completed ≤ submitted; acceptance order = dequeue history followed by the queue, without duplicates |
| PoolMetrics.PanicsAreCounted | pool/goroutine_pool.go:160-174 | in every run from any state totalPanic, with the panics recovered and not yet counted, grows by exactly the number of tasks that panic |
| PoolMetrics.PanicsAtRest | pool/goroutine_pool.go:160-174 | with no worker between a panic and its count, totalPanic is the number of panics of the whole run |
| GoroutinePoolCode.RunEffect | pool/goroutine_pool.go:160-174 | when a task ends the worker knows whether it panicked |
| GoroutinePoolCode.TimerEffect | pool/goroutine_pool.go:146-149 | the idle timer fires in temporary workers only and makes them leave, whatever the channel holds |
| GoroutinePoolCode.AwaitEffect | pool/goroutine_pool.go:294-307 | Close may time out at any moment of its wait, and may return nil exactly if the waiter has returned |
| PoolTheorems.WorkerBounds | pool/goroutine_pool.go:69-73 | workerNum counts pending spawns and workers not signed off, wg the goroutines not yet done; running tasks ≤ workerNum ≤ maxWorkers, and workerNum ≥ coreWorkers until the channel is closed |
| PoolLimit.LimitReachedExactly | pool/goroutine_pool.go:55-63 | no reachable pool has more workers than the configured limit, and some reachable pool has as many if and only if the limit is below 2^31 |
| PoolTheorems.CasBounds | pool/goroutine_pool.go:222-243 | a Submit starts at most one worker, and its failed compare-and-swaps are paid for by writes of others to workerNum since it began |
| PoolTheorems.RejectionIsEarned | pool/goroutine_pool.go:208-251 | ErrPoolFull only after every send of the call met a full channel, and after it saw the worker limit or started a worker |
| PoolTheorems.ReturnedForGood | pool/goroutine_pool.go:182-252 | the outcome of a call never changes |
| PoolTheorems.LateCallsAreRefused | pool/goroutine_pool.go:188-190 | a call that begins after the stopped flag is never accepted, never panics and never starts a worker |
| PoolShutdown.StepSpends | pool/goroutine_pool.go:97-152 | once the channel is closed, every step of every thread strictly decreases a budget that covers queue, tasks, workers, late spawns and stale loads |
| PoolShutdown.ShutdownBound | pool/goroutine_pool.go:222-292 | the steps left after the channel is closed number at most the budget of that state plus three for each Submit or Close begun later, under every schedule |
| PoolShutdown.RestIsEmpty | pool/goroutine_pool.go:281-302 | when no step is left all workers are gone, both counters are zero, all calls have returned and every accepted task is completed |
| PoolShutdown.OpenRestIsEmpty | pool/goroutine_pool.go:97-104 | on an open pool, once no core worker can take a step, the channel is empty and every accepted task is completed once or held by a temporary worker |
| PoolRace.CloseOvertakesSubmit | pool/goroutine_pool.go:188-206 | a reachable state where Close has returned nil while a Submit is past the stopped check |
| PoolRace.SubmitCanRaceClose | pool/goroutine_pool.go:188-214 | a reachable state where that Submit has panicked and its task is lost |
| PoolRace.PastCheckEndsInPanic | pool/goroutine_pool.go:206-251 | on a closed channel a call past the stopped check can return only with a panic, under every schedule |
| PoolRace.PanicExactly | pool/goroutine_pool.go:188-281 | a panic of a call is still reachable if and only if the call has not returned and has passed, or can still pass, the stopped check |
| PoolRace.ShutdownPanicsExactly | pool/goroutine_pool.go:188-281 | once the flag is set, some continuation contains a send panic if and only if some call is past the stopped check and unreturned |
| GoroutinePoolCode.GoroutinePool.constructor | pool/goroutine_pool.go:60-75 | the loop that starts the core workers leads to the initial state of the step system |
| GoroutinePoolCode.GoroutinePool.NewPool | pool/goroutine_pool.go:54-58 | nil exactly for an invalid configuration |
| GoroutinePoolCode.GoroutinePool.Execute | pool/goroutine_pool.go:97-308 | every atomic action of Submit, of a worker and of Close, performed on the fields, is that step of the step system |
| GoroutinePoolCode.GoroutinePool.Grow | pool/goroutine_pool.go:222-243 | the loop leaves only for the last send or with the call settled as the channel bears out, and every failed swap is matched by a write of somebody else to workerNum |
| GoroutinePoolCode.GoroutinePool.SendTask | pool/goroutine_pool.go:208-251 | the three tiers end accepted with the task last in the channel, full with the channel full, or in a panic with the channel closed |
| LeaseTheorems.InvRun | utils/redis/lock.go:60-176 | the key invariant (owner, deadline, fresh nonces) in every history |
| LeaseTheorems.OwnershipTransitions | utils/redis/lock.go:71-172 | owner → free → owner only; only a SETNX with a new nonce takes the key, only its own nonce, its deadline or a server failure frees it, only its own renewal moves the deadline, never beyond expire |
| LeaseTheorems.NeverAgain | utils/redis/lock.go:62-76 | a nonce that lost the key never owns it again |
| LeaseTheorems.SuccessCertifies | utils/redis/lock.go:105-133 | a renewal or unlock script that answers 1 certifies unbroken ownership since the SETNX of its nonce, with no timing assumption |
| LeaseTheorems.UnlockNilCertifies | utils/redis/lock.go:145-176 | Unlock that returns nil deleted the key of its own unbroken lease |
| LeaseTheorems.OwnsExactlyWhenTimely | utils/redis/lock.go:71-141 | a nonce owns the key if and only if it took it, has not released it and each write of its deadline came less than expire after the one before |
| LeaseTheorems.TimedMutualExclusion | utils/redis/lock.go:71-163 | two handles that renew in time are never both between TryLock = true and the unlock script |
| LeaseWatchdog.WatchedExactly | utils/redis/lock.go:71-141 | a nonce is timely if and only if less than expire passes between one executed SETNX or renewal for it and the next, whatever they answer |
| LeaseWatchdog.WatchedExclusion | utils/redis/lock.go:95-163 | two handles whose watchdogs keep sending are never both between TryLock = true and the unlock script |
| LeaseTheorems.CrashFreesKey | utils/redis/lock.go:105-132 | a holder whose renewals stop has lost the key after expire |
| LeaseRenewers.OneRenewerPerLock | utils/redis/lock.go:82-87 | renewLock is started once for each TryLock that returns true, on its handle, and never otherwise |
| LeaseRenewers.WatchdogKeepsLock | utils/redis/lock.go:83-141 | from a TryLock about to return true, its watchdog and the clock alone can go on for any length of time with the nonce still owning the key |
| LeaseRenewers.StopsForGood | utils/redis/lock.go:124-139 | a watchdog that leaves on a done context, or whose renewal is not answered by 1, sends nothing more for the rest of the run |
| LeaseRenewers.UnlockStopsWatchdog | utils/redis/lock.go:151-175 | the context is cancelled after the script, whatever it answered, and a watchdog waiting on it can then leave |
| LeaseCalls.TryLockAnswers | utils/redis/lock.go:60-92 | a whole TryLock from any state: the answer, the key, the handle's fields and the watchdog, for every fate of the command |
| LeaseCalls.TryLockWithoutNonce | utils/redis/lock.go:62-66 | without a nonce TryLock fails and touches nothing |
| LeaseCalls.UnlockAnswers | utils/redis/lock.go:145-176 | a whole Unlock from any state: the answer, the key and the cancelled context, for every fate of the script |
| LeaseCalls.UnlockWithoutLock | utils/redis/lock.go:146-149 | a handle without a context has nothing to unlock |
| LeaseTheorems.LateHoldersOverlap | utils/redis/lock.go:71-86 | without timely renewals two handles hold the lock at once |
| LeaseTheorems.UntimelyHolderOverlaps | utils/redis/lock.go:71-141 | in every run with a holder, expire without a renewal lets a newcomer hold the lock, timely, beside it |
| LeaseTheorems.RetryOrphansLock | utils/redis/lock.go:68-91 | a second TryLock on a holding handle makes its Unlock fail and leaves the key locked |
| LeaseTheorems.UnlockReleasesExactly | utils/redis/lock.go:152-172 | an unlock script frees the lock its handle holds if and only if the handle still carries that nonce and it renewed in time |
| RedisLockCode.RedisServer.SetNX | utils/redis/lock.go:71-76 | writes exactly when the key is free |
| RedisLockCode.RedisServer.EvalRenew | utils/redis/lock.go:105-111 | moves the deadline exactly for the owner |
| RedisLockCode.RedisServer.EvalDelete | utils/redis/lock.go:155-161 | deletes exactly for the owner |
| RedisLockCode.RedisLock.TryLock | utils/redis/lock.go:60-92 | overwrites nonce and context even when it fails; true exactly if the key was free and the answer arrived, busy exactly if it was held and the answer arrived; the key is written under its nonce for the full expire exactly if it was free and the command was executed |
| RedisLockCode.RedisLock.Round | utils/redis/lock.go:114-140 | one turn of the select: what is sent, what becomes of the key, and whether the loop goes on |
| RedisLockCode.RedisLock.RenewLock | utils/redis/lock.go:95-142 | ends at the first done context or renewal not answered by 1 and sends nothing after it; counts its renewals; never changes the owner or touches a foreign key; with every tick in time and answered the key stays with the handle for any number of rounds; once another nonce is written over the handle's, nothing is renewed |
| RedisLockCode.RedisLock.Unlock | utils/redis/lock.go:145-176 | nil exactly when the script found the nonce and its answer arrived, an expired lock exactly when it did not find it and answered, an error otherwise; the context is cancelled whatever the script did |
| CacheTheorems.OneLeaderPerKey | utils/redis/cache.go:56-94 | at most one loader per key and process is at work, for any number of callers |
| CacheTheorems.LeaderCanGoOn | utils/redis/cache.go:56-94 | a call that joined a flight can return, or the flight's leader can take a step |
| CacheTheorems.JoinersShare | utils/redis/cache.go:56-100 | a call that joined a flight returns what the flight's leader returned |
| CacheTheorems.ErrorsAreLoaders | utils/redis/cache.go:66-69 | the loader's error is returned only where a loader of that key has failed |
| CacheTheorems.Transparent | utils/redis/cache.go:37-101 | in every run, with expiry, failed reads and writes and interleaving, a returned value is the loader's, for any loader value but the sentinel |
| CacheTheorems.SentinelIsLost | utils/redis/cache.go:42-45 | for a key whose value is the sentinel there is a run that returns the empty string |
| CacheTheorems.TransparentExactly | utils/redis/cache.go:38-46 | a key is read transparently in all runs if and only if its value is not the sentinel |
| CacheTheorems.LoadsAreSpaced | utils/redis/cache.go:56-93 | in one process successful loads of a key are at least the base TTL apart (60 s for an empty value), unless Redis failed on that key |
| CacheTheorems.OneLoadWithinTTL | utils/redis/cache.go:49-94 | in one process, before a TTL has passed there is at most one successful load per key, however many callers missed before the write |
| CacheTheorems.TwoProcessesLoad | utils/redis/cache.go:16-66 | any two processes can both miss and both run the loader for the same key |
| CacheTheorems.SpacedExactly | utils/redis/cache.go:16-93 | loads are that far apart in every run if and only if all calls run in at most one process |
| CacheCalls.HitIsImmediate | utils/redis/cache.go:39-47 | a hit is returned at once, the sentinel as empty, and nothing else happens |
| CacheCalls.MissTakesOff | utils/redis/cache.go:47-63 | a miss enters a flight and reads once more before it calls the loader |
| CacheCalls.LeaderAnswers | utils/redis/cache.go:66-100 | what the leader returns and stores, with which lifetime, for every outcome of loader and write |
| CacheCalls.Lifetimes | utils/redis/cache.go:19-93 | in every run no entry lives longer than 60 s if its value is empty, and than a base TTL and a tenth otherwise |
| ProtectedCacheCode.RedisCache.GetWithProtection | utils/redis/cache.go:37-101 | when the loader is called, what is returned, and what is stored with which lifetime, for every combination of failures; a running flight is joined and its outcome shared; other keys untouched |
| ProtectedCacheCode.RedisCache.RunFlight | utils/redis/cache.go:56-94 | the double check, the loader and the write inside the flight |
| Bits.OrDisjoint | utils/snowflake/snowflake.go:147-152 | OR of fields that do not overlap is their sum |
| Bits.AndMask | utils/snowflake/snowflake.go:53-54 | AND with k ones is the remainder by 2^k |
| SnowflakeTheorems.PackedWord | utils/snowflake/snowflake.go:150-152 | for every clock reading the 64-bit shift-and-OR word holds the three fields side by side, the timestamp modulo 2^42 |
| SnowflakeTheorems.NonNegativeExactly | utils/snowflake/snowflake.go:15-18 | an ID is non-negative if and only if the timestamp modulo 2^42 fits in 41 bits |
| SnowflakeTheorems.DecodeRoundTrip | utils/snowflake/snowflake.go:46-58 | shifting and masking an ID recovers timestamp, machine and sequence |
| SnowflakeTheorems.OneCall | utils/snowflake/snowflake.go:109-155 | a call issues the next sequence number of the same millisecond or number 0 of a later one that the clock showed; a refused call changes nothing |
| SnowflakeTheorems.RefusedExactly | utils/snowflake/snowflake.go:121-131 | for all int64 readings, refused if and only if the clock is behind by more than 5 ms (and by less than 2^63, where the offset overflows) or still behind after the wait |
| SnowflakeTheorems.SameMillisecond | utils/snowflake/snowflake.go:133-135 | in the millisecond of the last stamp, with numbers left, the next number is issued at once |
| SnowflakeTheorems.FullMillisecond | utils/snowflake/snowflake.go:135-139 | with the numbers used up, number 0 of the first later reading is issued, and nothing before it comes |
| SnowflakeTheorems.LaterMillisecond | utils/snowflake/snowflake.go:140-145 | in a later millisecond number 0 is issued at once |
| SnowflakeTheorems.ToleratedRollback | utils/snowflake/snowflake.go:121-127 | a rollback of at most 5 ms that is over after the wait makes no difference |
| SnowflakeTheorems.BlockedExactly | utils/snowflake/snowflake.go:109-165 | exactly when a call has to wait for the clock, for all int64 readings |
| SnowflakeTheorems.IdsIncrease | utils/snowflake/snowflake.go:109-155 | one generator's IDs strictly increase and are non-negative int64, for arbitrary clock readings of the era |
| SnowflakeOrder.PackedSigned | utils/snowflake/snowflake.go:150-152 | for every clock reading the ID is the signed 42-bit stamp, the machine and the number |
| SnowflakeOrder.IncreasesExactly | utils/snowflake/snowflake.go:109-155 | the IDs of every generator increase over a stretch of time if and only if the signed stamp does not turn inside it |
| SnowflakeTheorems.EraEnds | utils/snowflake/snowflake.go:17-18 | the first millisecond past 2^41 gives a negative ID |
| SnowflakeTheorems.SequencePrefix | utils/snowflake/snowflake.go:133-143 | the IDs of a millisecond are numbered 0, 1, 2, ... without gaps, at most 4096 |
| SnowflakeTheorems.Capacity | utils/snowflake/snowflake.go:20 | n IDs take at least n/4096 distinct milliseconds, rounded up |
| SnowflakeTheorems.GloballyUnique | utils/snowflake/snowflake.go:93-155 | generators with different machine IDs never issue an ID twice, from any state, in any interleaving, with any clocks inside one window of 2^42 ms; inside the era the IDs are non-negative |
| SnowflakeTheorems.UniqueExactly | utils/snowflake/snowflake.go:150-152 | all fleets stay unique within a stretch of time if and only if it is no longer than 2^42 ms |
| SnowflakeOrder.RestartExactly | utils/snowflake/snowflake.go:93-100 | a machine that starts anew cannot repeat an ID, whatever its clock shows, if and only if all its readings are later than the last stamp of its first life |
| SnowflakeCode.Generator.NewGenerator | utils/snowflake/snowflake.go:93-100 | nil exactly for a machine ID outside 0..1023 |
| SnowflakeCode.Generator.NextID | utils/snowflake/snowflake.go:109-155 | equals the specification function; an error leaves the state alone; an issued ID is the packed successor stamp |
| SnowflakeCode.Generator.WaitNextMilli | utils/snowflake/snowflake.go:158-165 | returns the first reading later than the last time |
| LimiterTheorems.EvictionIsInvisible | utils/ratelimit/ratelimit.go:37-67 | every answer equals that of a limiter that never cleans up, in every run whose removals are harmless: bucket full, entry not held |
| LimiterTheorems.RemovalShowsExactly | utils/ratelimit/ratelimit.go:45-63 | after any such run, a removal can show in some later answer if and only if the bucket is not full or a call holds the entry |
| LimiterTheorems.QuietIsHarmless | utils/ratelimit/ratelimit.go:57-67 | ten idle minutes make a removal harmless: if the entry is still expired and not held and calls are prompt, the bucket is full |
| LimiterTheorems.TakeAgrees | utils/ratelimit/ratelimit.go:48 | the bucket in the table and the never-cleaned one answer alike and stay alike |
| LimiterTheorems.SlackIsExact | utils/ratelimit/ratelimit.go:46-62 | eviction stays invisible in all runs that remove only expired, unheld entries if and only if Allow comes at most 598 s and 1 ns after lastSeen |
| LimiterTheorems.LateTakesShow | utils/ratelimit/ratelimit.go:46-62 | one nanosecond more and an answer differs |
| LimiterTheorems.RemovalUnderCallShows | utils/ratelimit/ratelimit.go:45-63 | a removal of an expired entry between LoadOrStore and Allow of a call makes an answer differ |
| LimiterTheorems.RemovalAfterUseShows | utils/ratelimit/ratelimit.go:62-63 | so does the removal of an entry that was found expired and then used by calls that have all returned |
| LimiterWindow.AdmissionBound | utils/ratelimit/ratelimit.go:37-67 | in any window of T seconds an IP is admitted at most 200 + 100·T times, across any number of harmless evictions |
| LimiterExcess.TightWindow | utils/ratelimit/ratelimit.go:135-145 | every such run ends in a window whose admissions, with what is left in the bucket, are the burst and the refill to the nanosecond |
| LimiterExcess.BoundBreaksExactly | utils/ratelimit/ratelimit.go:45-63 | after a harmless run, a removal lets some window exceed the bound if and only if the bucket is not full or a call holds the entry |
| LimiterCrowd.CrowdBound | utils/ratelimit/ratelimit.go:37-67 | in every run and window, without any condition, an IP is admitted at most 200 + 100·T times in T seconds for each bucket it can draw on: those usable at the start, one if the table has none, and one for each removal |
| LimiterAtomic.TracesAreInvisible | utils/ratelimit/ratelimit.go:37-67 | in every trace of whole AllowIP calls and whole test-and-delete actions the answers are those of a limiter that never cleans up, and every window keeps the admission bound |
| LimiterAtomic.QuietRunsAreInvisible | utils/ratelimit/ratelimit.go:37-67 | the same for interleaved calls that are prompt, if entries are deleted only while expired and not held |
| RateLimiterCode.RateLimiter.Allow | utils/ratelimit/ratelimit.go:131-145 | the bucket rule: refill up to the burst, take a token if there is one |
| RateLimiterCode.RateLimiter.AllowIP | utils/ratelimit/ratelimit.go:37-49 | a new IP is admitted from a full bucket; a known one is answered by its own bucket; no other IP is affected |
| RateLimiterCode.RateLimiter.CleanUp | utils/ratelimit/ratelimit.go:57-67 | exactly the entries idle for more than ten minutes go, the count is right, and those whose bucket was used at most 598 s and 1 ns after lastSeen had a full one |
| UserKeys.ReplaceSplits | utils/redis/redis.go:80-82 | the first placeholder is replaced and the rest treated alike, with no second look at the value |
| UserKeys.NothingToReplace | utils/redis/redis.go:80-82 | a key without a placeholder stays as it is |
| UserKeys.KeysAreApart | utils/redis/redis.go:51-62 | both key constructions are injective and their images disjoint |
| RegisterTheorems.MutualExclusion | service/user/user_service.go:51-52 | one call at a time is inside the critical section for an email, for any hash function and shard count |
| RegisterTheorems.SameShardExactly | utils/sync/shard_lock.go:43-47 | two calls share a mutex if and only if they run in the same process and their emails' hashes leave the same remainder |
| RegisterTheorems.NoClashInOneProcess | service/user/user_service.go:57-114 | in one process no Create is attempted for an email already stored, although a Create may commit and still report an error |
| RegisterTheorems.OneSuccessPerEmail | service/user/user_service.go:157-163 | at most one call per email returns SUCCESS or panics behind its Create, in any number of processes, and its row is the only one with that email |
| RegisterTheorems.CacheAgrees | service/user/user_service.go:132-142 | whatever order cache tasks run in, are skipped or dropped, a cached entry names a stored row and the two maps are inverse where both are present |
| RegisterTheorems.HolderCanGoOn | utils/sync/shard_lock.go:50-57 | a call waits for its mutex only while its holder can take a step |
| RegisterTheorems.TwoProcessesClash | model/user.go:11 | any two processes can attempt the same email, and the unique column keeps one row |
| RegisterTheorems.NoClashExactly | service/user/user_service.go:48-126 | no run attempts a Create for a stored email if and only if all calls arrive in at most one process |
| RegisterCalls.InvalidRequest | service/user/user_service.go:36-46 | a request with an empty field, and no other, is refused before anything is locked or asked |
| RegisterCalls.RegisterAnswers | service/user/user_service.go:51-163 | a whole call from any state: code, ID, row and cache task for every combination of outcomes, and the mutex free again |
| RegisterCalls.TaskFills | utils/redis/redis.go:59-70 | a cache task leaves exactly the entries whose commands were executed |
| ShardLockCode.ShardLock.constructor | utils/sync/shard_lock.go:21-38 | every slot gets an unlocked mutex of its own |
| ShardLockCode.ShardLock.GetLock | utils/sync/shard_lock.go:43-47 | a key leads to a mutex of the array |
| ShardLockCode.ShardLock.SharedExactly | utils/sync/shard_lock.go:43-47 | two keys share a mutex if and only if their hashes leave the same remainder |
| ShardLockCode.ShardLock.Lock | utils/sync/shard_lock.go:50-52 | takes the key's mutex exactly if it is free or becomes free meanwhile, and is blocked otherwise, even by itself; other mutexes change only by their own unlocks |
| ShardLockCode.ShardLock.Unlock | utils/sync/shard_lock.go:55-57 | frees the key's mutex; keys of other mutexes are unaffected |
| UserServiceCode.UserService.CheckEmailExist | service/user/user_service.go:249-260 | true exactly when the query worked and some row has the email |
| UserServiceCode.UserService.Register | service/user/user_service.go:32-164 | each return code exactly in its case, a new row exactly when the Create took effect, a cache task exactly after success and a working submit, no response exactly if the submit panics, emails and IDs stay unique |
| UserServiceCode.UserService.SetUserCache | utils/redis/redis.go:59-70 | each direction is written under its own key for 24 hours and nothing else changes, whichever of the two commands is executed |

## Left out

Pool
- GoroutinePoolCode.GoroutinePool.Submit: the interference is a parameter, tried between any two atomic actions; the step system, not the class, covers goroutines that are all inside methods at once.
- GoroutinePoolCode.GoroutinePool.Close: the timer fires when the scheduler's list is exhausted; in the step system it may fire at any time.
- GoroutinePoolCode.GoroutinePool.SubmitWithRetry: the sleep is a gap for the others; the length of the interval is not modelled.
- The goroutine that waits for the group is the step `WaitReturns`; that a timed-out Close leaves it behind is not modelled as a separate resource.
- More than 2^31 - 1 core workers: `coreWorkers` is also stored in an int32, but only reported.
- Panics for misuse of the WaitGroup, `runtime.Goexit` inside tasks, tasks that never end (the shutdown bound counts a running task as one step), the Go memory model, `GetPoolStats`, `Init`, logging.

Lease lock
- Nonces are fresh (sixteen random bytes); each command is executed at most once; the key is written by this code only.
- One goroutine at a time calls TryLock and Unlock of a handle; the renewers of all its locks interleave with it freely. The renewal period is not fixed: a tick may come at any time, and the timing theorems speak of when commands were executed.
- RedisLockCode.RedisLock.RenewLock: another TryLock shows only in the fields that it overwrites; its own SETNX is in the step system.
- EXPIRE takes whole seconds; expire is read from the configuration in whole seconds, so nothing is cut off.
- `LoseKey` stands for a server that loses the key; the timed theorems exclude it, the untimed ones do not.

Cache
- ProtectedCacheCode.RedisCache.GetWithProtection: one caller and a clock that stands still; the outcome of a flight it joins is a parameter, and the passing of time is in the step system.
- The loader is a fixed function of the key that may fail; a loader that panics, singleflight's `Forget`, and other writers of the same keys are not modelled.
- A base TTL below 10 ns makes the jitter call panic; it is excluded. Redis rounds lifetimes to milliseconds; the model does not.

Snowflake
- The mutex makes a call one step; the length of the sleep is not modelled, the reading after it is arbitrary.
- A call whose clock never passes the last millisecond spins for ever; it ends as `Blocked`.

Limiter
- Buckets follow the rule written in the source's comments, in exact arithmetic; `rate.Limiter` computes with float64.
- The clock is monotone. `AllowGlobal`, which is one call into the library, and the memory that eviction saves are left out.
- LimiterTheorems.EvictionIsInvisible: holds for runs whose removals find a full bucket that no call holds; the code does not ensure it, and every removal that does not can show.
- LimiterWindow.AdmissionBound: same condition, with the same converse; the bound without it is LimiterCrowd.CrowdBound.
- RateLimiterCode.RateLimiter.AllowIP: one caller at a time; the interleaved actions are in the step system.

Registration
- FNV-32a is an arbitrary hash function, user IDs are fresh, bcrypt is a call that may fail, and timeouts are failures that may come before or after the effect.
- ShardLockCode.ShardLock.Lock: what others unlock while the caller waits is a parameter; the order in which waiters get the mutex is not modelled.
- Retry and queueing of the cache task are the pool's; here a task is submitted or not, and runs, stops half-way or is dropped at any time.
- UserServiceCode.UserService.Register: one caller; `locked` stands for the mutex of the email. Interleaving, several processes and sharding are in the step system.
- String comparison is exact; MySQL collations and column lengths are not modelled. No code deletes users, so the soft-delete column is ignored.

Elsewhere
- Login and JWT, Pub/Sub, online status, configuration, metrics, connection setup, generated gRPC code and the parts described only in the documents (hub, inbox, groups, friends) are not part of this model: they are thin, generated, or not in the source.
