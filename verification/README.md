# Verified models of FerrLabs Kit

Dafny models of the stateful core of the Kit crates, with proofs about every run or every input:

- `crates/queue`: the Postgres job queue. One shared table, a clock, and any number of workers that claim, process, crash and are swept. `Jobs` says what each SQL statement does to a row, `JobTable` holds the statements as methods that update the table, and `JobRuns`, `JobTiming`, `JobClaims`, `JobKeys` and `JobFates` prove what holds over all runs.
- `crates/cache`: the stale-while-revalidate cache with its cluster lock. `Swr` is the protocol, one step per cache command or loader answer. `SwrCalls` is `get_or_load` and the background refresh statement by statement under arbitrary interference, each execution shown to be a run of the protocol. `ConnectionUrl` has the URL encoder and redactor.
- `crates/auth`: refresh-token rotation with reuse detection (`Sessions`, `SessionRuns`).
- `crates/ratelimit`: token buckets (`RateLimit`).
- `crates/crypto`: the cache of unwrapped keys in front of the key service (`DekCache`).
- `crates/api-version`: contract versions and the transform chain (`Decimal`, `ApiVersion`, `Transforms`).
- `crates/webhooks` and `crates/billing`: signed timestamps and their headers (`HeaderText`, `Webhooks`, `StripeWebhooks`).

Objects that the source updates in place are classes here, and loops are loops. Each method is tied by its postcondition to a function of the old state; the run theorems are about those functions. Clocks, random values, handler outcomes, loader and service answers, the keyed hash and the token hash are parameters.

The limit of the key cache is kept exactly if it is at least two (`DekCache.SizeBoundedIff`); the constructor of the source sets it to 1024.

`dafny verify dfyconfig.toml` checks the project.

## Where the code and its documentation differ

- The job documentation calls cancelled and dead terminal. The finish statements match on the id alone, so a worker that is still processing overwrites them. `JobRuns.TerminalIsFinalIffUnheld` gives the exact condition, `JobFates.CancelledJobIsOverwritten` a run.
- A sweep puts a job back in the queue while its handler may still be running. `JobTiming.SweepKeepsExclusionIff` says exactly when that can lead to two workers on one job, and `JobTiming.SweptLiveJobRunsTwice` is such a run.
- Not every queued job is run. A queued or failed job can still be claimed exactly if it has attempts left (`JobFates.ClaimableIff`). A sweep of a last attempt leaves a queued row that has none, as in the run of `JobFates.SweptLastAttemptIsStranded`; apart from a cancel, only a worker that is still processing it can then change it (`JobFates.StrandedIffUnheld`).
- Single flight in the cache is a matter of timing: the lock names no owner. A run keeps it exactly if the lock is never won while somebody in the section has overrun it (`Swr.SingleFlightIff`). `Swr.SlowLoaderAdmitsTwo` is a run that does not.
- A password with a raw `?` or `#` is documented to be fully redacted in logs. That holds exactly if no `@` precedes the first of them in the userinfo (`ConnectionUrl.DelimiterIsRedactedIff`); otherwise a piece of the userinfo is shown. `ConnectionUrl.RedactedShows` says what is shown of any URL, and `ConnectionUrl.DelimiterIsNotRedacted` is one such URL.
- Any path is documented to be dropped from logs. If it holds an `@` before its query, what follows the last such `@` is shown in place of the host (`ConnectionUrl.RedactedShows`, with a URL in `ConnectionUrl.PathIsShown`).
- Encoded parts of a URL come back exactly if the credentials hold no raw `?` or `#`, the user no `:`, and the path no `@` before its query (`ConnectionUrl.EncodingRecoversIff`, with inputs in `ConnectionUrl.EncodingLosesParts`). The documentation names the first of the three.
- The order in which contract changes are registered is documented not to matter. It matters within one version (`Transforms.SameChainIff`, with an input in `Transforms.RegistrationOrderMatters`).
- `rotate` still accepts a session at the very instant it expires, `get_active` no longer does (`SessionRuns.RotateSucceedsIffActive`, with an input in `SessionRuns.RotateAcceptsAtExpiry`).
- A version prints to text that parses exactly up to year 9999 (`ApiVersion.PrintedParsesIff`).
- `verify_timestamped` rejects a header with white space behind the prefix, which `verify_github` accepts (`Webhooks.GapIsRejectedIff`, with a header in `Webhooks.GapIsRejected`).

## Model

| member | source | states |
|---|---|---|
| Jobs.BackoffClosedForm | crates/queue/src/job.rs:159-162 | the saturating delay is min(2^attempt, 3600) for every attempt number: a power of two up to 11, 3600 from 12 |
| Jobs.TotalBackoffClosedForm | crates/queue/src/job.rs:159-162 | the delays after attempts 1 to k add up to 2^(k+1) - 2 up to k = 11, and to 4094 + 3600 (k - 11) beyond |
| Jobs.NextExists | crates/queue/src/worker.rs:244-253 | whenever some row is eligible, the ordered select has a first row |
| Jobs.NextByColumns | crates/queue/src/worker.rs:244-253 | a row is first exactly if it is due, retryable and has attempts left, and no such row of the queue has a higher priority, nor an earlier run time at the same priority |
| Jobs.BudgetUpdate | crates/queue/src/worker.rs:249 | writing one row moves the sum of remaining attempts by that row's difference |
| JobTable.Table.Enqueue | crates/queue/src/queue.rs:81-129 | inserts exactly if no row has the idempotency pair, with the priority, due time and limit asked for or their defaults; else answers with the id of the row that has it; the partial unique index is kept |
| JobTable.Table.Cancel | crates/queue/src/queue.rs:133-150 | answers false and changes nothing exactly when the row is missing, of another queue or terminal; else the row is cancelled |
| JobTable.Table.ClaimOne | crates/queue/src/worker.rs:236-268 | returns nothing exactly when no row is eligible; else an eligible row of the highest priority and, among those, the earliest run time, locked for the worker at that time and counted; spends one unit of budget |
| JobTable.Table.MarkDone | crates/queue/src/worker.rs:270-286 | the row is done and unlocked whatever its status was; no other row changes; a missing row is ignored |
| JobTable.Table.MarkDead | crates/queue/src/worker.rs:288-305 | the row is dead with the error and unlocked; no other row changes |
| JobTable.Table.MarkFailedForRetry | crates/queue/src/worker.rs:307-325 | the row is failed, due at the given time and unlocked; no other row changes |
| JobTable.Table.RetryOrBury | crates/queue/src/worker.rs:207-222 | dead when attempts are used up, else failed and due after the delay of the attempt |
| JobTable.Table.ProcessClaimed | crates/queue/src/worker.rs:167-205 | each outcome, a bad payload included, is written as one statement, and no attempt is spent |
| JobTable.Table.Sweep | crates/queue/src/worker.rs:327-357 | exactly the running rows locked before the cutoff go back to queued, all others stay |
| JobTable.Table.RunUntilIdle | crates/queue/src/worker.rs:134-165 | the claim loop ends with nothing eligible, after exactly as many claims as the budget fell and at most the initial budget |
| JobRuns.StepKeepsInv | crates/queue/src/worker.rs:167-357 | every step keeps attempts within bounds, holders consistent with rows, and idempotency pairs unique |
| JobRuns.RunKeepsInv | crates/queue/src/worker.rs:167-357 | so does every run |
| JobRuns.AttemptsCountClaims | crates/queue/src/worker.rs:236-255 | over any run a row's attempts grow by the number of its claims |
| JobRuns.AttemptsBounded | crates/queue/src/worker.rs:236-255 | in every run, with crashes, sweeps of live jobs, cancels, lost writes and late finishes, attempts equals the number of claims and is at most max_attempts |
| JobRuns.StepKeepsExclusive | crates/queue/src/worker.rs:327-343 | a step that frees no live job with attempts left keeps one worker per job and the shape of held rows |
| JobRuns.RunKeepsExclusive | crates/queue/src/worker.rs:167-357 | so does every run of such steps |
| JobRuns.OneWorkerPerJob | crates/queue/src/worker.rs:167-357 | in every run whose sweeps free no live job: one worker per job, its row running under its lock or cancelled, failed rows have attempts left, done and dead rows have no worker |
| JobRuns.RunKeepsTerminal | crates/queue/src/job.rs:78-81 | a terminal row without a worker reads the same after every run |
| JobRuns.TerminalIsFinalIffUnheld | crates/queue/src/worker.rs:270-325 | a terminal row is final in all runs if and only if no worker is still processing the job |
| JobRuns.DoneAndDeadAreFinal | crates/queue/src/worker.rs:270-305 | in runs whose sweeps free no live job, done and dead rows never change again |
| JobRuns.CancelOfIdleJobIsFinal | crates/queue/src/queue.rs:133-150 | a job cancelled while nobody processes it stays cancelled forever |
| JobRuns.CancelOfWaitingJobIsFinal | crates/queue/src/queue.rs:133-150 | in runs whose sweeps free no live job, a job cancelled while its status is not running stays cancelled forever |
| JobTiming.RunKeepsWaiting | crates/queue/src/worker.rs:307-325 | a failed row waits: no run without a claim of it brings its due time forward |
| JobTiming.RetryWaits | crates/queue/src/worker.rs:207-222 | after a retriable failure of attempt k the next claim comes at least min(2^k, 3600) seconds later, whatever happens between |
| JobTiming.RunKeepsTiming | crates/queue/src/worker.rs:207-268 | attempt k + 1 never begins before the first claim plus the first k delays |
| JobTiming.ExhaustedJobLifetime | crates/queue/src/job.rs:159-162 | a job dead after all its attempts lived at least 2^max - 2 seconds from its first claim up to max = 12, and 4094 + 3600 (max - 12) beyond |
| JobTiming.RetriableDeathExhausts | crates/queue/src/worker.rs:207-222 | in runs whose sweeps free no live job, a job all of whose finishes are retriable failures is dead only after all its attempts |
| JobTiming.RetriableJobLifetime | crates/queue/src/worker.rs:207-222 | so a job that dies by retriable failures alone lives that long |
| JobTiming.ClearTheWay | crates/queue/src/worker.rs:236-268 | an idle worker can get any eligible job once the jobs ahead of it are cancelled |
| JobTiming.SweepKeepsExclusionIff | crates/queue/src/worker.rs:327-357 | a sweep can lead to two workers on one job if and only if it frees a live job with attempts left |
| JobTiming.SweptLiveJobRunsTwice | crates/queue/src/worker.rs:327-357 | a concrete run from the empty table that ends with two workers on one job |
| JobClaims.ClaimsComeInOrder | crates/queue/src/worker.rs:244-253 | claims with nothing between them return jobs by descending priority, then ascending run time |
| JobClaims.EligibleWasEligible | crates/queue/src/worker.rs:244-253 | a row still eligible after some claims was eligible before them and is untouched |
| JobClaims.StepBudget | crates/queue/src/worker.rs:167-357 | each step changes the budget by what it grants minus what it claims |
| JobClaims.ClaimsAreConserved | crates/queue/src/worker.rs:148-152 | over any run, claims plus remaining budget equal initial budget plus the attempts granted by inserts |
| JobClaims.ClaimsAreBounded | crates/queue/src/worker.rs:148-152 | without enqueues, all workers together make at most the initial budget of claims |
| JobKeys.RowsPersist | crates/queue/src/queue.rs:81-129 | no run deletes a row or changes its queue, payload, key, priority, limit or creation time |
| JobKeys.EnqueueIsIdempotent | crates/queue/src/queue.rs:81-129 | enqueueing a pair again after any run returns the same id and leaves the whole state unchanged |
| JobKeys.StepPresence | crates/queue/src/schema.rs:29-31 | a pair is present after a step exactly if it was before or the step enqueues it |
| JobKeys.StepCount | crates/queue/src/queue.rs:81-129 | a step adds a row for a keyless enqueue or a new pair, and otherwise none |
| JobKeys.RowsAreDistinctPairsPlusKeyless | crates/queue/src/schema.rs:29-31 | in every run pairs are unique and the row count is the number of distinct pairs enqueued plus keyless enqueues |
| JobFates.ClaimsAtMostLeft | crates/queue/src/worker.rs:236-255 | from any state on, a job is claimed at most as often as it has attempts left |
| JobFates.ClaimableIff | crates/queue/src/worker.rs:244-253 | a queued or failed job is claimed in some run if and only if it has attempts left |
| JobFates.NotClaimedBeforeDue | crates/queue/src/queue.rs:81-129 | a job enqueued for time t is claimed in no run before t |
| JobFates.EnqueueWrites | crates/queue/src/queue.rs:81-129 | the columns of an inserted row, defaults included |
| JobFates.ClaimWrites | crates/queue/src/worker.rs:236-268 | the columns a claim writes, and that the first start is kept |
| JobFates.SweepWrites | crates/queue/src/worker.rs:327-343 | a sweep puts back exactly the running rows locked more than stale_secs ago |
| JobFates.FinishWrites | crates/queue/src/worker.rs:167-325 | the columns each outcome leaves: done without error; dead with the error after a permanent failure, a bad payload or the last attempt; failed and due min(2^k, 3600) seconds later otherwise |
| JobFates.FinishIsFinal | crates/queue/src/worker.rs:270-305 | in runs whose sweeps free no live job, a row that a finish leaves done or dead never changes again |
| JobFates.StrandedIffUnheld | crates/queue/src/worker.rs:327-343 | a queued job without attempts left stays as it is, unless cancelled, in all runs if and only if no worker is still processing it |
| JobFates.SweptLastAttemptIsStranded | crates/queue/src/worker.rs:327-343 | a concrete run, whose sweep frees no live job, that strands one |
| JobFates.CancelledJobIsOverwritten | crates/queue/src/worker.rs:270-286 | a concrete run in which a cancelled job becomes done |
| Swr.MaxPolls | crates/cache/src/swr.rs:135-136 | the number of 25 ms intervals that fit into lock_ttl, and at least one |
| Swr.StepKeepsLockInv | crates/cache/src/swr.rs:50-69 | every step keeps the lock key the lock of whoever is in the locked section, if the lock is won only while holders are timely |
| Swr.RunKeepsLockInv | crates/cache/src/swr.rs:119-133 | so does every run in which the lock is won only while holders are timely |
| Swr.SingleFlight | crates/cache/src/swr.rs:119-133 | in every run in which the lock is won only while holders are timely, at most one process is in its locked section, the lock is its own and live for lock_ttl, and a DEL removes nobody else's lock |
| Swr.ExclusiveIffTimelyWins | crates/cache/src/swr.rs:50-69 | from any consistent state, a run always has at most one process in the section if and only if the lock is won only while holders are timely |
| Swr.SingleFlightIff | crates/cache/src/swr.rs:50-69 | so for every run from the start |
| Swr.SlowLoaderAdmitsTwo | crates/cache/src/swr.rs:119-133 | for every lock_ttl a concrete run from the start ends with two processes in the section, and the first one's DEL removes the second one's lock |
| Swr.LeavingReleases | crates/cache/src/swr.rs:119-133 | the section is left only by the DEL, on success and on loader error, or by dying |
| Swr.AbandonedLockExpires | crates/cache/src/swr.rs:50-69 | in any run, timely or not, a lock left behind is gone after lock_ttl |
| Swr.SecondEntryIffOverrun | crates/cache/src/swr.rs:50-69 | the step behind it: a second process gets into the section if and only if the first has overrun lock_ttl, and then the first one's DEL removes the second one's lock |
| Swr.StepKeepsDataInv | crates/cache/src/swr.rs:33-47 | every step keeps the provenance of stored and pending values |
| Swr.RunKeepsDataInv | crates/cache/src/swr.rs:71-153 | so does every run |
| Swr.AnswersComeFromLoaders | crates/cache/src/swr.rs:71-153 | in every run, with any failure, expiry, eviction or death, a value returned was yielded by a loader |
| Swr.ConstantLoaderIsTransparent | crates/cache/src/swr.rs:71-153 | if loaders only ever yield v, every value returned is v |
| Swr.CachedAnswerIsRecent | crates/cache/src/swr.rs:86-114 | a cached answer was stored less than hard_ttl ago, and one that ends polling less than fresh_ttl ago |
| Swr.ReadRefreshesIffStale | crates/cache/src/swr.rs:94-114 | a read of a live envelope answers with its payload, and starts a background refresh exactly if it is at least fresh_ttl old |
| Swr.MissContends | crates/cache/src/swr.rs:94-119 | a read that finds nothing live or nothing readable contends for the lock |
| Swr.StoreWrites | crates/cache/src/swr.rs:33-47 | a store leaves the value stamped with the present time, to live for hard_ttl |
| Swr.WinnerStoresWhatItLoads | crates/cache/src/swr.rs:171-209 | whatever others do in between, a refresher or caller that wins, loads v and stores it leaves the key holding v stamped with the time of the store |
| Swr.StoredIsServed | crates/cache/src/swr.rs:86-114 | after any run that does not touch the key, a read within hard_ttl of a store returns the stored value, and refreshes it exactly if fresh_ttl has passed |
| Swr.PollAnswersIffFresh | crates/cache/src/swr.rs:137-146 | a poll ends the wait exactly if it finds a live envelope less than fresh_ttl old |
| Swr.PollingIsBounded | crates/cache/src/swr.rs:135-147 | if polls come at most slack late, the k-th poll of a caller that lost the race comes between 25 k and (25 + slack) k milliseconds after it began to wait, k at most the number of polls; without slack that is within max(lock_ttl, 25 ms) on the clock |
| Swr.GivesUpOnlyAfterWaiting | crates/cache/src/swr.rs:135-150 | a caller that lost the race loads for itself only after 25 ms and more than lock_ttl - 25 ms of waiting |
| Swr.EachStepCounts | crates/cache/src/swr.rs:71-210 | every own step brings a call closer to its end, and no step of another touches it |
| Swr.CallEndsWithinRank | crates/cache/src/swr.rs:71-153 | in any run a call takes at most the polls plus five steps, so no wait is unbounded |
| SwrCalls.Cluster.SetNx | crates/cache/src/swr.rs:50-69 | the lock is won exactly if the command succeeds, the expiry is positive and no live lock is there |
| SwrCalls.Cluster.Set | crates/cache/src/swr.rs:33-47 | the envelope is written with the present time and expires after hard_ttl, or nothing changes |
| SwrCalls.Cluster.LoadLocked | crates/cache/src/swr.rs:119-133 | from winning the lock to its delete, on success and on error, under interference: the lock key is gone if the DEL succeeds, and the caller gets what the loader gave |
| SwrCalls.Cluster.PollForFresh | crates/cache/src/swr.rs:135-147 | the poll loop returns the first fresh value it reads or falls through to the last resort, each pass a step of the protocol |
| SwrCalls.Cluster.LoadLate | crates/cache/src/swr.rs:149-152 | bypass and last resort return what the loader gave, whether or not the store succeeds |
| SwrCalls.Cluster.Miss | crates/cache/src/swr.rs:116-152 | a miss ends with an answer, its own load's or a fresh one it polled |
| SwrCalls.Cluster.GetOrLoad | crates/cache/src/swr.rs:71-153 | under any interference the call ends and its answer is that of a run of the protocol: a loaded value of its own, or one it found live in the cache and stored less than hard_ttl ago; a background refresh is started exactly if the value found is at least fresh_ttl old; it fails only if its loader failed |
| SwrCalls.Cluster.Refresh | crates/cache/src/swr.rs:159-210 | the background refresh ends without an answer, as a run of the protocol |
| SwrCalls.Cluster.ConcludedAnswer | crates/cache/src/swr.rs:71-153 | what is proved of answers in runs holds of the answer of a call |
| SwrCalls.RunSnoc | crates/cache/src/swr.rs:71-153 | appending an enabled step to a run gives a run |
| Sessions.Find | crates/auth/src/session.rs:211-240 | the row with the token hash, none exactly if no row has it |
| Sessions.GetActiveOutcome | crates/auth/src/session.rs:316-366 | an unrevoked, unexpired row with the hash, none exactly if there is no such row |
| Sessions.SessionStore.Create | crates/auth/src/session.rs:162-209 | one session with the given fields is appended, unrevoked and expiring after the lifetime asked for, or 14 days if that is too long; nothing else changes |
| Sessions.SessionStore.RevokeFamily | crates/auth/src/session.rs:305-314 | exactly the unrevoked sessions of the family are revoked |
| Sessions.SessionStore.Rotate | crates/auth/src/session.rs:211-303 | the outcome and the new rows for an unknown, spent, expired and active token, and the expiry of the session issued |
| Sessions.SessionStore.GetActive | crates/auth/src/session.rs:316-366 | what the query finds |
| SessionRuns.RunKeepsInv | crates/auth/src/session.rs:162-314 | every run keeps hashes distinct and every family a chain |
| SessionRuns.RunOnlyRevokes | crates/auth/src/session.rs:162-314 | over any run a row changes in nothing but being revoked, once |
| SessionRuns.IssuedLastsForLifetime | crates/auth/src/session.rs:162-366 | in every later state get_active finds a session issued by a login or rotation exactly if it is not revoked and its lifetime is not over: the one asked for, or 14 days beyond the maximum |
| SessionRuns.IssuedLastsExactly | crates/auth/src/session.rs:162-366 | if only time passes it is active for exactly that lifetime |
| SessionRuns.RotateAnswers | crates/auth/src/session.rs:236-303 | which of reuse, expiry and success rotate answers for a known token, and whose session it issues |
| SessionRuns.UnknownIsNotFound | crates/auth/src/session.rs:226-238 | exactly the unknown tokens are not found, and they change nothing |
| SessionRuns.SizeCountsRotations | crates/auth/src/session.rs:211-303 | a family grows by exactly its successful rotations |
| SessionRuns.FamilyIsAChain | crates/auth/src/session.rs:162-303 | in every run a family has one user, all but at most its newest session revoked, and one session more than successful rotations |
| SessionRuns.StepSpends | crates/auth/src/session.rs:258-284 | a spent token is not accepted, and an accepted token is spent |
| SessionRuns.TokenAcceptedAtMostOnce | crates/auth/src/session.rs:211-303 | over any run no token is accepted by rotate twice |
| SessionRuns.StepAlive | crates/auth/src/session.rs:240-251 | a step leaves a family an unrevoked session exactly if it had one and the step does not revoke it |
| SessionRuns.AliveIffNeverBurnt | crates/auth/src/session.rs:240-314 | in every run a family has an unrevoked session if and only if it was never replayed or logged out |
| SessionRuns.DeadFamilyStaysDead | crates/auth/src/session.rs:211-314 | a family without an unrevoked session never gets one and never rotates again |
| SessionRuns.BurnIsFinal | crates/auth/src/session.rs:240-251 | after a detected replay or a logout, no later calls give the family a session or a rotation |
| SessionRuns.OtherFamiliesUnchanged | crates/auth/src/session.rs:305-314 | a call changes the sessions of no family but the one it concerns |
| SessionRuns.RunLeavesOthersUnchanged | crates/auth/src/session.rs:162-314 | a run of calls that do not concern a family leaves its sessions as they were |
| SessionRuns.RotateSucceedsIffActive | crates/auth/src/session.rs:211-366 | rotate succeeds exactly if get_active would find the session at that time, or at the instant it expires |
| SessionRuns.RotateAcceptsAtExpiry | crates/auth/src/session.rs:211-366 | a login with lifetime zero that rotate accepts and get_active does not find |
| RateLimit.InMemoryRateLimiter.TryConsume | crates/ratelimit/src/lib.rs:103-121 | lets through exactly if the refilled, capped level covers the cost, and stores level and time |
| RateLimit.InMemoryRateLimiter.Check | crates/ratelimit/src/lib.rs:134-136 | one token |
| RateLimit.InMemoryRateLimiter.Prune | crates/ratelimit/src/lib.rs:123-130 | drops exactly the buckets that are full by now |
| RateLimit.PruneKeepsLevel | crates/ratelimit/src/lib.rs:123-130 | pruning changes the level of no key, now or later |
| RateLimit.LevelDependsOnOwnChecks | crates/ratelimit/src/lib.rs:103-130 | a key's level after a run is that after its own checks alone |
| RateLimit.PruneIsInvisible | crates/ratelimit/src/lib.rs:103-130 | a limiter pruned at arbitrary moments answers every check like one never pruned |
| RateLimit.UsedAtMostSupply | crates/ratelimit/src/lib.rs:103-121 | what was let through since any moment plus what is left is at most capacity plus refill |
| RateLimit.UsedIsSupplySince | crates/ratelimit/src/lib.rs:103-121 | with equality since some moment at which the bucket was full |
| RateLimit.AllowedWithinQuota | crates/ratelimit/src/lib.rs:103-121 | for every run, key and window [s, t] at most capacity + refill_per_sec (t - s) checks are let through |
| RateLimit.AdmitsExactlyWithinQuota | crates/ratelimit/src/lib.rs:103-121 | after any run a check is let through if and only if in every window [s, now] one more stays within capacity + refill_per_sec (now - s) |
| RateLimit.LevelByNumbers | crates/ratelimit/src/lib.rs:103-121 | a bucket holds its tokens plus elapsed time times refill_per_sec, at most the capacity; a new one is full |
| RateLimit.ConsumeTakesCost | crates/ratelimit/src/lib.rs:103-121 | a call takes exactly its cost if the level covers it, else nothing, and touches no other key |
| RateLimit.PruneByNumbers | crates/ratelimit/src/lib.rs:123-130 | a bucket is kept exactly if tokens plus refill are below the capacity |
| DekCache.GcpKmsKek.CacheGet | crates/crypto/src/lib.rs:219-228 | a live entry is returned and nothing changes; an expired one is dropped |
| DekCache.GcpKmsKek.CachePut | crates/crypto/src/lib.rs:230-246 | at the limit the older half is dropped, never an entry newer than one that is kept; then the entry is stored |
| DekCache.GcpKmsKek.UnwrapDek | crates/crypto/src/lib.rs:265-285 | locally wrapped keys are refused; a hit is returned without asking; a miss asks, stores only a success, and reports each error |
| DekCache.RebuiltDropsOldest | crates/crypto/src/lib.rs:230-246 | re-inserting the drained, sorted entries from position n on drops the n oldest |
| DekCache.SurvivorsByNumbers | crates/crypto/src/lib.rs:230-246 | below the limit a put drops nothing; at it, max_entries / 2 entries, none newer than one that stays |
| DekCache.RunKeepsInv | crates/crypto/src/lib.rs:219-285 | every run keeps each entry a reply of the service for its key, given at most the delay before it was stored |
| DekCache.ReturnedIsRecentReply | crates/crypto/src/lib.rs:265-285 | for every run and every bound d on the time from a reply to its put, a plaintext returned was given by the service for exactly that ciphertext, less than ttl + d ago from the cache, hence less than ttl if reply and put are one instant, and at most d ago on a miss |
| DekCache.StoredIsServed | crates/crypto/src/lib.rs:219-246 | a lookup of a stored ciphertext less than ttl after its put, with no other put between, returns the stored plaintext |
| DekCache.PutsAtMostReplies | crates/crypto/src/lib.rs:265-285 | over any run there are no more puts than replies: none is stored twice |
| DekCache.HitAgreesWithService | crates/crypto/src/lib.rs:265-285 | in front of a service that is a function of the ciphertext, a hit is that function's value |
| DekCache.RunKeepsSize | crates/crypto/src/lib.rs:230-246 | with a limit of at least two, no run exceeds it |
| DekCache.TinyCacheOverflows | crates/crypto/src/lib.rs:230-246 | with a smaller limit a concrete run exceeds it |
| DekCache.SizeBoundedIff | crates/crypto/src/lib.rs:230-246 | the limit is kept in all runs if and only if it is at least two |
| Decimal.ValueOfDigits | crates/api-version/src/version.rs:123-138 | printing a number and reading its digits gives the number |
| Decimal.PadOfValue | crates/api-version/src/version.rs:134-138 | fixed-width digits are determined by their value |
| Decimal.PadOrder | crates/api-version/src/version.rs:134-138 | the byte order of padded numbers is the order of the numbers |
| ApiVersion.ParseDigits | crates/api-version/src/version.rs:123-132 | the loop reads the decimal value, none for a non-digit or an overflow of u16 |
| ApiVersion.FromStr | crates/api-version/src/version.rs:107-120 | parses strictly; what parses is a date that exists and prints back to the input |
| ApiVersion.ParsedPrintsBack | crates/api-version/src/version.rs:107-138 | any text that parses is the one spelling of its version |
| ApiVersion.MalformedIffMisshapen | crates/api-version/src/version.rs:107-120 | exactly the texts that are not digits with dashes in the fifth and eighth of ten places are malformed |
| ApiVersion.PrintedParses | crates/api-version/src/version.rs:107-138 | every existing date up to year 9999 prints to text that parses to it |
| ApiVersion.PrintedParsesIff | crates/api-version/src/version.rs:107-138 | printing and parsing give a version back if and only if its year is at most 9999; later ones are malformed |
| ApiVersion.MonthsFillYear | crates/api-version/src/version.rs:65-77 | month lengths add up to 365 or 366 |
| ApiVersion.CalendarTable | crates/api-version/src/version.rs:39-77 | the dates that exist, by the table of the twelve month lengths and the leap rule |
| ApiVersion.DaysBeforeYearClosedForm | crates/api-version/src/version.rs:75-77 | the leap rule gives the Gregorian day count in closed form |
| ApiVersion.OrderIsChronological | crates/api-version/src/version.rs:16-77 | the derived order is the order of days, for every u16 year |
| ApiVersion.OrderIsByteOrder | crates/api-version/src/version.rs:16-24 | up to year 9999 it is the byte order of the spellings |
| Transforms.TransformRegistry.With | crates/api-version/src/transform.rs:65-69 | push and sort give the stable sort of the chain with the new change |
| Transforms.TransformRegistry.DowngradeResponse | crates/api-version/src/transform.rs:94-106 | the loop computes the downgrade chain, newest change first |
| Transforms.TransformRegistry.UpgradeRequest | crates/api-version/src/transform.rs:109-121 | the loop computes the upgrade chain, oldest change first |
| Transforms.SortIsStable | crates/api-version/src/transform.rs:65-69 | the chain is ordered and keeps the order within a version |
| Transforms.SortedUnique | crates/api-version/src/transform.rs:65-69 | an ordered chain is determined by what it holds at each version |
| Transforms.SameChainIff | crates/api-version/src/transform.rs:65-69 | two registration orders build the same chain if and only if they agree within each version |
| Transforms.RegistrationOrderIrrelevant | crates/api-version/src/transform.rs:65-69 | with one change per version the order of registration does not matter |
| Transforms.ChainIsSortOfAll | crates/api-version/src/transform.rs:65-69 | registering any list of changes one by one, sorting each time, gives the stable sort of all of them |
| Transforms.RegistrationOrderMatters | crates/api-version/src/transform.rs:62-69 | two changes of one version for which the order of registration changes what a client gets |
| Transforms.DowngradeComposes | crates/api-version/src/transform.rs:94-106 | for p at most q, downgrading to p is downgrading to q and then undoing only the changes in (p, q] |
| Transforms.UpgradeComposes | crates/api-version/src/transform.rs:109-121 | upgrading from p is making the changes in (p, q] and then upgrading from q |
| Transforms.UpgradeInvertsDowngrade | crates/api-version/src/transform.rs:94-121 | if each change's upgrade undoes its downgrade, the upgrade chain undoes the whole downgrade chain |
| Transforms.UntouchedIsUnchanged | crates/api-version/src/transform.rs:127-131 | when touches is false, both chains are the identity |
| Transforms.ChangeTakesItsPlace | crates/api-version/src/transform.rs:94-121 | anywhere in a chain, a change newer than the pin whose filter takes the request is undone or made between its neighbours |
| Transforms.RefusedChangeIsAbsent | crates/api-version/src/transform.rs:94-121 | a change no newer than the pin, or whose filter refuses the request, leaves both chains as without it |
| ConnectionUrl.DecodeEncode | crates/cache/src/lib.rs:167-200 | percent-decoding by section 2.1 of RFC 3986 undoes the encoding of any bytes |
| ConnectionUrl.EncodedByte | crates/cache/src/lib.rs:184-199 | letters and digits stand for themselves, any other byte for `%` and two upper-case hex digits |
| ConnectionUrl.OnRest | crates/cache/src/lib.rs:60-84 | encoder, redactor and reader keep the scheme and act on what follows the first separator |
| ConnectionUrl.ReadEncoded | crates/cache/src/lib.rs:167-200 | a client that splits by section 3.2 of RFC 3986 reads encoded credentials, host and tail back |
| ConnectionUrl.EncodingRecovers | crates/cache/src/lib.rs:167-200 | encoding a raw URL and reading it recovers exactly user, password, host and tail |
| ConnectionUrl.ReadOfEncoded | crates/cache/src/lib.rs:167-200 | of any encoded URL a client reads as credentials exactly what precedes the last `@` before the first `?` or `#`, and none of them holds a `?` or `#` |
| ConnectionUrl.EncodingRecoversIff | crates/cache/src/lib.rs:167-200 | user, password, host and tail come back if and only if the credentials hold no raw `?` or `#`, the user no `:`, and the path no `@` |
| ConnectionUrl.EncodingLosesParts | crates/cache/src/lib.rs:167-200 | an input for each of the three ways to fail |
| ConnectionUrl.NoUserinfoUnchanged | crates/cache/src/lib.rs:167-200 | a URL without userinfo is passed on unchanged |
| ConnectionUrl.RedactedShows | crates/cache/src/lib.rs:60-84 | for every userinfo, host and tail, what is shown: the host; the mark, if a raw `?` or `#` precedes every `@` of the userinfo; else the piece behind the last `@` before it, of the userinfo or of the path |
| ConnectionUrl.DelimiterIsRedactedIff | crates/cache/src/lib.rs:56-84 | a URL whose userinfo holds a raw `?` or `#` is fully redacted if and only if no `@` precedes it (or the piece shown reads like the mark) |
| ConnectionUrl.DelimiterIsNotRedacted | crates/cache/src/lib.rs:56-84 | a concrete URL of which a piece of the userinfo is shown |
| ConnectionUrl.PathIsShown | crates/cache/src/lib.rs:50-84 | a concrete URL of which a piece of the path is shown |
| ConnectionUrl.AmbiguousIsFullyRedacted | crates/cache/src/lib.rs:60-84 | when the only `@` follows a raw `?` or `#`, nothing but the scheme is shown |
| ConnectionUrl.NoCredentialsShowsHost | crates/cache/src/lib.rs:60-84 | of a URL without any `@`, scheme and host are shown |
| ConnectionUrl.NoSchemeIsRedacted | crates/cache/src/lib.rs:60-63 | text without `://` is not shown at all, and passed on by the encoder as it is |
| HeaderText.ParsePrintI64 | crates/webhooks/src/lib.rs:98-132 | printing and parsing gives back every i64, the extremes included |
| HeaderText.ParsesI64Iff | crates/webhooks/src/lib.rs:117-120 | what parses: one or more digits behind at most one sign, in the range of i64 |
| HeaderText.DecodeHex | crates/webhooks/src/lib.rs:52-61 | decodes exactly the texts of even length made of hex digits |
| HeaderText.DecodeEncodeHex | crates/webhooks/src/lib.rs:52-77 | decoding undoes encoding |
| Webhooks.UnframeFrame | crates/webhooks/src/lib.rs:98-102 | timestamp and body are read back from the signed bytes by splitting at the first dot, whatever the body |
| Webhooks.FrameIsInjective | crates/webhooks/src/lib.rs:98-102 | the signed bytes determine timestamp and body |
| Webhooks.GithubAcceptsIff | crates/webhooks/src/lib.rs:52-70 | a header verifies if and only if it is the prefix and the hash in hex of either case, with white space only around the whole and between the two |
| Webhooks.GithubRejectsFor | crates/webhooks/src/lib.rs:52-70 | a mismatch is exactly a header that spells another hash |
| Webhooks.GapIsRejectedIff | crates/webhooks/src/lib.rs:109-132 | of the headers verify_github accepts, verify_timestamped rejects exactly those with white space behind the prefix |
| Webhooks.GapIsRejected | crates/webhooks/src/lib.rs:64-132 | with any hash, the due header with a space behind the prefix passes verify_github and not verify_timestamped |
| Webhooks.AcceptedIff | crates/webhooks/src/lib.rs:109-132 | a delivery is accepted if and only if the timestamp parses, is within the window, and the signature header is a spelling of the hash of timestamp and body with nothing between prefix and hash |
| Webhooks.RejectedFor | crates/webhooks/src/lib.rs:109-132 | which of a malformed timestamp, a stale one and the signature a rejection names |
| Webhooks.SignedIsAcceptedIffFresh | crates/webhooks/src/lib.rs:105-132 | what the signer sends is accepted exactly if -w <= now - timestamp <= w for w the absolute skew, for all i64 values, and is stale otherwise |
| StripeWebhooks.ParseSignatureHeader | crates/billing/src/webhooks.rs:39-74 | the loop yields the last timestamp and all v1 signatures in order, or nothing if a pair is malformed or either kind is missing |
| StripeWebhooks.TimestampIff | crates/billing/src/webhooks.rs:39-74 | the timestamp read is that of the last piece that gives one |
| StripeWebhooks.SignaturesIff | crates/billing/src/webhooks.rs:39-74 | the signatures read are exactly those of the v1 pieces |
| StripeWebhooks.PieceByKey | crates/billing/src/webhooks.rs:39-74 | how a piece is read by its key: a timestamp, a hash, ignored, or malformed |
| StripeWebhooks.AcceptedIff | crates/billing/src/webhooks.rs:97-123 | a delivery is accepted if and only if no piece is malformed, the last timestamp is within max(tolerance, 0), and some v1 piece is the hash of it and the payload |
| StripeWebhooks.RejectedFor | crates/billing/src/webhooks.rs:97-123 | which of an unreadable header, the timestamp and no match a rejection names |
| StripeWebhooks.SignedParses | crates/billing/src/webhooks.rs:39-74 | the header a delivery is sent with parses to its timestamp and hash |
| StripeWebhooks.SignedIsAcceptedIffFresh | crates/billing/src/webhooks.rs:76-123 | a signed delivery is accepted exactly if its timestamp is within max(tolerance, 0), for all i64 values |

## Left out

- Database and cache engines: every SQL statement, transaction and cache command is one atomic step. Row locks (`SKIP LOCKED`), isolation levels and partial failures inside a statement do not appear.
- Clocks: the database and all workers, and all cache processes, share one clock.
- Queue: organisation and actor columns, listing and reading jobs, notifications, and worker start-up and shutdown. The end of a handler and its finish write are one step; the write may be lost. A failed claim is not an event.
- JobTable.Table.Enqueue: the primary key drawn by the database is a parameter that is new.
- Swr: serialization of values is left out, so a stored value never fails to serialize, and the millisecond casts to i64 do not truncate. The timestamp of an envelope and its SET happen at one instant. Only the cache key is evicted or overwritten from outside, not the lock key. All callers of a key use the same three durations.
- Sessions: new ids, families and token hashes are taken to be new, and the hash of tokens is a function with no further property. Times do not overflow.
- RateLimit: reals stand for floating point, the refill rate is not negative, times of calls do not go backwards, and each call is atomic.
- DekCache: wrapping keys, health checks and the requests to the service.
- Transforms: the library's stable sort is modelled as moving the pushed element into place.
- Webhooks: constant-time comparison, the strength of the keyed hash, and the store of seen deliveries.
- All other crates (audit, db, errors, github, http, id, license, mail, middleware, oauth, permissions, telemetry, testkit, types, vault) and the rest of the crates above: mostly calls into libraries, or members that would only add easy properties.
