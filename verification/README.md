# Verified model of the Seiza server

Seiza serves plate solving over HTTP. Images are uploaded, queued as durable
jobs, and solved by embedded or remote workers; accounts sign in with emailed
challenges. This project models the parts of the server that many processes run
at once, and the parts whose answers must agree with something simpler, and
proves what they promise. `dafny verify dfyconfig.toml` checks all of it.

## What the modules say

**The lease queue.** `LeaseQueue` is the queue both storage backends promise:
job rows, the time each owner was last served, and five atomic events.
`QueueRuns` proves what every run of it keeps: with arbitrary clock readings a
job accepts one completion, from its latest claim, and terminal rows never
change; with clock readings no later than the writes they guard, two leases on
one job are never live together. `QueueTerms` says, in events and clock readings
alone, exactly when a heartbeat, a completion, a requeue, a claim and an enqueue
are accepted, and what a job keeps of its upload. `DynamoQueue` is the DynamoDB repository as
single requests (stale reads, then one conditional write) that interleave
freely, and `SqlxQueue` is the SQL repository as a class whose methods are
serial transactions. Both refine the queue event by event, with each event at
the wall time of the write that performs it; `DynamoQueue` and `SqlRuns` carry
the run theorems over to the requests and to the transactions.
`Scheduler` is the choice of the next job. `Fairness` bounds how long a claim
that follows it can let one owner overtake another, and `SqlFairness` proves the
bound of every run of SQL transactions; DynamoDB chooses among stale rows, so no
bound is claimed for it. `Wakeup` adds the embedded workers and proves exactly
when no wakeup is lost. `OneJobPerUpload` runs any number of racing and
crashing finalizations of uploads on either backend. Expiries are stored as
text: `Timestamp` proves that the order of that text is the order of time, which
is what lets the queue modules compare times as integers.

**Limiters.** `EmailLimits` states what a check decides as a scan of the log of
every accepted send. `EmailBudgets` proves that any log built that way keeps all
seven budgets in every window position, `EmailRetry` that the retry time of each
budget, and of a whole check, is exact, and `EmailLimiter` that the pruned and
swept limiter answers like the scan. `TokenBucket` does the same for the token bucket.

**Identity.** `EmailChallenges` is the DynamoDB challenge protocol (a versioned
tracker per email, transactions conditional on the version read) under every
interleaving, `EmailSignIns` says what each sign-in rests on in the stored fields
and earlier steps, and `SqlChallenges` is the SQL protocol. `Sessions` covers session
lifetimes and revocation of sessions and keys under every interleaving. `Purge` is the
SQL store of them with its periodic purge, and `SqlSessions` proves that its
requests do what the calls of `Sessions` do when nothing interrupts.
`Sets` holds sizes of sets that several of these need.

**Lookups and tokens.** `StarTiles` proves that the tile index of star labels
agrees with a full scan, `StarLabels` that a search returns the first labels in
the order of `Text` and brightness, `PredictionCache` that the cache holds the 256 most
recently used keys, and `Tokens` that the printer and the parser of structured
tokens undo each other.

## Where the code falls short of a stated property

- A cost budget equal to the largest `u32` is not kept, because the test adds
  with saturation (`src/rate_limit.rs:315`); every smaller budget is.
  `EmailBudgets.CostBudgetIsKept` proves the if-and-only-if. Passing that budget
  takes about 2^32 messages in one window. `EmailLimits.Sound` keeps budgets below
  it.
- The retry time of a rejected email check can fall short: meanwhile the recipient
  may have become a new one, which costs more. `EmailRetry.RetryCanFallShort` is
  such a check. `EmailRetry.RetryIsExact`: a later check is accepted if and only if
  that time has passed and the costs the recipient has by then fit the two cost
  budgets, as they do when they have not changed.
- The SQL cap on live email challenges is tested against the clock of each
  creation. `SqlChallenges.CapHoldsFromLatestCreation`: the cap holds at a clock
  reading after every run with a given latest creation if and only if the reading
  is not before that creation. The DynamoDB cap does not depend on clocks.
- Every claim requeues expired leases, but only an embedded worker that made it
  looks again; a claim by a remote worker, an enqueue by another process and the
  outbox dispatcher wake nobody. `Wakeup.WakeupLostExactlyByStranding`: a run loses
  a wakeup if and only if such a transaction, made while every worker sleeps, does
  not take every job it leaves queued (`Wakeup.TakesAll`, a condition on the
  expired leases and the requested job). `Wakeup.RemoteClaimStrandsAJob` is a run
  from empty tables in which an ordinary remote claim leaves a job queued until a
  fallback poll fires.
- Purging changes what revoking sessions answers. `Purge.RepliesDifferExactly`: an
  answer differs if and only if the request revokes one session or all, and an
  unrevoked session that it names was removed by the latest purge.
  `Purge.RevocationSeesPurge` is the input: success without a purge, "session not
  found" after one.
- A token parses back exactly when its secret is not empty and its kind holds no
  separator; `Tokens.TokenRoundTrip` states both directions.

## Assumptions

- Times are integers (nanoseconds, or seconds where the code compares whole
  days); floats are reals. `f64::MAX / 4` is its exact value.
- UUIDs drawn for jobs, leases, challenges, sessions and keys are fresh. Digests
  are uninterpreted strings.
- SQL transactions are serial, and SQL compares text by bytes.
- The limiters see times that do not go back. `EmailSendRateLimiter::check`
  reads the clock before it takes the lock, so for it this is an assumption.
- The configuration checks of the server hold: at least one worker, a positive
  rate, a capacity of at least one.

## Model

| member | source | states |
|---|---|---|
| QueueRuns.JobHistory | src/repository.rs:486-563 | In every run, with arbitrary clocks: solving exactly when a lease is stored, succeeded exactly when a solution is, `attempts` counts the claims, `started_at` is the latest claim's time, at most one completion is accepted, and the stored token is the latest claim's |
| QueueRuns.AcceptedCompletion | src/repository.rs:541-563 | Every accepted completion carries the token of the job's latest claim and is its first |
| QueueRuns.TerminalIsAbsorbing | src/repository.rs:552 | A succeeded or failed row never changes again and no later event names the job |
| QueueRuns.AcceptedResultStays | src/repository.rs:552-562 | The status, solution, error and completion time of the one accepted completion are what the job keeps |
| QueueRuns.StaleWorkerIsRefused | src/repository.rs:513-563 | Once a job is claimed again, no heartbeat or completion with an earlier token is accepted |
| QueueRuns.LeaseFateHolds | src/repository.rs:265-288 | A lease is still stored with its last granted expiry, or that expiry has passed, or the job has ended |
| QueueRuns.LeasesNeverOverlap | src/repository.rs:454-511 | When a job is claimed again, the last expiry granted to its earlier lease, renewals included, has passed on the wall clock |
| QueueRuns.LatestTokenIsAClaim | src/repository.rs:486-490 | After a claim, the latest token of the job was handed out by that claim or a later one |
| QueueTerms.LeaseStays | src/repository.rs:265-288 | A job is solving exactly while no requeue or completion has followed its latest claim; its row then holds that claim's token and the last expiry granted to it |
| QueueTerms.HeartbeatIsHolders | src/repository.rs:513-528 | A heartbeat is accepted if and only if its token is that of the job's latest claim, no requeue or completion followed it, and its clock reading is before the last expiry granted; it then renews the row and nothing else |
| QueueTerms.CompletionIsHolders | src/repository.rs:541-563 | A completion with a result is accepted under exactly the same condition, and stores its result |
| QueueTerms.AcceptedFromHolder | src/repository.rs:513-563 | In every run each accepted heartbeat and completion met that condition |
| QueueTerms.RequeueIsAfterEnd | src/repository.rs:265-288 | A lease is taken away if and only if the clock reading has reached the last expiry granted to it |
| QueueTerms.QueuedJobIsClaimed | src/repository.rs:486-506 | Exactly queued jobs are claimed; the row stores the lease and counts the attempt, and the owner is charged |
| QueueTerms.NewJobIsAccepted | src/repository.rs:345-374 | Exactly a new ID, Astrometry ID and object key are enqueued, as a queued row with the given fields |
| QueueTerms.UploadIsKept | src/repository.rs:345-374 | In every run a job was enqueued once, and keeps the owner, weight, key, name, options and creation time it was enqueued with |
| QueueTerms.KeysAreUnique | src/repository.rs:120 | In every run no two jobs share an object key or an Astrometry ID |
| DynamoQueue.InvHolds | src/dynamodb_repository.rs:451-569 | Every version of a job item ever stored, and so every stale read, has the upload fields of the stored item; the object index names each job |
| DynamoQueue.ClaimRefines | src/dynamodb_repository.rs:471-520 | A claim of an expired lease is exactly a requeue followed by a claim; a claim of a queued job is exactly a claim |
| DynamoQueue.StepRefines | src/dynamodb_repository.rs:150-179 | Each request performs enabled queue events that lead exactly to the new table, or changes no job |
| DynamoQueue.StaleCandidateLease | src/dynamodb_repository.rs:521-527 | A lease put together from a stale candidate names the stored token, expiry, filename and options, and charges the stored owner |
| DynamoQueue.UndisturbedClaim | src/dynamodb_repository.rs:451-528 | A claim that nothing interrupts, of the requested queued or expired job or of the queued job it chose, stores and returns a lease for the asked number of seconds, at least one, and charges the owner |
| DynamoQueue.StepDrawsFreshToken | src/dynamodb_repository.rs:469 | No claim hands out a token drawn before |
| DynamoQueue.TraceRefines | src/dynamodb_repository.rs:451-632 | Every interleaving of reads and conditional writes is a run of the abstract queue with distinct tokens |
| DynamoQueue.TraceIsClocked | src/dynamodb_repository.rs:212-233 | A clock reading taken before a request's reads still bounds the requeue its later write performs |
| DynamoQueue.LeasesNeverOverlapInDynamo | src/dynamodb_repository.rs:451-569 | Lease exclusivity under every interleaving of stale reads and conditional writes |
| DynamoQueue.HeartbeatWrite | src/dynamodb_repository.rs:530-569 | After every interleaving a heartbeat request renews its lease if and only if it comes from the holder, and otherwise changes nothing |
| DynamoQueue.CompletionWrite | src/dynamodb_repository.rs:593-632 | After every interleaving a completion request stores its result if and only if it comes from the holder and has one |
| DynamoQueue.EnqueueWrite | src/dynamodb_repository.rs:276-327 | After every interleaving an enqueue request stores its job if and only if its ID, its Astrometry ID and its object key are new |
| DynamoQueue.RequeueWrite | src/dynamodb_repository.rs:150-179 | A write of the reclaim requeues exactly a solving job whose stored expiry has been reached |
| Scheduler.SelectBest | src/repository.rs:322-339 | The selection loop returns a row that no row beats on score and then creation time, and none exactly when there is no row |
| SqlxQueue.SqlxJobRepository.ReclaimExpired | src/repository.rs:265-288 | Requeues exactly the expired leases, each once, and makes their notifications pending, although each update re-tests only the status |
| SqlxQueue.SqlxJobRepository.QueuedRows | src/repository.rs:318-321 | Returns exactly the queued rows |
| SqlxQueue.SqlxJobRepository.SelectCandidate | src/repository.rs:304-340 | The requested job if it is queued, otherwise the scheduler's best, and nothing exactly when nothing is queued |
| SqlxQueue.SqlxJobRepository.Claim | src/repository.rs:454-511 | One transaction: requeue everything expired, then lease the requested or best job for the asked number of seconds, at least one, with the stored filename and options |
| SqlxQueue.SqlxJobRepository.Heartbeat | src/repository.rs:513-528 | Renews exactly when the row is solving with this token and an expiry after the clock reading, and changes nothing else |
| SqlxQueue.SqlxJobRepository.Complete | src/repository.rs:541-563 | Stores the result exactly when the row is solving with this token and an expiry after the clock reading; refuses a completion without a result |
| SqlxQueue.SqlxJobRepository.Enqueue | src/repository.rs:345-374 | Inserts the job with one outbox row, or returns the job that already has the object key; a reused job ID or Astrometry ID is an error that changes nothing |
| SqlxQueue.RequeuesRun | src/repository.rs:276-286 | Requeueing any expired rows one by one, in the order of the loop, is a run of requeue events, one per row |
| SqlxQueue.ReclaimRun | src/repository.rs:476 | A claim begins with exactly one requeue per expired lease |
| SqlxQueue.OwnEventRun | src/repository.rs:477-511 | After its requeues a transaction performs its own event, a claim with the lease it returns, or nothing, and leaves the committed state |
| SqlxQueue.TxRefines | src/repository.rs:454-563 | The events fixed by a transaction (its requeues, then at most its own event) are enabled and lead exactly to the committed state |
| SqlxQueue.SqlRunRefines | src/repository.rs:345-563 | In every run of serial transactions the concatenated events of the transactions are a run of the abstract queue that has, after each transaction, reached its committed state |
| SqlxQueue.SqlTokensAreDistinct | src/repository.rs:484 | The events of transactions that draw fresh tokens hand out distinct tokens |
| SqlxQueue.SqlRunIsClocked | src/repository.rs:466-476 | Each event happens at the wall time of its own transaction, and a requeue tests a clock reading no later |
| SqlRuns.OwnEventAt | src/repository.rs:454-563 | The own event of each transaction stands in the run at a fixed index, in the state after the transaction's requeues |
| SqlRuns.StoredLeaseIsLatest | src/repository.rs:491-500 | In every committed state each row is consistent, and a stored lease carries the token of the latest claim that leased the job and the last expiry granted to it |
| SqlRuns.OnlyHolderIsAccepted | src/repository.rs:513-563 | Every accepted heartbeat and completion presents the token of the latest claim that leased the job, before the last expiry granted to it |
| SqlRuns.HolderIsAccepted | src/repository.rs:513-563 | Every heartbeat and completion with the token of a lease, before its last expiry, is accepted, if no transaction in between requeued or completed the job |
| SqlRuns.OneAcceptedCompletion | src/repository.rs:541-563 | Over every run of transactions a job accepts at most one completion |
| SqlRuns.EndAfterTx | src/repository.rs:513-528 | A transaction moves the end of a lease exactly when it is an accepted heartbeat of that lease |
| SqlRuns.SqlLeasesNeverOverlap | src/repository.rs:454-528 | When a claim leases a job again, the last expiry granted to the earlier claim's lease, accepted heartbeats included, has passed on the wall clock |
| Fairness.ChoiceIsExact | src/repository.rs:318-340 | The best job is exactly the queued one that comes first: owners never served first, then the larger product of elapsed time and stored weight, then the earlier creation |
| Fairness.SmallWeightsCountAlike | src/repository.rs:327 | Weights up to 0.01 score alike, as 0.01 does |
| Fairness.BestOutscores | src/repository.rs:323-336 | If one job is best while another waits, elapsed time times stored weight compares the same way |
| Fairness.OvertakingStep | src/repository.rs:454-511 | Each time A is served while B waits, the gap grows by the factor `wA / (wA - wB)` |
| Fairness.GeometricGrowth | src/repository.rs:323-336 | Steps of that factor multiply over the whole series |
| Fairness.BoundedOvertaking | src/repository.rs:304-340 | Over every run whose later claims take the best job, for stored weights: `wA^n * (s0 - tB) <= (wA - wB)^n * (sn - tB)`, and no overtaking at all when A's weight is not larger; weights below 0.01 count as 0.01 |
| Fairness.NeverServedIsNotOvertaken | src/repository.rs:323-328 | An owner never served is not overtaken unless the rival's score reaches the never-served score |
| Fairness.NewcomerIsNext | src/config.rs:607-611 | For weights up to 100 and times of the years 0 to 9999 no score reaches it, so an owner never served is not overtaken |
| SqlFairness.FirstIsLeased | src/repository.rs:304-340 | An SQL claim for no particular job leases the one that comes first, by elapsed times, stored weights and creation, of all queued after its requeues |
| SqlFairness.ClaimIsScheduled | src/repository.rs:304-340 | In every run of SQL transactions, a claim for no particular job takes the best job of the state after its requeues |
| SqlFairness.SqlBoundedOvertaking | src/repository.rs:454-511 | Over every run of SQL transactions: while B has a queued job and stays last served at `tB`, n further leases to A by claims for no particular job mean `wA^n * (s0 - tB) <= (wA - wB)^n * (sn - tB)`; n is 0 when A's stored weight is not larger |
| SqlFairness.SqlNewcomerIsNext | src/repository.rs:323-328 | Over every run of SQL transactions an owner never served is not overtaken at all |
| Wakeup.ClaimTakesAll | src/repository.rs:476-483 | From a queue with nothing queued, a claim leaves queued exactly the expired jobs other than the one it leases |
| Wakeup.TakesAllIsExact | src/repository.rs:476-483 | Any transaction leaves nothing queued if and only if it takes all: told from the expired leases, the requested job and the enqueued one |
| Wakeup.StepKeepsAttended | src/api.rs:169-200 | Every step keeps: nothing queued, or an enqueue still to notify, or a worker that will look again; a transaction of another process does so if and only if it strands no job |
| Wakeup.NoLostWakeup | src/api.rs:169-200 | Unless another process stranded a job: when all workers sleep un-notified and no enqueue is between commit and notify, no job is queued |
| Wakeup.NotifiedWorkerSolves | src/api.rs:169-200 | When all workers sleep over an empty queue, an enqueue and its notification reach every one of them, and the one that claims solves the job and then looks again |
| Wakeup.WakeupLostExactlyByStranding | src/api.rs:169-200 | A run with remote workers and other processes loses a wakeup if and only if one of their transactions strands a job |
| Wakeup.StrandingRun | src/api.rs:2080-2095 | For all leases found at startup and every later transaction that does not take all, there is a run in which it leaves a job queued while every embedded worker sleeps |
| Wakeup.RemoteClaimStrandsAJob | src/worker.rs:200-215 | From empty tables: a remote claim for no particular job leaves the second of two expired jobs queued and wakes nobody |
| OneJobPerUpload.InsertKeepsInv | src/repository.rs:345-374 | A new job keeps every earlier promise and becomes the job of its key |
| OneJobPerUpload.FindsTheJob | src/dynamodb_repository.rs:375-419 | A lookup by object key returns the job that has it, and nothing only when no job has it |
| OneJobPerUpload.StepKeepsInv | src/api.rs:578-641 | Every step of every racing or crashing finalization keeps one job per key |
| OneJobPerUpload.OneJob | src/api.rs:654-718 | In every reachable state each object key and each Astrometry ID has at most one job, SQL one outbox row per job, and every successful return for the key names that job |
| OneJobPerUpload.FreshUploadIsEnqueued | src/api.rs:578-641 | A first finalization that nothing interrupts enqueues the object under its fresh ID, saves the ID and returns it |
| OneJobPerUpload.SavedJobIsReturned | src/api.rs:658-665 | A finalization of an upload that has its job can only return that job |
| OneJobPerUpload.UploadBegins | src/api.rs:654-665 | A new upload has no job yet, and everything promised before still holds |
| OneJobPerUpload.KnownObjectIsAdopted | src/api.rs:578-641 | A finalization of an object that has a job saves and returns that job and enqueues nothing |
| Timestamp.MonthsAreGregorian | src/dynamodb_common.rs:26-28 | The twelve months have the lengths of the Gregorian calendar |
| Timestamp.YearIsItsMonths | src/dynamodb_common.rs:26-28 | The closed day count adds, for every year, the days of its twelve Gregorian months |
| Timestamp.EveryInstantHasADate | src/dynamodb_common.rs:26-28 | Every nanosecond of the years 0 to 9999 has a date and a time of day |
| Timestamp.TextOrderIsTimeOrder | src/dynamodb_common.rs:20-28 | Lexicographic order of encoded times is the order of time, for 0, 3, 6 and 9 fraction digits mixed; the encoding is injective |
| Timestamp.EndingOrder | src/dynamodb_common.rs:20-25 | Fractions of different lengths keep their order because '+' is before '.' and every digit |
| Timestamp.TextLayout | src/dynamodb_common.rs:26-28 | The text is the four-digit year and the two-digit month, day, hour, minute and second in this order with their separators, then fraction and offset |
| Timestamp.OffsetIsApplied | src/dynamodb_common.rs:30-33 | A text with an offset is read as the instant it names; offsets of a day or more, or with 60 minutes or more, are refused |
| Timestamp.ZuluIsUtc | src/dynamodb_common.rs:30-32 | `Z` is read as UTC, in either case |
| Timestamp.DecodeInvertsEncode | src/dynamodb_common.rs:30-32 | Decoding gives back the encoded instant |
| EmailLimits.ReleaseIndexFound | src/rate_limit.rs:318-326 | The releasing event is the first whose expiry frees the needed cost |
| EmailLimits.AcceptedByAll | src/rate_limit.rs:167-216 | An acceptance means that none of the seven budgets refused |
| EmailLimits.RejectionIsTheLongest | src/rate_limit.rs:167-216 | A rejection carries the largest of the refusing budgets' times |
| EmailBudgets.SourceBudgets | src/rate_limit.rs:168-183 | In every run and every window position, both cost budgets of every source hold |
| EmailBudgets.RecipientBudgets | src/rate_limit.rs:184-196 | The same for the cooldown, hour and day counts of every recipient |
| EmailBudgets.GlobalBudgets | src/rate_limit.rs:197-208 | The same for both process-wide counts |
| EmailBudgets.FirstWindowCost | src/rate_limit.rs:283-300 | While all sends of a source lie in one window, they cost one each and one more per further recipient |
| EmailBudgets.FirstWindowBound | src/rate_limit.rs:97-102 | So n messages to d recipients in one window need n + d <= budget + 1: with 3, three to one recipient or two to two |
| EmailBudgets.CostsNeverOverflow | src/rate_limit.rs:314 | The costs a check sums are within the budget, so the u32 sum does not overflow |
| EmailBudgets.CostBudgetIsKept | src/rate_limit.rs:302-327 | A cost budget is kept, in every window position, by everything it accepts if and only if it is below the largest u32 |
| EmailBudgets.SaturatingTestIsExact | src/rate_limit.rs:315 | The saturating test equals the exact one except for a budget of the largest u32 and a sum past it |
| EmailRetry.CountFreesAtRelease | src/rate_limit.rs:329-345 | With no further sends a count budget frees exactly when its releasing event expires |
| EmailRetry.CountRetryIsExact | src/rate_limit.rs:329-353 | Waiting k whole seconds suffices exactly when k is at least the answer |
| EmailRetry.WeightedFreesAtRelease | src/rate_limit.rs:302-327 | A cost budget, asked again for the same cost, frees exactly when its releasing event expires |
| EmailRetry.WeightedRetryIsExact | src/rate_limit.rs:302-353 | For a fixed cost within the budget, waiting k whole seconds suffices exactly when k is at least the answer |
| EmailRetry.LeastSeconds | src/rate_limit.rs:347-353 | The rounded-up time is the least whole number of seconds that reaches the expiry |
| EmailRetry.LogIsInOrder | src/rate_limit.rs:218-235 | The limiter's own logs are in order of time and within their cost budgets, as the exactness results need |
| EmailRetry.CountsFitAfter | src/rate_limit.rs:184-208 | All five count budgets have room after k seconds exactly when all their answers are met |
| EmailRetry.SourceFitsAfter | src/rate_limit.rs:168-183 | So does each cost budget of a source, for a fixed cost |
| EmailRetry.RetryIsExact | src/rate_limit.rs:167-216 | With no further sends, a check after a rejected one is accepted if and only if the retry time has passed and the costs the recipient has by then fit; costs that have not changed do |
| EmailRetry.RetryCanFallShort | src/rate_limit.rs:283-300 | A log whose rejected check is told to wait 8 seconds and is rejected again then, because the recipient has become a new one |
| EmailLimiter.RetainRecent | src/rate_limit.rs:355-371 | Pruning drops a front part of the queue that has left the window, and stops at the first event still inside |
| EmailLimiter.CoversSameRecent | src/rate_limit.rs:237-258 | A pruned queue answers every window up to its retention like the full history |
| EmailLimiter.RecentEvents | src/rate_limit.rs:310-313 | The loop collects exactly the events inside the window |
| EmailLimiter.CostFor | src/rate_limit.rs:283-300 | One for a recipient already sent to inside the window or an idle source, two for a new recipient |
| EmailLimiter.WeightedRetry | src/rate_limit.rs:302-327 | The loop computes the refusal of a cost budget |
| EmailLimiter.CountRetry | src/rate_limit.rs:329-345 | The refusal of a count budget |
| EmailLimiter.SweepQueues | src/rate_limit.rs:260-273 | The sweep prunes every queue to the retention, drops the empty ones and keeps all that a later check can count |
| EmailLimiter.EmailSendRateLimiter.constructor | src/rate_limit.rs:134-139 | A new limiter stands for the empty log |
| EmailLimiter.EmailSendRateLimiter.Sweep | src/rate_limit.rs:237-274 | A sweep keeps all that a later check can count; it drops empty queues when a newcomer finds 10,000 |
| EmailLimiter.EmailSendRateLimiter.Evaluate | src/rate_limit.rs:151-216 | The seven tests on the pruned queues decide as the scan of the full log |
| EmailLimiter.EmailSendRateLimiter.CheckAt | src/rate_limit.rs:145-235 | Answers, and charges, exactly as the scan of the full log; a rejected check leaves that log unchanged |
| TokenBucket.RateLimiter.constructor | src/rate_limit.rs:27-33 | A new limiter has seen no request |
| TokenBucket.RateLimiter.Check | src/rate_limit.rs:35-63 | Answers as a limiter that never sweeps, and admits exactly the requests that one admits; a bucket is dropped exactly when a new identity finds 10,000 stored and it is full again |
| TokenBucket.KeepsCharged | src/rate_limit.rs:47-56 | A swept bucket and the full one that replaces it decide alike and end alike |
| TokenBucket.TokensConserved | src/rate_limit.rs:51-55 | Tokens left plus admissions never exceed a full bucket plus what was refilled |
| TokenBucket.AdmissionBound | src/rate_limit.rs:35-63 | Over any interval of length T each identity is admitted at most capacity + rate * T times |
| TokenBucket.BurstIsExact | src/rate_limit.rs:47-57 | Of n simultaneous requests of a new identity exactly the whole capacity is admitted, each for one token |
| TokenBucket.RetryIsExact | src/rate_limit.rs:58-62 | With nothing else charged, waiting k seconds suffices exactly when k is at least the answer |
| EmailChallenges.CreatedListed | src/dynamodb_identity.rs:203-252 | A creation that wins on the version it read leaves every live challenge listed and every tracker within the cap |
| EmailChallenges.CompletedListed | src/dynamodb_identity.rs:355-401 | A completion leaves no live challenge of its email |
| EmailChallenges.StepKeepsInv | src/dynamodb_identity.rs:176-480 | Every request of every call keeps the invariants |
| EmailChallenges.TraceKeepsInv | src/dynamodb_identity.rs:176-480 | They hold after every interleaving |
| EmailChallenges.AtMostMaxLiveUsable | src/dynamodb_identity.rs:193-260 | Each unconsumed email challenge is listed in its email's tracker, so at most `max_live` can be completed |
| EmailChallenges.CompletesAtMostOnce | src/dynamodb_identity.rs:302-480 | No challenge is completed twice |
| EmailChallenges.CompletionDisablesSiblings | src/dynamodb_identity.rs:369-401 | Once a challenge is completed, none of its email stored before is ever usable again |
| EmailSignIns.CompletionWasAllowed | src/dynamodb_identity.rs:302-480 | In every interleaving a completion was asked for by an earlier call, before the challenge's expiry and with fewer failures recorded than the call's limit; it consumes an unconsumed email challenge and signs in to the active account of its email |
| EmailSignIns.AttemptsAreFailures | src/dynamodb_identity.rs:265-300 | In every interleaving a challenge's attempts are exactly the failures recorded against it |
| EmailSignIns.OnlyUseConsumes | src/dynamodb_identity.rs:355-401 | No request but its completion consumes an email challenge |
| EmailSignIns.DeletedIsNeverCompleted | src/dynamodb_identity.rs:355-401 | In every interleaving a challenge that the table deleted is not completed afterwards, whatever calls are under way |
| EmailSignIns.InactiveAccountIsNotSignedIn | src/dynamodb_identity.rs:302-480 | In every interleaving no completion signs in to an account between the step that makes it inactive and the next that makes it active |
| EmailSignIns.UndisturbedCreation | src/dynamodb_identity.rs:176-263 | A creation that nothing interrupts stores its challenge, lists it first in its email's tracker, keeps the newest `max_live` and deletes the others |
| EmailSignIns.UndisturbedCompletion | src/dynamodb_identity.rs:302-480 | A completion that nothing interrupts signs in if and only if the stored challenge is an unconsumed, unexpired email challenge with attempts left and its email's account is active or can be created |
| EmailChallenges.OneAccountPerEmail | src/dynamodb_identity.rs:403-439 | Each email has at most one account |
| SqlChallenges.SqlxIdentityRepository.NewestFirst | src/sqlx_identity.rs:163-167 | Lists exactly the live challenges of the email, newest first |
| SqlChallenges.SqlxIdentityRepository.ConsumeEach | src/sqlx_identity.rs:168-176 | The loop consumes exactly the listed challenges |
| SqlChallenges.SqlxIdentityRepository.CreateEmailChallenge | src/sqlx_identity.rs:145-179 | Stores the challenge and consumes all live ones beyond the newest `max_live`; refuses a wrong purpose, a zero cap, a missing email or a known ID |
| SqlChallenges.SqlxIdentityRepository.CompleteEmailChallenge | src/sqlx_identity.rs:199-292 | Signs in to the email's active account, stores its session and times and consumes all its challenges, or rolls everything back; each outcome with its cause |
| SqlChallenges.SqlxIdentityRepository.RecordChallengeFailure | src/sqlx_identity.rs:181-197 | Counts an attempt exactly when the challenge could still be tried |
| SqlChallenges.CompletionDisablesAll | src/sqlx_identity.rs:272-276 | After a completion no challenge of the email stored by then is usable again, at any clock reading |
| SqlChallenges.CompletesAtMostOnce | src/sqlx_identity.rs:226-235 | No challenge is completed twice |
| SqlChallenges.SignInIsExact | src/sqlx_identity.rs:199-292 | A completion commits exactly for an unconsumed, unexpired email challenge with attempts left and an unused session ID, and signs in to the active account of its email or, if there is none, to the new one |
| SqlChallenges.CompletionIsExact | src/sqlx_identity.rs:266-292 | It consumes all unconsumed sign-in challenges of the email and no other, and changes no other account or session |
| SqlChallenges.OnlyUseConsumes | src/sqlx_identity.rs:145-292 | Only sign-ins and new challenges of its own email consume an email challenge |
| SqlChallenges.OnlyPurgeDeletes | src/sqlx_identity.rs:589-606 | A challenge row leaves exactly when a purge comes more than a day after its end |
| SqlChallenges.NewRowsAreStored | src/sqlx_identity.rs:132-134 | A passkey challenge and an account are stored as given, under new IDs |
| SqlChallenges.InactiveAccountIsNotSignedIn | src/sqlx_identity.rs:237-264 | No completion signs in to an account between the transaction that makes it inactive and the next that makes it active |
| SqlChallenges.OneAccountPerEmail | src/sqlx_identity.rs:237-264 | Each email has at most one account |
| SqlChallenges.AtMostMaxLive | src/sqlx_identity.rs:163-176 | At every clock reading not before the email's latest creation at most `max_live` challenges are live |
| SqlChallenges.EarlierClockSeesMore | src/sqlx_identity.rs:163-167 | For every cap, lifetime, latest creation and earlier reading, a run after which `max_live + 1` challenges are live at that reading |
| SqlChallenges.CapHoldsFromLatestCreation | src/sqlx_identity.rs:145-179 | The cap holds at a clock reading after every run with a given latest creation if and only if the reading is not before it |
| SqlChallenges.NewestSurvives | src/sqlx_identity.rs:163-176 | A challenge newer than every live one is live once it is stored |
| Sessions.TouchKeepsInv | src/dynamodb_identity.rs:521-553 | The expiry a touch writes stays within the stored session's lifetime, even from a session read long before |
| Sessions.SessionLifetime | src/auth.rs:377-429 | In every run `expires_at <= absolute_expires_at = created_at + 90 days`, and a session is last seen before that |
| Sessions.RevocationIsExact | src/dynamodb_identity.rs:555-588 | A revocation revokes exactly the asked sessions of its own account, and no other row changes |
| Sessions.KeyRevocationIsExact | src/dynamodb_identity.rs:968-1000 | A key is revoked only by its own account, and once |
| Sessions.RevokedSessionIsRefused | src/dynamodb_identity.rs:521-588 | From the revocation request on, the row of the session never changes while stored, not even by a touch under way, and no authentication that begins later is accepted |
| Sessions.DeletedSessionIsRefused | src/dynamodb_identity.rs:608-620 | A deleted session never comes back and no authentication that begins later is accepted |
| Sessions.DeletedKeyIsRefused | src/auth.rs:861-938 | Once a key is deleted, no authentication that begins later is accepted for a session minted from it |
| Sessions.SweptSessionIsRefused | src/dynamodb_identity.rs:1001-1009 | What holds after a revocation holds for every session that the sweep of a key's revocation reaches |
| Sessions.RevokedKeyIsRefused | src/auth.rs:861-938 | From the revocation request of a key on, no authentication that begins later is accepted for a session minted from it, whatever the sweep missed or a concurrent creation stored |
| Sessions.InactiveAccountIsRefused | src/auth.rs:886 | Once an account is made inactive, no authentication for it that begins later is accepted until it is active again |
| Sessions.AcceptedWasValid | src/auth.rs:861-938 | In every run, what is accepted presented the stored digest, kind and account of a session unrevoked and unexpired when it began, and its account was active and its key valid at some later moment |
| Sessions.UndisturbedAuthentication | src/auth.rs:377-429 | An authentication that nothing interrupts is accepted if and only if every check holds, and extends a session last seen 15 minutes before to 30 days but not past its absolute end |
| Sessions.NewSessionIsValid | src/auth.rs:794-807 | A new session of an active account is valid for its kind and digest for exactly 30 days if nothing extends it, and not past the end of the key it was minted from |
| Purge.PurgedOnce | src/sqlx_identity.rs:589-606 | A run that purges whenever it likes has the store of the same run without purges, purged once at the time of the latest purge |
| Purge.RepliesDifferExactly | src/sqlx_identity.rs:339-367 | Its answer to a request differs if and only if the request revokes one session or all and the latest purge removed an unrevoked session that it names |
| Purge.PurgingChangesNoReply | src/sqlx_identity.rs:589-606 | In a run that revokes no session directly, every authentication, session listing, key revocation and challenge completion is answered as without purges |
| Purge.RevocationSeesPurge | src/api/auth.rs:401-411 | Revoking an unrevoked session that ended 31 days ago succeeds without a purge and finds no session after one |
| Purge.OldSessionsAreGone | src/sqlx_identity.rs:589-606 | In every run, a session still stored was at the latest purge at most 90 days old and ended or was revoked at most 30 days before |
| Purge.StoredExactly | src/sqlx_identity.rs:589-606 | A purging run stores exactly what the run without purges does, less sessions past their absolute end or 30 days past their end or revocation, and challenges a day past theirs |
| Purge.RevokedIsRefused | src/sqlx_identity.rs:339-367 | After a revocation by ID, of all sessions of the account, or with the key, no later authentication of the session is granted, with purges or without |
| SqlSessions.AuthenticationAgrees | src/auth.rs:377-429 | On the SQL store an authentication is granted if and only if every check holds, and stores what the interleaved requests of a call store when nothing interrupts |
| SqlSessions.RevocationAgrees | src/sqlx_identity.rs:339-352 | Revoking one session does the same as in `Sessions`, and answers whether it was the account's and unrevoked |
| SqlSessions.RevokingAllAgrees | src/sqlx_identity.rs:354-367 | Revoking all revokes each as by itself and answers how many were unrevoked |
| SqlSessions.KeyRevocationAgrees | src/sqlx_identity.rs:560-587 | Revoking a key revokes it and every session minted from it, if it is the account's and unrevoked |
| SqlSessions.CreationAgrees | src/sqlx_identity.rs:294-298 | New keys and sessions are stored as in `Sessions` |
| SqlSessions.RemovalAgrees | src/sqlx_identity.rs:369-376 | So are deletions, and changes of an account's status |
| SqlSessions.ListingIsExact | src/api/auth.rs:117-137 | The account page lists exactly the unrevoked sessions that have not ended, none after all were revoked |
| SqlSessions.ChallengeIsConsumedOnce | src/sqlx_identity.rs:181-235 | With purges or without, a new challenge accepts a code exactly before it ends and while fewer wrong codes were counted than allowed, and only once |
| SqlSessions.WrongCodeIsCounted | src/sqlx_identity.rs:181-197 | A wrong code is counted exactly when the right one would be accepted |
| StarTiles.WrappedIsLeast | src/star_identifiers.rs:248-251 | The wrapped distance is the least distance over every number of whole turns |
| StarTiles.Triangle | src/star_identifiers.rs:248-251 | It obeys the triangle inequality, also across 0 and 360 degrees |
| StarTiles.NearOwnColumn | src/star_identifiers.rs:238-242 | No label is further than half a tile from the centre line of its column |
| StarTiles.InOwnRow | src/star_identifiers.rs:244-246 | A row of tiles is a band of five degrees; what lies beyond a pole belongs to the row at that pole |
| StarTiles.VisitedIsNear | src/star_identifiers.rs:189-207 | The search looks no further than one tile, five degrees, beyond the box |
| StarTiles.SpanIsExact | src/star_identifiers.rs:189-199 | The box spans the full circle exactly at a pole, where the cosine is below 0.05 or where it is too small for the radius; elsewhere the radius is the span times the cosine |
| StarTiles.InBoxIsVisited | src/star_identifiers.rs:189-207 | Tile pruning never skips the tile of a label in the box |
| StarTiles.PoleTakesTheBand | src/star_identifiers.rs:193-199 | A box that reaches a pole takes in every label of its declinations |
| StarTiles.BoxCoversRadius | src/star_identifiers.rs:189-199 | The box holds every label that differs from the centre by at most the radius in declination and in wrapped right ascension |
| StarTiles.BuildTiles | src/star_identifiers.rs:75-79 | Each label is stored in its own tile and no other, as often as it occurs |
| StarTiles.ScanTile | src/star_identifiers.rs:209-222 | The inner loop keeps exactly the labels that pass the tests |
| StarTiles.CollectLabels | src/star_identifiers.rs:189-225 | Inside the box the loops find exactly what a full scan finds, each label as often as stored, and outside it never more |
| StarLabels.BeforeIsExact | src/star_identifiers.rs:226-232 | The comparison says exactly: brighter first and no magnitude last, then proper names, Bayer and Flamsteed, variable and double stars, then shorter and then smaller designations |
| StarLabels.BeforeIsCotransitive | src/star_identifiers.rs:226-232 | The comparison of labels is an order: whatever stands between two labels, one of the two steps goes up |
| StarLabels.SortLabels | src/star_identifiers.rs:226-232 | The labels are put in that order, none lost or added |
| StarLabels.LabelsInFootprint | src/star_identifiers.rs:169-235 | The answer is in order and holds at most `limit` labels, each as often as stored, bright enough, near enough and on the image; such a label of a visited tile is missing only if the limit is reached by labels none of which it may stand before |
| PredictionCache.RecencyIsByLastUse | src/satellites.rs:72-78 | The recency list holds exactly the used keys, in order of last use |
| PredictionCache.NewestIsExact | src/satellites.rs:80-88 | A used key is among the newest exactly when fewer than 256 other keys were used since its last use |
| PredictionCache.UseCached | src/satellites.rs:80-84 | Moving a key to the back of the bounded list keeps it the newest part of the full recency list |
| PredictionCache.PredictionCache.Get | src/satellites.rs:73-78 | A hit occurs exactly for the 256 most recently used keys and returns the value last inserted |
| PredictionCache.PredictionCache.Insert | src/satellites.rs:80-90 | The value is stored under a key that becomes the most recent, and the least recently used key beyond 256 is evicted |
| PredictionCache.PredictionCache.EvictOldest | src/satellites.rs:84-88 | The loop removes the oldest keys from list and map together |
| Tokens.UuidRoundTrip | src/auth.rs:1010-1019 | A printed UUID parses back and holds no separator |
| Tokens.HexValueIsExact | src/auth.rs:1027-1030 | The hexadecimal digits of either case, and nothing else, have values |
| Tokens.UuidTextsAreExact | src/auth.rs:1027-1030 | The texts that parse as a UUID are exactly its 32 digits of either case, alone, grouped, in braces or as a URN |
| Tokens.SplitJoin | src/auth.rs:1022 | Splitting into the right number of parts gives back the parts and the secret, separators in the secret included |
| Tokens.TokenRoundTrip | src/auth.rs:1010-1035 | For any number of IDs: parsing a printed token gives back IDs and secret exactly when the secret is not empty and the kind holds no separator |
| Tokens.ParsedIsAToken | src/auth.rs:1021-1035 | Whatever parses is the prefix, the kind, as many UUID texts as asked for and a secret that is not empty, and exactly those are returned |
| Tokens.KindsAreDisjoint | src/auth.rs:1023-1025 | A token of one kind never parses as another |
| Tokens.FormatPrefixedToken | src/auth.rs:1010-1019 | The printing loop builds the token of the format |
| Tokens.ParsePrefixedToken | src/auth.rs:1021-1035 | The parsing loop accepts exactly what the format's parser accepts, with the same IDs and secret |

## Left out

- Plate solving, WCS projection, image decoding, orbital propagation, rendering and the frontend: foreign crates or user interface.
- HTTP routing, configuration parsing, mail and queue clients, upload storage, remote workers and store migration: I/O. An upload is a record with an object key and an optional job ID.
- Cryptography, randomness and WebAuthn ceremonies, with the passkey operations of the identity stores.
- DynamoDB `input_key`, `donate_validation`, job history listings and legacy job IDs: reads and field copies that no property here depends on.
- Outbox delivery: SQL outbox rows are modelled up to their reset on requeue, not `pending_notifications` order or `mark_notification_delivered`, nor their difference from the DynamoDB flag.
- Statement-level interleaving of PostgreSQL transactions: SQL transactions are serial in `SqlxQueue`, `Wakeup`, `SqlChallenges` and `Purge`.
- The bound on the tries of the DynamoDB retry loops: calls here may try any number of times or stop at any point.
- DynamoDB's deletion of expired items is a step for challenges and sessions, but trackers are taken to outlive the challenges they list, as their longer time to live intends.
- QueueRuns.LeasesNeverOverlap: the end of a lease is the last expiry granted to it; a heartbeat on a clock that was set back may shorten it.
- SqlFairness.SqlBoundedOvertaking: for leases granted at strictly increasing whole milliseconds. Claims of two processes may read their clocks in another order than they commit.
- Rounding of floating-point scores, tokens and angles, and not-a-number values.
- EmailRetry.WeightedRetryIsExact: for a fixed cost; `EmailRetry.RetryIsExact` covers costs that change.
- EmailRetry.RetryIsExact: for cost budgets of at least two and at least two below the largest u32.
- Durations too long for the time types, and the overflow of very large lease lengths.
- StarLabels.LabelsInFootprint: that the box covers the image footprint is spherical trigonometry and not part of this model; separations, cosines and the plate solution are arbitrary functions.
- The choice of the preferred designation per star in `StarIdentifierLayer::open`, catalogue search, and the order of labels within a tile.
- Timestamp.DecodeTime: reads UTC and numeric offsets with any number of fraction digits, but not second 60, lower-case separators or years beyond four digits.
- The uniqueness of WebAuthn user handles, which the completion transaction also tests.
- Touch times of API keys, and which sessions of a key are recycled: `Purge` deletes any set of them.
- The source files of the upload store and the remote worker are not part of this model.
