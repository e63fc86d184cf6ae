# Verified model of LegacyDoc's hard cores

LegacyDoc documents code bases with language models. A queue of leased jobs feeds worker
slots; each slot cuts files into chunks along the symbols a parser found, has models write
about them, anchors the answers to the symbols and stores one document per file. Around
that stand a rate limiter, prepaid credit, and accounts with lockout and password reset.

This project models those parts in Dafny and proves what they promise over every input,
every run and every interleaving. `dafny verify dfyconfig.toml` checks all of it.

| files | what they hold |
|---|---|
| `Queue`, `WorkerProtocol`, `SlotProgram` | the job table as a class, the protocol of slots, reaper, API and crashes over it as a state machine, and the worker's code as methods whose every execution is a run of that machine |
| `Fencing`, `Lifespan`, `Leases`, `Resume` | safety of all runs: who may end a job, how long a job can live, how long a lease and a backoff protect it, what a resumed job does not repeat |
| `RateLimit`, `Limiter`, `LimiterLog` | the arithmetic of the sliding window, the limiter as a class with its LRU map, and its refinement of a full request log |
| `Billing`, `Settlement`, `AllMonths`, `BillingAccount`, `Calendar` | draining of credit grants, runs of spends and settlements in a month and over all months, the tables as a class, month arithmetic |
| `Symbols`, `Chunking`, `LineChunks`, `Anchoring`, `Review` | from syntax tree to anchored documentation |
| `Lockout`, `Overlap`, `PasswordReset`, `AccountStore` | login locks, with logins as one step and overlapping, and reset tokens under interleaving |
| `Prelude`, `Text`, `Spans` | shared vocabulary |

## How the source is read

Code that changes things step by step is a class or a method with a loop. Each such method
is proved against a function or a transition of a state machine, and the promises are
proved about those: a method's `ensures` is the bridge, the lemmas are the results.

**Atomic steps.** A database transaction is one step. A worker slot is a program counter
that other events may overtake between any two of its statements. A slot id is unique and
runs one job at a time (apps/worker/legacydoc_worker/runner.py:53-61). A job id is new when
it is enqueued. A claim may be one statement, or a SELECT and a guarded UPDATE with anything
in between (packages/core/legacydoc_core/queue.py:62-128).

**What `fail_job` reads.** It looks at the job through `session.get`
(packages/core/legacydoc_core/queue.py:191) in a session that has held the object since the
attempt began and keeps it across commits (packages/core/legacydoc_core/db.py:43-47), and
its write has no guard. The model has both kinds of failing finisher: `Fresh` reads the
committed row, `Cached` the copy of the attempt's start. Under the cached read three
promises fail, and each has its exact condition:

- a finisher is fenced if and only if it agrees with the committed lock or writes the status
  that is there already (`Fencing.FinishersAreFencedExactlyWhen`);
- a finished job stays finished if and only if no stale failure overwrites it
  (`Fencing.TerminalStatusIsFinalExactlyWhen`); `Fencing.StaleFailureOverturnsCancellation`
  is a run in which one does;
- two status changes per allowed attempt are enough in every run if and only if the job is
  allowed one attempt (`Lifespan.TwicePerAttemptExactlyWhen`). They are also enough as long
  as the job's finishers are fenced. In every run the life of a job is still bounded
  (`Lifespan.EveryJobEnds`), and the bound is reached for every budget
  (`Lifespan.TheBoundIsReached`).

The laws hold whatever the clocks of the machines say. The runs that show where a promise
fails or a bound is reached keep one clock that never runs backwards and claim every job for
the full configured lease (`WorkerProtocol.Timely`).

Runs whose failing finishers all read the committed lock are fenced throughout
(`Fencing.CommittedReadsAreFenced`). `complete_job` and heartbeats carry their guard into the
UPDATE and need no such condition, although `complete_job` neither checks the status nor
clears the lock. Like every assignment through a session, the ones in `fail_job` write only
the columns whose new value differs from the loaded one.

**Backoff.** The second statement of a two-statement claim tests the status only
(packages/core/legacydoc_core/queue.py:112-128). A slot that chose a job while it was queued and
stalled before taking it can therefore take it again right after a failure. The next attempt
waits the backoff out in every run if and only if there is no such slot
(`Leases.BackoffIsKeptExactlyWhen`).

**Error codes.** Through a stale copy that already has the code, the code is not written again:
`Leases.FailureNamesItsCodeExactlyWhen`.

**Commits that throw.** After the unique constraint throws in `session.commit()`, the session
must be rolled back before it can read, so `fail_job` raises in its turn and the attempt ends
without a finisher.

**Retry-After.** An estimate equal to the limit is refused, so a client that waits exactly
the advertised time can be refused again, against the comment in tests/test_ratelimit.py:83-84.
`Limiter.ObeyingTheHeaderCanBeRefused` is such a history, with three requests per 64 seconds at
second 1000: all its numbers are exact in doubles too. (For the 60-second window of that test,
one minus 40/60 times 60 in doubles lies just above 20, which makes the header 21.)
`RateLimit.WaitingExactlyTheAdvertisedTime` says when waiting exactly that long is enough, and
any longer wait always is.

**Chunk budget.** A chunk may exceed its budget, because the blank lines between symbols are
not counted. The bound is half a token per symbol (`Chunking.ChunkTokensAreBounded`), and it is
reached for every number of symbols (`Chunking.HalfATokenEachIsReached`). For a header of h
characters the budget is kept by all chunks of k symbols if and only if 9k plus the remainder
of 5h by 18 is below 28 (`Chunking.BudgetIsKeptExactlyWhen`): never for four symbols or more,
always for one. Over all calls of `build_chunks` that leaves one symbol, and three without the file header
(`Chunking.BudgetIsKeptExactlyByOneSymbol`).

**Expiry dates.** `add_months` keeps the time of day and cuts the day to the target month, so
credit bought later can expire earlier: `Calendar.LaterPurchaseCanExpireEarlier`, and exactly
when in `Calendar.MomentsSwapExactlyWhen`.

**Rewrites by bare name.** Two rejected symbols that share a name can trade lines:
`Review.PlacesKeepTheirLinesExactlyWhen` says exactly when that is excluded, and
`Review.DocumentationIsAnchored` what holds always.

**Numbers.** Money, window times and fractions are `real`. A token is 18/5 characters
exactly. Instants are whole microseconds in the queue, billing and accounts. The limiter's
log lemmas assume a clock that does not run backwards, one rule per key and room for one key.

**Ties.** Where SQL leaves the order of equal keys open, so does the model: the claimed job
and the order of grants are any that the ORDER BY allows.

**Models' answers** are arbitrary values, passed as function parameters, as are the names,
texts and signatures the parser reads off a node.

**Accounts.** A confirmation is two steps: it reads the token and the user, and later claims the
token with a guarded UPDATE. Logins, other confirmations, requests, key changes and deactivation
may come in between. The counter and the lock are cleared through the copy that was read, so a
lock set in between can survive the reset: `PasswordReset.LockCanSurviveAReset`, and exactly when
in `PasswordReset.ResetUnlocksExactlyWhen`. The clock readings within one request are one instant,
except that a login reads it once for the lock and once for the failure. Requests for a reset link
are single steps, and so are logins, except in `Overlap`: there a login reads the row and writes it
back later without a guard, and the counter counts every wrong password of a run if and only if the
failing logins take turns (`Overlap.CounterCountsExactlyWhen`). Runs in which they do are runs of
single steps (`Overlap.TurnsAreSteps`).

## Model

| member | source | states |
|---|---|---|
| Queue.JobQueue.Enqueue | packages/core/legacydoc_core/queue.py:26-50 | adds one QUEUED job with no lock and its full budget of status changes; every other row stays |
| Queue.JobQueue.ClaimJob | packages/core/legacydoc_core/queue.py:53-98 | takes a job that no eligible, unlocked job precedes by (priority, scheduled_at), and takes none only when none is eligible; the row gets the lock, the lease and one more attempt |
| Queue.JobQueue.SelectCandidate | packages/core/legacydoc_core/queue.py:100-110 | finds a first eligible job exactly when there is one, and changes nothing |
| Queue.JobQueue.ClaimCandidate | packages/core/legacydoc_core/queue.py:112-128 | the guarded update takes the candidate exactly when it is still QUEUED |
| Queue.JobQueue.Heartbeat | packages/core/legacydoc_core/queue.py:131-157 | says alive exactly when the caller holds the running job; then the lease ends at the moment given and the percentage is the one given, cut to 0 and 100 |
| Queue.JobQueue.CompleteJob | packages/core/legacydoc_core/queue.py:160-178 | only a row locked by the caller changes; status is not checked and the lock is kept |
| Queue.JobQueue.FailJob | packages/core/legacydoc_core/queue.py:181-215 | the row as written from what the session has seen of it, and whether a retry follows |
| Queue.JobQueue.ReapExpiredLeases | packages/core/legacydoc_core/queue.py:218-257 | no expired lease remains; each one is requeued or failed by its attempts, all other rows stay, and the result counts the requeued |
| Queue.JobQueue.CancelJob | packages/core/legacydoc_core/queue.py:271-282 | cancels exactly the QUEUED job named |
| Queue.BackoffDoublesUpToTheCap | packages/core/legacydoc_core/queue.py:14-15 | retry delays start at 30 s, double, and reach 900 s from the sixth attempt on |
| Queue.FirstRowExists | packages/core/legacydoc_core/queue.py:75-77 | whenever a job is eligible, one is first in the order of the query |
| WorkerProtocol.StepKeepsShape | apps/worker/legacydoc_worker/runner.py:72-140 | every event of slots, reaper and API keeps the invariant tying locks, leases, attempt counts and slot positions together, even with stale failing finishers |
| WorkerProtocol.RunKeepsShape | packages/core/legacydoc_core/queue.py:53-282 | that invariant holds in every reachable state |
| Fencing.RowsOfReachableStates | packages/core/legacydoc_core/queue.py:26-282 | in every run, whatever `fail_job` reads: RUNNING exactly with a lease, a lock exactly when RUNNING or SUCCEEDED, and the lock is that of the slot of the latest claim |
| Fencing.AttemptsOfFencedJobs | packages/core/legacydoc_core/queue.py:53-128 | while a job's finishers are fenced it is QUEUED only with attempts left and never exceeds `max_attempts` |
| Fencing.OtherEventsLeaveTheJob | packages/core/legacydoc_core/queue.py:53-282 | status, attempts and lock change by claims, finishers, the reaper and cancellation of that job, and by nothing else |
| Fencing.CompletionIsFenced | packages/core/legacydoc_core/queue.py:160-178 | over all runs, with no assumption: only the slot of the latest claim changes a status by `complete_job`, by the one-finisher discipline of the slot program |
| Fencing.HeartbeatIsFenced | packages/core/legacydoc_core/queue.py:148-157 | a heartbeat answers alive only to the slot that made the latest claim |
| Fencing.FinishersAreFencedExactlyWhen | apps/worker/legacydoc_worker/runner.py:90-140 | after any run a finisher changes a status only from the slot of the latest claim if and only if it agrees with the committed lock or writes the status that is there |
| Fencing.CommittedReadsAreFenced | apps/worker/legacydoc_worker/runner.py:90-140 | runs whose failing finishers read the committed lock are fenced throughout |
| Fencing.StaleFailureIsFencedExactlyWhen | packages/core/legacydoc_core/queue.py:181-214 | a failure decided on the session's old copy is fenced if and only if the copy shows another lock, the lock is still held, or the status it writes is the one already there |
| Fencing.StaleFailureOverturnsCancellation | packages/core/legacydoc_core/queue.py:191-214 | a run on one clock, with a lease of fifteen minutes, in which a slot that lost its lease turns a CANCELLED job into FAILED |
| Fencing.TerminalMovesExactlyWhen | packages/core/legacydoc_core/queue.py:181-214 | a SUCCEEDED, FAILED or CANCELLED job changes status in a step if and only if a failing finisher on it, with its own lock in the old copy, overwrites another status |
| Fencing.TerminalStatusIsFinalExactlyWhen | packages/core/legacydoc_core/models.py:46-55 | absorption: a finished job keeps its status through a run if and only if no such step occurs in it |
| Fencing.TerminalStatusIsFinalInRuns | packages/core/legacydoc_core/models.py:46-55 | the same for every prefix and continuation of a run from the empty database; no such step occurs where failing finishers read the committed lock |
| Lifespan.EveryChangeCostsSpan | packages/core/legacydoc_core/queue.py:53-282 | in every step, stale failures included, a job pays two halves of its span for a status change, and every claim out of the claims left |
| Lifespan.EveryJobEnds | packages/core/legacydoc_core/queue.py:181-257 | in every run, with b = max(max_attempts, 1): at most (11b - 6)/2 status changes and 2b - 1 claims |
| Lifespan.FencedJobLifeIsBounded | packages/core/legacydoc_core/queue.py:181-257 | while its finishers are fenced a job changes status at most 2b times |
| Lifespan.TheBoundIsReached | packages/core/legacydoc_core/queue.py:181-257 | for every max_attempts and every lease of a second or more, a run on one clock with full leases has exactly (11b - 6)/2 status changes, rounded down, and 2b - 1 claims |
| Lifespan.TwicePerAttemptExactlyWhen | packages/core/legacydoc_core/queue.py:191-214 | 2b status changes are enough if and only if max_attempts is at most one, over all runs and equally over the runs on one clock with full leases |
| Leases.LeaseIsRenewed | packages/core/legacydoc_core/queue.py:59-157 | a claim and a live heartbeat leave the job running under their slot with a lease to the moment they name; only a claim counts an attempt |
| Leases.ReapedExactlyWhen | packages/core/legacydoc_core/queue.py:218-257 | after a claim or a live heartbeat the reaper takes the job if and only if the lease is over: requeued, and open to claims from that moment on, while an attempt is left, else failed as `lease_expired` |
| Leases.LeaseProtects | packages/core/legacydoc_core/queue.py:131-257 | over every run after a claim or a live heartbeat, whatever anyone does before the lease is over, the job stays the slot's, in the same attempt, unless a finisher ends it |
| Leases.ProgressIsPublished | apps/worker/legacydoc_worker/processor.py:275-283 | a heartbeat in the loop publishes 15 plus the share of 80 that the files done make, rounded down, and stays below 95 |
| Leases.AttemptEndsAs | apps/worker/legacydoc_worker/runner.py:90-140 | for the holder: a document or more completes the job; no document, or an error not worth a retry, fails it; any other error requeues it with the backoff while an attempt is left, else fails it |
| Leases.FailureNamesItsCodeExactlyWhen | packages/core/legacydoc_core/queue.py:191-214 | a failure leaves its code in the row unless a stale copy already had that code and the row has another |
| Leases.BackoffIsKeptExactlyWhen | packages/core/legacydoc_core/queue.py:100-128 | after a failure no run starts the next attempt before the backoff is over, if and only if no slot has already chosen the job without taking it |
| Leases.EnqueuedJobsSaySo | packages/core/legacydoc_core/queue.py:26-50 | a job is open to claims from its enqueueing on; in every run it keeps priority and budget, shows a progress from 0 to 100, has an end time when it has ended, and 100 without an error when it succeeded |
| SlotProgram.World.ClaimJob | apps/worker/legacydoc_worker/runner.py:72-84 | the queue's one-statement claim is the claim event of the protocol; it takes nothing exactly when nothing is eligible and unlocked |
| SlotProgram.World.ClaimInTwo | packages/core/legacydoc_core/queue.py:100-128 | the two-statement claim, with any events in between, is a legal run that ends claimed or idle |
| SlotProgram.World.Progress | apps/worker/legacydoc_worker/processor.py:422-440 | the heartbeat between files says alive exactly when the slot still holds the job, and only then goes on to the pipeline |
| SlotProgram.World.Report | apps/worker/legacydoc_worker/runner.py:128-140 | the queue call that `_execute` makes at the end is the finisher event of the protocol |
| SlotProgram.World.Persist | apps/worker/legacydoc_worker/processor.py:308-311 | stores the document unless one exists for (job, path); then the unique constraint throws |
| SlotProgram.DocumentFile | apps/worker/legacydoc_worker/processor.py:277-311 | the lease is lost exactly when the job is no longer held; otherwise the pipeline's outcome decides between passing over, throwing and storing, with the loop counters of each |
| SlotProgram.OneFile | apps/worker/legacydoc_worker/processor.py:265-311 | a file is passed over exactly when its language is not recognised, and counted as stored exactly when it was stored before the loop and its language is recognised |
| SlotProgram.DocumentFiles | apps/worker/legacydoc_worker/processor.py:239-313 | whatever others do in between, the loop is a legal run of the protocol, ends in its verdict, and returns the count that verdict carries |
| SlotProgram.World.ReportStage | apps/worker/legacydoc_worker/processor.py:203-208 | a heartbeat before the files are known renews the lease exactly when the slot still holds the job |
| SlotProgram.Prepare | apps/worker/legacydoc_worker/processor.py:131-146 | up to two such heartbeats, at 5 and 10 percent, leave the attempt where it was, whatever they answer |
| SlotProgram.Execute | apps/worker/legacydoc_worker/runner.py:90-140 | an attempt, heartbeats before the loop included, is a legal run with exactly one finisher, its last event, or with none when a commit threw |
| SlotProgram.ClaimAndRun | apps/worker/legacydoc_worker/runner.py:72-88 | claim in either form, then the attempt: at most one finisher, and one exactly when it reports; with nothing to take the one-statement form changes nothing |
| Resume.RunKeepsBooks | apps/worker/legacydoc_worker/processor.py:259-313 | in every reachable state each slot's counters agree with the stored documents |
| Resume.NoPathIsStoredTwice | packages/core/legacydoc_core/models.py:254-261 | across all attempts of all slots no path of a job gets two documents, and only recognised languages get one |
| Resume.CreatedNeverExceedsStored | apps/worker/legacydoc_worker/processor.py:260-313 | `documents_created` is at most the number of the job's files that have a stored document |
| Resume.CreatedEqualsStored | apps/worker/legacydoc_worker/processor.py:260-313 | it is equal when the paths are distinct, the loop reaches its end and no other slot writes for the job meanwhile |
| Resume.StoredPathsAreNotDocumentedAgain | apps/worker/legacydoc_worker/processor.py:263-273 | what a slot knows to be stored never reaches its pipeline, in any continuation |
| Resume.ResumeSkipsStoredPaths | apps/worker/legacydoc_worker/processor.py:315-318 | a path committed before an attempt starts never reaches the pipeline in it |
| Resume.LostAttemptCommitsAtMostOnce | apps/worker/legacydoc_worker/processor.py:277-311 | an attempt whose lock is gone commits no more than the file it has in the pipeline |
| Resume.LostSlotStoresAtMostOne | apps/worker/legacydoc_worker/processor.py:285-311 | from any reachable state: at most one further document, and none if no file was in the pipeline |
| RateLimit.WaitIsExact | packages/core/legacydoc_core/ratelimit.py:115-130 | after a refusal and no other request, a wait is admitted if and only if it is longer than the closed form, across window rollovers |
| RateLimit.RetryAfterIsExactToOneSecond | packages/core/legacydoc_core/ratelimit.py:115-134 | any wait longer than the header is admitted, any wait of at most the header less one second is refused, and the header is at least one |
| RateLimit.WaitingExactlyTheAdvertisedTime | packages/core/legacydoc_core/ratelimit.py:65-80 | waiting exactly the advertised seconds is admitted if and only if the exact wait is zero or not a whole number |
| RateLimit.AdvertisedTimeCanStillBeRefused | packages/core/legacydoc_core/ratelimit.py:65-134 | with three requests per 64 seconds spent at second 1000 the header says 24, and at second 1024 the estimate is three and refused |
| Limiter.ObeyingTheHeaderCanBeRefused | packages/core/legacydoc_core/ratelimit.py:58-134 | the same history from a new limiter on: three admitted, a fourth told to wait 24 seconds, and refused after exactly that |
| Limiter.RefusalIsExact | packages/core/legacydoc_core/ratelimit.py:58-80 | a refusal answers with no remainder and a wait of at least a second; a check of the key after any longer wait is let through, and after any wait shorter by a second refused |
| Limiter.AdmissionIsExact | packages/core/legacydoc_core/ratelimit.py:58-80 | an admission answers with no wait; of the checks of the key that follow at the same instant exactly as many are let through as its remainder says |
| RateLimit.RemainingIsExact | packages/core/legacydoc_core/ratelimit.py:74-80 | `remaining` is how many more requests at the same moment would be admitted, no more and no fewer |
| Limiter.MakeRule | packages/core/legacydoc_core/ratelimit.py:22-26 | a rule is accepted exactly when it allows a request and its window is positive |
| Limiter.SlidingWindowRateLimiter.constructor | packages/core/legacydoc_core/ratelimit.py:48-56 | starts with no key tracked |
| Limiter.SlidingWindowRateLimiter.Check | packages/core/legacydoc_core/ratelimit.py:58-80 | the answer and the new tracker that the laws below are about; a refusal has no remainder and a wait of at least a second, an admission no wait; never more keys than the capacity; a capacity below one makes it fail on its own eviction |
| Limiter.SlidingWindowRateLimiter.StateFor | packages/core/legacydoc_core/ratelimit.py:85-97 | the key becomes the most recent, its counters rolled to the window, and the least recent keys beyond the capacity go |
| Limiter.SlidingWindowRateLimiter.EvictIfOverCapacity | packages/core/legacydoc_core/ratelimit.py:110-112 | drops from the old end until the capacity is met and keeps the order of the rest |
| Limiter.SlidingWindowRateLimiter.Reset | packages/core/legacydoc_core/ratelimit.py:82-83 | forgets every key |
| Limiter.SlidingWindowRateLimiter.TracksTheMostRecent | packages/core/legacydoc_core/ratelimit.py:85-112 | a checked key is still tracked if and only if fewer than the capacity of distinct other keys were checked since |
| Limiter.RecentExactlyWhenFewOthers | packages/core/legacydoc_core/ratelimit.py:95-112 | the same law of recency lists, for every history |
| LimiterLog.CountersRefineTheLog | packages/core/legacydoc_core/ratelimit.py:58-108 | over every run, the two counters of a tracked key are the numbers of its admitted requests in the current and the previous aligned window of a full log, and the decision is the weighted rule over that log |
| LimiterLog.HeaderIsKept | packages/core/legacydoc_core/ratelimit.py:58-112 | over every run, and whatever other keys are checked after a refusal: longer waits are let through, and waits shorter by a second refused for as long as the key is tracked |
| LimiterLog.NoWindowExceedsTheRule | packages/core/legacydoc_core/ratelimit.py:65-74 | no aligned window ever admits more than `max_requests` while a key is tracked |
| LimiterLog.NoWindowOfTheWholeLogExceedsTheRule | packages/core/legacydoc_core/ratelimit.py:65-74 | for a key never forgotten, the same over its whole history |
| Billing.DrainTakesExactly | packages/core/legacydoc_core/billing.py:237-243 | a drain takes exactly min(pending, credit) and changes no ceiling |
| Billing.DrainsInOrder | packages/core/legacydoc_core/billing.py:237-243 | a grant is touched only when every grant before it is down to zero |
| Billing.DrainComposes | packages/core/legacydoc_core/billing.py:237-243 | draining a and then b leaves the grants that draining a+b leaves |
| Billing.SettlingTwiceIsSettlingOnce | packages/core/legacydoc_core/billing.py:192-246 | so does draining again over the freshly queried list, from which emptied grants are missing |
| Billing.ActiveCreditIsUnexpired | packages/core/legacydoc_core/billing.py:192-207 | the queried grants hold exactly the unexpired credit |
| Billing.CreditCountsUntilItExpires | packages/core/legacydoc_core/billing.py:192-207 | what counts as credit at a moment and what has expired by then add up to all that remains |
| Settlement.OneSettlement | packages/core/legacydoc_core/billing.py:210-246 | one settlement debits min(new overflow, unexpired credit), from unexpired grants only, a grant only after those that expire earlier, or with it but older, are empty |
| Settlement.DebitsFitTheSettledOverflow | packages/core/legacydoc_core/billing.py:210-246 | never overcharged: over any run of spends, settlements, purchases, expiries and ceiling changes `settled_usd` is the running maximum of the overflows seen, and debits never exceed it |
| Settlement.ForgivenOverflowIsNeverCharged | packages/core/legacydoc_core/billing.py:213-215 | overflow forgiven once is not taken from credit bought later |
| Settlement.GrantsStayWithinCeilings | packages/core/legacydoc_core/billing.py:241-243 | every grant keeps 0 <= remaining <= ceiling in every run |
| Settlement.AvailableAfterAnyInterleaving | packages/core/legacydoc_core/billing.py:267-311 | for fixed unexpired grants and ceiling, after any interleaving ending in a settlement, available is max(0, ceiling + initial credit - what was spent before the run and its costs in it) |
| Settlement.SpentIsTheCosts | apps/worker/legacydoc_worker/processor.py:403-420 | over every run the month's spend grows by the sum of the recorded costs, and by nothing else |
| AllMonths.DebitsFitTheMarksOfAllMonths | packages/core/legacydoc_core/billing.py:210-246 | over any run through any months, marks only grow and all debits from the shared grants fit into the sum of the marks of all months |
| AllMonths.CostsStayInTheirMonth | packages/core/legacydoc_core/billing.py:182-189 | over every run through any months a cost is counted in its own month and in no other |
| BillingAccount.UserRows.RecordUsage | apps/worker/legacydoc_worker/processor.py:402-418 | a usage record adds its cost to its month and nothing to any other |
| BillingAccount.UserRows.ActiveGrants | packages/core/legacydoc_core/billing.py:192-207 | lists exactly the unexpired, funded grants, once each, by (expires_at, created_at) |
| BillingAccount.UserRows.SettleOverflow | packages/core/legacydoc_core/billing.py:210-246 | the tables after it are one settlement of the month, in an order the query allows; other months keep their mark |
| BillingAccount.UserRows.BalanceFor | packages/core/legacydoc_core/billing.py:279-310 | settles, then reports plan and credit left, which add up to what is available |
| BillingAccount.UserRows.GrantCredit | packages/core/legacydoc_core/billing.py:313-336 | a purchase is one new full grant whose ceiling in dollars matches the credits at the exchange rate and which expires the given number of months later; a zero rate fails and adds nothing |
| Calendar.AddMonthsCountsMonths | packages/core/legacydoc_core/billing.py:169-175 | lands exactly that many months on, on a real date, on the largest day not after the given one |
| Calendar.NextMonthIsOneMonthOn | packages/core/legacydoc_core/billing.py:153-162 | the next month's start is one month after this month's start, and the moment lies between them |
| Calendar.AddMonthsRoundTrip | packages/core/legacydoc_core/billing.py:169-175 | going there and back returns the date if and only if the day exists in the month between |
| Calendar.AddMonthsKeepsOrder | packages/core/legacydoc_core/billing.py:169-175 | whole dates never swap |
| Calendar.MomentsSwapExactlyWhen | packages/core/legacydoc_core/billing.py:169-175 | the later of two purchases expires earlier if and only if they fall on different days of one month that the target month cuts to its last day, and its time of day is the smaller |
| Calendar.LaterPurchaseCanExpireEarlier | packages/core/legacydoc_core/billing.py:329 | credit bought on 29 February 2024 at 01:00 expires before credit bought the evening before |
| Calendar.InstantsFollowMoments | packages/core/legacydoc_core/billing.py:169-175 | on the time line that orders grants, instants compare as dates and times of day do |
| Symbols.CyclomaticComplexity | packages/parsing/legacydoc_parsing/symbols.py:310-327 | the explicit stack computes one plus the branch points of the whole subtree, counted recursively |
| Symbols.ComplexityCountsDecisions | packages/parsing/legacydoc_parsing/symbols.py:310-327 | what is counted is the number of branching statements and stand-alone logical operators among all nodes of the subtree |
| Symbols.KindIsOfTheFirstRule | packages/parsing/legacydoc_parsing/symbols.py:199-210 | a container's kind is that of the first rule one of whose parts stands in its syntax kind or whose names list it, and a class if there is none |
| Symbols.BuildSymbol | packages/parsing/legacydoc_parsing/symbols.py:213-241 | no symbol without a name; otherwise the node's name, its lines counted from one, its bytes and signature, a function with text and complexity, a container with its header |
| Symbols.Collect | packages/parsing/legacydoc_parsing/symbols.py:162-196 | the appending walk returns the symbols the laws below are about |
| Symbols.CollectedIsLaminar | packages/parsing/legacydoc_parsing/symbols.py:162-196 | on any well-formed tree two collected ranges are apart in order or nested, and the outer one of a nested pair is a container |
| Symbols.CollectedIsSorted | packages/parsing/legacydoc_parsing/symbols.py:156-157 | the walk is already in byte order: the sort after it changes nothing |
| Symbols.EverySymbolIsCollected | packages/parsing/legacydoc_parsing/symbols.py:166-194 | every named function or container with no function above it is collected |
| Symbols.EveryCollectedIsASymbol | packages/parsing/legacydoc_parsing/symbols.py:166-194 | and nothing else is |
| Symbols.EverySymbolIsShown | packages/parsing/legacydoc_parsing/symbols.py:213-241 | such a node is collected with its name, its lines counted from one, its bytes, its signature, its text or header and its complexity |
| Symbols.EveryCollectedShowsItsNode | packages/parsing/legacydoc_parsing/symbols.py:213-241 | and each collected symbol shows these of the node it stands at |
| Symbols.SitesAreInOrder | packages/parsing/legacydoc_parsing/symbols.py:164-196 | nothing is collected twice, and the order is that of the text |
| Symbols.ParentIsTheDottedChain | packages/parsing/legacydoc_parsing/symbols.py:175-192 | a symbol's parent is the names of its named containers, outermost first, joined by dots, or none |
| Symbols.ParseFile | packages/parsing/legacydoc_parsing/symbols.py:143-159 | a missing grammar gives a failed parse without symbols; a tree gives its laminar family of symbols |
| Chunking.PackSymbols | packages/parsing/legacydoc_parsing/chunking.py:36-75 | the loop renders exactly the greedy split, run by run |
| Chunking.FirstRunIsLongest | packages/parsing/legacydoc_parsing/chunking.py:54-70 | each greedy run is the longest that may be sent |
| Chunking.PackIsSplit | packages/parsing/legacydoc_parsing/chunking.py:50-75 | the greedy runs are in budget or a single symbol, and joined end to end are the symbols |
| Chunking.PackIsOptimal | packages/parsing/legacydoc_parsing/chunking.py:50-75 | no other split into contiguous runs, each in budget or a single symbol, has fewer chunks |
| Chunking.FewerSymbolsFewerChunks | packages/parsing/legacydoc_parsing/chunking.py:50-75 | leaving out leading symbols never costs a chunk |
| Chunking.ChunksAreLossless | packages/parsing/legacydoc_parsing/chunking.py:50-75 | the chunks' symbol lists concatenate to the file's symbols, none is empty, and indices run from zero |
| Chunking.LinesCover | packages/parsing/legacydoc_parsing/chunking.py:89-98 | a chunk's line range covers each of its symbols and is tight at both ends |
| Chunking.ChunksShowTheirSymbols | packages/parsing/legacydoc_parsing/chunking.py:50-119 | every chunk of a file has the header first, lines that cover its symbols and are tight, the text of each symbol in full unless marked as cut, and is cut just when its one symbol is longer than the budget's characters |
| Chunking.HeaderTellsTheFile | packages/parsing/legacydoc_parsing/chunking.py:78-86 | the header names the file, its language and the first forty symbols, each behind its label |
| Chunking.ChunkTokensAreBounded | packages/parsing/legacydoc_parsing/chunking.py:46-75 | a chunk of k symbols has at most header + budget + k/2 estimated tokens |
| Chunking.OversizedChunkIsBounded | packages/parsing/legacydoc_parsing/chunking.py:101-119 | an oversized symbol is sent whole, or as a marked prefix that fills the budget, and exceeds header and budget by little more than the mark |
| Chunking.HalfATokenEachIsReached | packages/parsing/legacydoc_parsing/chunking.py:89-98 | that bound is reached for every k |
| Chunking.BudgetIsKeptExactlyWhen | packages/parsing/legacydoc_parsing/chunking.py:46-75 | under a given header, and above any minimum budget, all in-budget chunks of k symbols stay within header and budget if and only if 9k + (5 * header length mod 18) is below 28 |
| Chunking.BudgetIsKeptExactlyByOneSymbol | packages/parsing/legacydoc_parsing/chunking.py:36-75 | over all files and limits, every in-budget chunk of k symbols that `build_chunks` returns stays within header and budget if and only if k is one; without the file header, if and only if k is at most three |
| Chunking.BuiltChunkExceedsItsBudget | packages/parsing/legacydoc_parsing/chunking.py:36-75 | for 256 symbols of seven characters under the minimum budget, `build_chunks` returns one chunk at least 127 tokens over |
| LineChunks.FallbackLineChunks | packages/parsing/legacydoc_parsing/chunking.py:122-160 | the loop returns the cuts the laws below are about |
| LineChunks.FallbackLosesOnlyBlankLines | packages/parsing/legacydoc_parsing/chunking.py:122-160 | on every file and limit, the chunk texts and the dropped tail joined by line breaks are the source, and the tail is blank |
| LineChunks.RangesAreContiguous | packages/parsing/legacydoc_parsing/chunking.py:131-158 | ranges follow each other from line 1 without gap or overlap; each ends at the first line that reaches the limit, unless it ends the file |
| LineChunks.BuildChunks | packages/parsing/legacydoc_parsing/chunking.py:36-75 | with symbols the greedy chunks, without symbols the line split, each with its law |
| Anchoring.LastNamedIsTheLast | packages/agents/legacydoc_agents/pipeline.py:539-550 | a name means the last span that has it as bare name, as dotted name or under its last parent, if any has |
| Anchoring.LastSegmentMeans | packages/agents/legacydoc_agents/pipeline.py:548 | the last segment of a dotted name is what follows its last dot |
| Anchoring.AliasesOfNested | packages/agents/legacydoc_agents/pipeline.py:539-550 | a nested symbol answers to its bare name, its full dotted name and its name under the last parent, and to nothing else |
| Anchoring.SpansByName | packages/agents/legacydoc_agents/pipeline.py:539-550 | the index answers every name with that span |
| Anchoring.Enrich | packages/agents/legacydoc_agents/pipeline.py:472-510 | splits a model's answer into what is kept and the names dropped |
| Anchoring.KeptIsAnchored | packages/agents/legacydoc_agents/pipeline.py:486-510 | whatever the model wrote, what is kept has name and lines of a span of the chunk, and every answer is kept or reported |
| Anchoring.KeptTakesItsFactsFromTheSpan | packages/agents/legacydoc_agents/pipeline.py:486-508 | what is kept is some answer with the span's name, lines and complexity, the span's parent where it has one, its own signature unless empty, and its prose untouched |
| Anchoring.NamedDocsAreKept | packages/agents/legacydoc_agents/pipeline.py:486-508 | a document that names a span in any of its ways is kept, at its place among the answers, with the facts of the last span it names |
| Anchoring.WinnerIsFirstLongest | packages/agents/legacydoc_agents/pipeline.py:519-526 | among documents of one (name, parent) the first of the longest descriptions wins |
| Anchoring.DedupeKeepsTheFirstLongest | packages/agents/legacydoc_agents/pipeline.py:517-528 | exactly the winners remain, one per (name, parent), sorted by first line and name |
| Anchoring.OneDocumentEach | packages/agents/legacydoc_agents/pipeline.py:517-528 | no two documents of one name and parent are left, for every document one at least as long is, and lines and then names are in order |
| Anchoring.SortingIsStable | packages/agents/legacydoc_agents/pipeline.py:528 | documents that share line and name keep the order in which they came |
| Anchoring.StringLessMeans | packages/agents/legacydoc_agents/pipeline.py:528 | names compare by the first character in which they differ |
| Anchoring.DedupeSymbols | packages/agents/legacydoc_agents/pipeline.py:517-528 | the dictionary loop and the sort compute that list |
| Review.RewriteRejected | packages/agents/legacydoc_agents/pipeline.py:335-388 | the new symbol list that the laws below are about, from the answers in the order they finish |
| Review.RewritingStaysAnchored | packages/agents/legacydoc_agents/pipeline.py:365-388 | a rewrite round keeps count and names, leaves what was not rejected alone, and writes only lines of a symbol of the same name |
| Review.RewriteTakesEffect | packages/agents/legacydoc_agents/pipeline.py:365-388 | where an answer for a rejected symbol has a candidate of its name, the symbol becomes the last candidate of the last such answer, in the candidate's words, with lines, language and complexity of the symbol it was asked for |
| Review.UnansweredStays | packages/agents/legacydoc_agents/pipeline.py:365-388 | a symbol for whose name there is no such answer stays as it is |
| Review.PlacesKeepTheirLinesExactlyWhen | packages/agents/legacydoc_agents/pipeline.py:376-388 | every place is sure to keep its own lines if and only if rejected symbols of one name have the same lines |
| Review.ReviewLoop | packages/agents/legacydoc_agents/pipeline.py:288-333 | the loop leaves the result that the recursive review defines, and counts its audits |
| Review.ReviewIsBounded | packages/agents/legacydoc_agents/pipeline.py:297-333 | at most `max_review_rounds` rewrites, each asked for by an audit, and one audit more than rewrites |
| Review.ReviewReports | packages/agents/legacydoc_agents/pipeline.py:297-333 | verdict and feedback reported are those of the last audit that was answered, and there is one warning if and only if the last audit failed or rejected symbols with no round left |
| Review.NeverRejectedStays | packages/agents/legacydoc_agents/pipeline.py:326-388 | a symbol that no audit rejects leaves the loop as the writer wrote it |
| Review.ReviewStaysAnchored | packages/agents/legacydoc_agents/pipeline.py:288-388 | over all rounds the symbol count, every name and the set of lines given are kept |
| Review.ProcessChunks | packages/agents/legacydoc_agents/pipeline.py:204-235 | gathers what each answered chunk keeps, in order, deduplicated, counts the failed ones, and lists the names that no chunk could anchor |
| Review.EveryAnswerIsAccountedFor | packages/agents/legacydoc_agents/pipeline.py:213-222 | over all chunks, every document that a writer gave is gathered or its name is listed |
| Review.DocumentationIsAnchored | packages/agents/legacydoc_agents/pipeline.py:288-388 | end to end, for any answers: every symbol of the final documentation has the name and lines of a span of the file |
| Review.Run | packages/agents/legacydoc_agents/pipeline.py:78-152 | the run cuts the file, drafts from the answered chunks and reviews where due; its result is such documentation, within the round limit, with the warnings due, and it fails exactly when no chunk of a file with symbols was answered |
| Lockout.User.Login | apps/api/legacydoc_api/routers/auth.py:88-127 | reply and new counters of one login |
| Lockout.GrantedExactlyWhen | apps/api/legacydoc_api/routers/auth.py:88-127 | a login is granted if and only if the password is right, the account active and not locked, and then clears counter and lock; a wrong password counts if and only if the account is not locked; nothing else leaves a trace |
| Lockout.LockHolds | apps/api/legacydoc_api/routers/auth.py:100-104 | over any run, whatever is tried before the lock ends leaves counter and lock as they are |
| Lockout.LockDoublesUpToADay | packages/core/legacydoc_core/security.py:132-145 | from the fifth failure on the lock starts at 15 minutes, doubles with each failure, and is a day from the twelfth on |
| Lockout.CounterCountsWrongPasswords | apps/api/legacydoc_api/routers/auth.py:99-113 | over any run without success the counter is the number of wrong passwords that were looked at; attempts made while locked never change it |
| Lockout.CounterCountsSinceSuccess | apps/api/legacydoc_api/routers/auth.py:99-127 | over any run, successes included, the counter is the number of wrong passwords looked at since the last success |
| Lockout.WrongPasswordsAreSpacedOut | packages/core/legacydoc_core/security.py:137-156 | a wrong password looked at after n others comes at least the sum of the locks for 1 to n failures after the first |
| Lockout.TheBoundIsReached | packages/core/legacydoc_core/security.py:137-156 | for every n a run meets that bound exactly |
| Overlap.CounterCountsExactlyWhen | apps/api/legacydoc_api/routers/auth.py:88-127 | with logins that read the row and write it back later, over any run without success the counter never exceeds the number of wrong passwords, and equals it if and only if no failure is recorded between another failing login's read and write |
| Overlap.TurnsAreSteps | apps/api/legacydoc_api/routers/auth.py:88-127 | a run in which failing logins take turns has the row, the count and the clock of a run of single-step logins |
| Overlap.SuccessClearsExactlyWhen | apps/api/legacydoc_api/routers/auth.py:121-127 | with anything between its read and its write, a success leaves the counter at zero if and only if it was not zero when read or is zero when written, and the lock column likewise |
| PasswordReset.TokensAreSingleUse | apps/api/legacydoc_api/routers/auth.py:219-249 | over every interleaving a token changes the password at most once, and never once it is spent |
| PasswordReset.RunExtends | apps/api/legacydoc_api/routers/auth.py:158-268 | spent stays spent at its time, revoked stays revoked, owners and expiries never change |
| PasswordReset.ResetUnlocksExactlyWhen | apps/api/legacydoc_api/routers/auth.py:237-257 | with anything between read and claim, a reset leaves the lock column empty if and only if it was set when read, by an expired lock or another, or is empty when claimed; likewise the counter is zero if and only if it was not zero when read or is zero when claimed |
| PasswordReset.LockCanSurviveAReset | apps/api/legacydoc_api/routers/auth.py:237-257 | five wrong passwords in between leave the account locked under its new password |
| PasswordReset.LoginsFollowLockout | apps/api/legacydoc_api/routers/auth.py:88-127 | between resets and activations, over every run of the store, a user's login columns go through a run of Lockout |
| PasswordReset.ActivationStartsAfresh | apps/api/legacydoc_api/routers/admin.py:281-289 | activating an account clears counter and lock, deactivating leaves them |
| PasswordReset.PasswordIsTheLastSet | apps/api/legacydoc_api/routers/auth.py:211-253 | over any run an account's password is the one set by the last claim that found a token of that account unspent, or the first one |
| PasswordReset.AfterAReset | apps/api/legacydoc_api/routers/auth.py:240-268 | from the claim on and in every continuation, tokens and confirmations from before a reset are useless and keys from before it are revoked |
| PasswordReset.KeyIsLiveExactlyWhen | apps/api/legacydoc_api/routers/auth.py:254-268 | over every run a new key is live if and only if neither it was revoked nor its owner's password reset |
| PasswordReset.RunKeepsOneUnspent | apps/api/legacydoc_api/routers/auth.py:169-189 | at most one unspent token per account in every reachable state |
| PasswordReset.LinksAreAMinuteApart | apps/api/legacydoc_api/routers/auth.py:344-360 | over any run, of two links sent to one account the second comes at least 60 s after the first, unless the first was spent before |
| PasswordReset.EveryChangeHasItsLink | apps/api/legacydoc_api/routers/auth.py:211-253 | every password change goes back to a link sent to that account and read, unspent, less than 30 minutes after it was sent |
| PasswordReset.LinksNeedAnActiveUser | apps/api/legacydoc_api/routers/auth.py:165-239 | links are sent to active users only, and read for active users only, unspent and in time |
| AccountStore.Tables.RequestPasswordReset | apps/api/legacydoc_api/routers/auth.py:158-196 | sends exactly when due; the tables take the request step |
| AccountStore.Tables.ReadResetToken | apps/api/legacydoc_api/routers/auth.py:219-238 | accepts exactly an unspent, unexpired token of an active account |
| AccountStore.Tables.ClaimResetToken | apps/api/legacydoc_api/routers/auth.py:240-268 | says claimed exactly when its guarded update changed the password; clears only the login columns that were set when read |
| AccountStore.Tables.LogIn | apps/api/legacydoc_api/routers/auth.py:88-127 | a login on the same tables is the login step of the store |
| AccountStore.Tables.ConfirmPasswordReset | apps/api/legacydoc_api/routers/auth.py:211-270 | whatever others do between read and claim, the whole is a run of the store, and it succeeds exactly when that run counts one more use of the token |

## Left out

- HTTP, schemas, CORS, e-mail, webhooks, metrics, CLI, exporters, migrations and the front end: input and output with no hard property. A webhook may report success after a lost lease; no claim is made about it.
- Providers, prompts, JSON repair and routing: models' answers are arbitrary values here.
- Tree-sitter, name resolution and signature extraction: trees, names, headers and signatures are given.
- Real SQL locking and isolation: replaced by atomic steps and the reading assumption above.
- Floating point: `real` for money and windows, exact rationals for tokens; rounding is not modelled.
- Hashing, JWT, archive and git handling, quota checks before enqueueing.
- Columns nothing here depends on: `started_at`, progress and error messages, `last_used_at`, `requested_ip`, usage telemetry apart from its cost.
- Deleting jobs, users and documents: rows are never removed.
- Out-of-range years in month arithmetic, which Python rejects: years are unbounded.
- Review.ProcessChunks: findings (`_anchor_findings`, `_dedupe_findings`) are not modelled, nor are the reader and the summary; they would repeat the laws of symbols.
- Symbol documents are values. The source updates the objects of a model's answer in place and may share one object between two places after a rewrite; no later step of the pipeline changes it there, so sharing is not observable in what is modelled.
- The texts of warnings in a pipeline result: they are counted, not spelled out.
- BillingAccount.UserRows.BalanceFor: the balance in dollars; its conversion to credits in BRL and the list of top-ups are not modelled.
- PasswordReset.RunKeepsOneUnspent: takes a request for a link as one step, so two requests overlapping inside the transaction are not modelled.
- PasswordReset.LinksAreAMinuteApart: takes a request for a link as one step, likewise.
- Lockout.CounterCountsWrongPasswords: takes logins of one account one at a time; Overlap says when that is sound.
- Lockout.WrongPasswordsAreSpacedOut: takes logins of one account one at a time; Overlap says when that is sound.
- LimiterLog.CountersRefineTheLog: assumes one rule per key and a clock that does not run backwards.
