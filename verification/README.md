# o4x in Dafny

o4x is a transactional outbox. Applications insert events into a table in their own transactions; dispatcher workers
claim rows, publish them to SQS and record the outcome; idempotent consumers take each event into effect once. This
project models the parts of o4x that are hard to get right and proves what they promise. `dafny verify dfyconfig.toml`
checks everything.

| module | what it models |
|---|---|
| `OutboxTable` | rows, statuses and the SQL statements as functions from table to table |
| `Protocol` | the outbox as a step system: workers with possibly stale snapshots, crashes, lost replies, revive, requeue, cleanup |
| `Accounting` | invariants of every reachable state: attempt counts, truthful terminal statuses, conservation, termination |
| `Pacing` | how early a row can be claimed for the k-th time |
| `Liveness` | timed mutual exclusion, and exactly when a row can still reach a terminal status |
| `Delivery` | exactly which rows can still become PUBLISHED |
| `Oversize` | the fate of a payload over the broker's limit, over whole runs |
| `ClaimOrder` | claiming n rows against n single claims |
| `Repository` | the repository object, one statement per method |
| `Errors`, `Truncation`, `Utf8` | error trees and their retry verdict; UTF-8-safe truncation, and that its validity test accepts exactly the encodings |
| `Publisher`, `MultiQueue`, `Router` | batch publishing to one and to many queues, and the longest-prefix router |
| `Dispatcher`, `BatchRefinement`, `WorkerRuns` | the single and the batch worker, why they agree, and why both are runs of the step system |
| `Consumer`, `Handler` | redelivery, concurrent deliveries and the transactional inbox as a step system; the handlers themselves and why their calls are runs of it |
| `System` | outbox, queue and consumers in one step system: end-to-end conservation and the exactly-once effect |
| `Inventory` | the example application's orders and stock |
| `Timing` | 64-bit backoff and adaptive polling |

## What the proofs found

- A slow worker can strand its row. If a claim is revived and the row is claimed again up to its last attempt but one,
  a late retryable failure resolved from the old snapshot makes the row FAILED with `attempt_count = max_attempts`, and
  no statement ever touches it again (`Liveness.StrandedForever`). This can happen if and only if `max_attempts` is 3
  or more (`Liveness.StrandableIffThreeAttempts`). A run strands a row if and only if it contains such a failure
  (`Liveness.RunStrandsIff`), so not while every failure comes from the row's latest claim
  (`Liveness.FreshRunsNeverStrand`), and not while claims are resolved within the stuck threshold, floored to whole
  seconds (`Liveness.TimelyRunKeeps`).
- An event is claimed at most `max(1, max_attempts - 1)` times (`Accounting.ClaimBudget`).
- In the example application an order can be confirmed twice once its `order.confirmed` outbox row has been cleaned up,
  and the second confirmation takes another order's stock (`Inventory.SecondConfirmationHappens`).
- The Go helper `CalculateNextRetryAt` overflows early: with a base of one second the delay is negative at attempt 34
  and zero from attempt 55 on (`Timing.OneSecondFailsEarly`). `Timing.BackoffExactIff`, `Timing.BackoffNegativeIff` and
  `Timing.BackoffVanishesIff` say exactly when it is right, negative or zero. The SQL computes its own delay.

## Where the code and its documentation disagree

The model follows the code.

- `attempt_count` starts at 1 (schema/schema.go:32); docs/DATABASE.md:28 says 0.
- The delay after the j-th claim uses 2^j, because `SET` reads the old row (contrib/pgx/repo.go:51-63); the comments at
  contrib/pgx/repo.go:316 and core/batch_dispatcher.go:49 say otherwise.
- DEAD is entered only from PUBLISHING; line 101 of o4x's own README draws FAILED to DEAD.
- With `max_attempts = 5` an event is claimed four times; line 109 of o4x's README speaks of five consecutive failures.
- Stuck rows are revived only when a dispatcher starts, concurrently with its workers (core/batch_dispatcher.go:215-229).
- Prefixes are matched longest first (contrib/sqs/publisher.go:182-208), not in registration order (line 623 of o4x's
  README).

## Assumptions

- `max_attempts >= 1`; a database clock that does not run backwards; no row is changed by hand.
- Each SQL statement is atomic and happens at one instant; transactions commit as a whole and unique keys hold. Time is
  a real number of seconds; where PostgreSQL draws a random factor, the model takes any value in [1/2, 1).
- The cleaner deletes only PUBLISHED and DEAD rows. Outbox ids are distinct, and for the exactly-once effect different
  ids parse to different UUIDs.
- Queues behave as Standard queues: a message stays until it is deleted and may be delivered any number of times,
  concurrently. FIFO group and deduplication ids are put on the wire but the broker does nothing with them.
- A Go string or byte slice is a Dafny `string` with one character per byte.

## Model

| member | source | states |
|---|---|---|
| `Accounting.StepKeepsInv` | contrib/pgx/repo.go:27-145 | every statement and every worker action, enabled in any order, keeps the whole invariant: contents, counts, truth, conservation, live claims and the unique key |
| `Accounting.RunKeepsInv` | contrib/pgx/repo.go:27-145 | the invariant holds after every finite run |
| `Accounting.StepKeepsCount` | contrib/pgx/repo.go:51-116 | no step, stale resolves included, breaks the exact relation between attempt_count and the number of claims |
| `Accounting.StepKeepsTruth` | contrib/pgx/repo.go:46-71 | a row becomes PUBLISHED only if the broker took it, DEAD only after a permanent refusal or with its attempts used up |
| `Accounting.StepConserves` | core/worker.go:98-153 | no step loses a committed event or exceeds its claim budget |
| `Accounting.StepKeepsContent` | contrib/pgx/repo.go:21-145 | what was inserted for an event never changes |
| `Accounting.StepKeepsClaim` | core/worker.go:98-220 | a worker's snapshot is always some past claim of its row, with that claim's attempt_count and its instant |
| `Accounting.StepKeepsKeys` | schema/schema.go:77-79 | no two rows ever share event type and idempotency key |
| `Accounting.InsertCommitsIff` | contrib/pgx/repo.go:21-25 | an insert is committed if and only if no row has its event type and key |
| `Accounting.ChangeIsStamped` | contrib/pgx/repo.go:21-145 | rows are created at the insert's instant, and every change is stamped with its own |
| `Accounting.ColumnsStay` | contrib/pgx/repo.go:27-116 | the stored error and the retry time change only when a row leaves PUBLISHING for FAILED or DEAD |
| `Accounting.CleanDeletesIff` | contrib/pgx/repo.go:142-145 | the cleaner deletes exactly the rows with a listed status last changed longer ago than it is told |
| `Accounting.RecordMoves` | core/worker.go:115-122 | an event counts as accepted, or as refused for good, exactly if some publish of it was |
| `Accounting.DeathIsRecorded` | contrib/pgx/repo.go:65-71 | an event counts as dead exactly if its row has been DEAD |
| `Accounting.ClaimLives` | core/worker.go:98-153 | a claim lives exactly from the statement that makes it to the step that resolves or abandons it |
| `Accounting.AttemptAccounting` | contrib/pgx/repo.go:51-116 | in every run a PUBLISHING row has been claimed exactly attempt_count times, an ENQUEUED or FAILED row one time less, and attempt_count stays within max_attempts |
| `Accounting.ClaimBudget` | core/model.go:69-71 | in every run an event is claimed at most max(1, max_attempts - 1) times in its whole life |
| `Accounting.TruthAndConservation` | core/batch_dispatcher.go:359-457 | in every run terminal statuses are truthful, and every committed event is in progress, DEAD or accepted by the broker |
| `Accounting.StepFollowsDiagram` | contrib/pgx/repo.go:27-145 | the status diagram: a step leaves a row alone, takes one arrow with its effect on attempt_count, or deletes a terminal row |
| `Accounting.StepLowersPotential` | contrib/pgx/repo.go:46-116 | every change of a row strictly lowers 4 * (max_attempts - attempt_count) + rank |
| `Accounting.ChangesBounded` | contrib/pgx/repo.go:46-116 | from any reachable state a row changes at most as often as its potential says |
| `Accounting.LifetimeChangesBounded` | contrib/pgx/repo.go:21-116 | over its whole life, deleted or not, a row changes at most 4 * (max_attempts - 1) + 2 times |
| `Accounting.DeletedStaysDeleted` | contrib/pgx/repo.go:142-145 | a deleted row never comes back under its id |
| `Accounting.TerminalIsAbsorbing` | contrib/pgx/repo.go:46-71 | PUBLISHED and DEAD rows never change again in any run; they can only be deleted |
| `Pacing.DelayAtLeastHalf` | contrib/pgx/repo.go:55-60 | the jittered delay is between half and all of min(base * 2^n, cap) |
| `Pacing.BackoffDoubles` | contrib/pgx/repo.go:55-60 | the backoff starts at the base and doubles with every attempt until it reaches the cap |
| `Pacing.JitterSpreads` | contrib/pgx/repo.go:55-60 | every wait from half to all of the backoff comes up for some random draw |
| `Pacing.FailureHoldsBack` | contrib/pgx/repo.go:51-116 | a failure, recorded by a worker or by crash recovery, holds the row back for at least the wait of its attempt, for any waits that no retry delay undercuts |
| `Pacing.StepKeepsPace` | contrib/pgx/repo.go:51-116 | every step keeps past claims spaced and the next one held back |
| `Pacing.RunKeepsPace` | contrib/pgx/repo.go:51-116 | so does every run |
| `Pacing.WaitsAreRespected` | contrib/pgx/repo.go:55-60 | no retry delay undercuts half of min(base * 2^j, cap) |
| `Pacing.KthClaimIsDelayed` | contrib/pgx/repo.go:51-113 | in every run the k-th claim comes no earlier than the sum over j < k of half of min(base * 2^j, cap) after the first |
| `Liveness.StepKeepsHeld` | contrib/pgx/repo.go:93-116 | if revive runs only while all live claims were made within the floored threshold, every live claim's row stays exactly as it was handed out |
| `Liveness.SoleHolder` | contrib/pgx/repo.go:27-44 | then no row has two live holders |
| `Liveness.TimedMutualExclusion` | contrib/pgx/repo.go:475-490 | in every run in which no revive comes later after a live claim's instant than the floored threshold: snapshots are current, holders unique, workers' holdings disjoint, and revive leaves live claims alone |
| `Liveness.TimelyRunKeeps` | contrib/pgx/repo.go:93-135 | in a timely run every claim stays current, so every failure comes from its row's latest claim |
| `Liveness.StrandedExactlyByStaleFailure` | core/worker.go:167-214 | the exact step that strands a row: a retryable failure judged on an older claim's snapshot, landing on a row with one attempt left |
| `Liveness.StrandedForever` | contrib/pgx/repo.go:73-79 | a stranded row never changes again, in any run |
| `Liveness.LegMakesProgress` | contrib/pgx/repo.go:73-116 | for any other non-terminal row, time with requeue, a claim or revive takes it closer to the end |
| `Liveness.CanFinish` | contrib/pgx/repo.go:27-116 | so a run to a terminal status exists from every state in which the row is not stranded |
| `Liveness.FinishableIffNotStranded` | contrib/pgx/repo.go:73-116 | a row can still reach PUBLISHED or DEAD if and only if it is not stranded |
| `Liveness.RunStrandsIff` | core/worker.go:167-214 | a run leaves some row stranded if and only if one of its steps is a failure of that kind |
| `Liveness.FreshRunStrandsNone` | core/worker.go:167-214 | a run whose failures all come from the row's latest claim has no such step, whatever was revived and never resolved |
| `Liveness.FreshRunsNeverStrand` | contrib/pgx/repo.go:51-116 | after such a run every row can still reach PUBLISHED or DEAD |
| `Liveness.LateFailureCanStrand` | core/worker.go:167-214 | a worker sitting on a retryable failure with attempts to spare can always end up stranding its row |
| `Liveness.EnqueuedCanStrand` | core/batch_dispatcher.go:429-476 | any ENQUEUED row with two attempts to spare can end up stranded |
| `Liveness.StrandableIffThreeAttempts` | core/model.go:69-71 | some run strands an event if and only if its max_attempts is 3 or more |
| `Delivery.CanPublish` | core/worker.go:98-153 | constructs a run to PUBLISHED from every state that leaves a way open |
| `Delivery.StepKeepsLost` | contrib/pgx/repo.go:27-145 | no step gives a row without a way to PUBLISHED a way back |
| `Delivery.PublishableIff` | contrib/pgx/repo.go:27-145 | a row can still become PUBLISHED if and only if its payload fits and it is ENQUEUED, FAILED with attempts left, PUBLISHING with attempts to spare or with a live claim that has not failed, or PUBLISHED already |
| `Oversize.ResolvedAsDead` | contrib/sqs/publisher.go:46-58 | a refused oversize claim is never resolved as FAILED |
| `Oversize.StepKeepsTally` | core/worker.go:156-197 | every step keeps the number of claims of an oversize event in line with the times crash recovery has hit it |
| `Oversize.OversizeIsNeverSent` | contrib/sqs/publisher.go:46-58 | in every run an oversize event is never accepted and never PUBLISHED, and is claimed again only after crash recovery has hit it |
| `ClaimOrder.SingleClaimIsOldest` | contrib/pgx/repo.go:27-44 | a claim of one row takes an oldest ENQUEUED row |
| `ClaimOrder.ClaimEachIsClaimRows` | contrib/pgx/repo.go:118-135 | claiming rows one after the other ends in the table of one batch claim |
| `ClaimOrder.SuccessiveClaimsAreABatch` | contrib/pgx/repo.go:118-135 | what n oldest-first single claims take is a legal claim of n rows with the same table after it |
| `ClaimOrder.BatchClaimIffSuccessiveClaims` | contrib/pgx/repo.go:118-135 | a set of rows is a legal claim of n if and only if some n successive oldest-first claims take exactly it |
| `Repository.SelectOldest` | contrib/pgx/repo.go:120-126 | ORDER BY created_at LIMIT n picks distinct ENQUEUED rows, as many as there are up to n, none younger than one left out |
| `OutboxTable.WholeSeconds` | contrib/pgx/repo.go:484 | the threshold's whole seconds, rounded toward zero |
| `Repository.OutboxRepository.constructor` | contrib/pgx/repo.go:166-195 | a new repository over an empty table |
| `Repository.OutboxRepository.Insert` | contrib/pgx/repo.go:212-253 | inserts exactly if the id is free and no row has both the event type and the key; the row is then ENQUEUED at attempt 1, created now, with what was given; otherwise nothing changes |
| `Repository.OutboxRepository.FetchLockAndMarkPublishing` | contrib/pgx/repo.go:496-539 | returns distinct oldest rows as they stand after the claim, marks exactly those PUBLISHING at this instant, and leaves them out of reach of crash recovery for the floored threshold |
| `Repository.OutboxRepository.FetchAndLockToPublishing` | contrib/pgx/repo.go:259-293 | returns no message exactly if none is ENQUEUED, else an oldest one, PUBLISHING as of this instant and out of reach of crash recovery for the floored threshold |
| `Repository.OutboxRepository.UpdateToPublished` | contrib/pgx/repo.go:297-307 | succeeds exactly if the row was PUBLISHING, which is exactly if it changes; it is then PUBLISHED with its attempts kept, and no other row changes |
| `Repository.OutboxRepository.UpdateToFailed` | contrib/pgx/repo.go:313-327 | succeeds exactly if the row was PUBLISHING, which is exactly if it changes; it then has one attempt more and a retry time between half and all of min(base * 2^attempt_count, cap) ahead; no other row changes |
| `Repository.OutboxRepository.UpdateToDead` | contrib/pgx/repo.go:331-341 | the same for DEAD, where the attempts grow by at most one and never pass the limit |
| `Repository.OutboxRepository.UpdateBatchToPublished` | contrib/pgx/repo.go:545-558 | the count is the number of rows that change, and for distinct ids it equals their number if and only if all of them were PUBLISHING, so the dispatcher's partial-success test is exact |
| `Repository.OutboxRepository.RequeueFailed` | contrib/pgx/repo.go:348-356 | the count is the number of rows that change, each of them due, ENQUEUED afterwards with attempts left; all others stay, and no row is left due |
| `Repository.OutboxRepository.ReviveStuckPublishing` | contrib/pgx/repo.go:475-490 | exactly the rows in PUBLISHING for longer than the floored threshold change and are counted: DEAD without retry time exactly if that was their last attempt, else FAILED with one more and a retry time between half and all of min(base * 2^attempt_count, cap) ahead; no row is left stuck |
| `Repository.OutboxRepository.DeleteOlderThan` | contrib/pgx/repo.go:563-585 | refuses an empty status list; else exactly the rows with a listed status last changed longer ago than told are gone, and counted |
| `Errors.SearchIsPreorder` | core/errors.go:72-84 | the search for a retry verdict finds the first one in pre-order of the error tree |
| `Errors.RetryableIsFirstVerdict` | core/errors.go:72-156 | IsRetryable is the verdict of that node, delegated through a PublishError, and true without any |
| `Errors.WrappingKeepsVerdict` | core/errors.go:139-156 | no depth of plain or PublishError wrapping changes the decision |
| `Errors.EmptyPublishErrorIsFinal` | core/errors.go:154-156 | a PublishError without a cause is not retried, a plain error is |
| `Truncation.TruncateErrorMessage` | core/errors.go:215-239 | terminates for all bytes; text of at most 4000 bytes is unchanged, longer text becomes the longest valid prefix of its first 3985 bytes plus "... (truncated)" |
| `Truncation.LongestValid` | core/errors.go:229-236 | a valid prefix, and no longer prefix is valid |
| `Truncation.Truncated` | core/errors.go:215-239 | never more than 4000 bytes |
| `Truncation.BoundaryNearCut` | core/errors.go:229-236 | in valid text a character boundary lies at most 3 bytes before any cut |
| `Truncation.ValidTextLosesAtMostThreeBytes` | core/errors.go:229-239 | valid over-long text keeps between 3982 and 3985 of its bytes |
| `Truncation.TruncatedIsValid` | core/errors.go:215-239 | whatever bytes come in, an over-long message is stored as valid UTF-8 |
| `Utf8.EncodedIsFirst` | core/errors.go:234-236 | the validity test takes exactly the bytes of an encoded character, whatever follows |
| `Utf8.FirstIsEncoded` | core/errors.go:234-236 | what it takes is the encoding of some Unicode scalar value |
| `Utf8.ValidIffEncoded` | core/errors.go:234-236 | a text is valid if and only if it is the encoding, by section 3 of RFC 3629, of some sequence of scalar values |
| `Publisher.CollectReply` | contrib/sqs/publisher.go:344-355 | the maps built from a reply hold, for each id, its last mention, duplicates and unknown ids included |
| `Publisher.LastSentIffMentioned` | contrib/sqs/publisher.go:344-350 | an id has a message id exactly if it is listed as successful, and then that of its last mention |
| `Publisher.LastRefusalIsListed` | contrib/sqs/publisher.go:352-355 | an id has a refusal exactly if one is listed for it, and the error then names its code and message |
| `Publisher.ValidateSizes` | contrib/sqs/publisher.go:304-318 | oversize messages fail at their own position, all others become entries in input order |
| `Publisher.MapReply` | contrib/sqs/publisher.go:331-375 | each position gets the result its message deserves, as `Publisher.ExpectedIsPositional` describes it; an earlier error is never overwritten and other positions stay as they were |
| `Publisher.PublishBatch` | contrib/sqs/publisher.go:297-378 | total and positional for any reply: success iff the message fits and is listed successful in an error-free call; every failure carries an error whose retry verdict is that of the failed call, retryable for a refused or missing entry, final for an oversize message; the call holds exactly the messages that fit |
| `Publisher.ExpectedIsPositional` | contrib/sqs/publisher.go:297-378 | the pointwise specification gives callers what they rely on for any reply: success, message id, error, retry verdict and which refusal the error names |
| `Publisher.FifoIds` | contrib/sqs/publisher.go:108-133 | a queue is FIFO iff its URL ends in .fifo; there two messages share a group iff their event types agree and a deduplication id iff their keys do |
| `Publisher.NoEntriesMeansNoneFit` | contrib/sqs/publisher.go:320-323 | no call is made only if every message is too large |
| `MultiQueue.PositionsMeaning` | contrib/sqs/publisher.go:417-435 | a queue's group is exactly the positions routed to it, ascending |
| `MultiQueue.GroupByQueue` | contrib/sqs/publisher.go:417-435 | the groups cover every position and each is its queue's positions |
| `MultiQueue.OwnSlotsOnly` | contrib/sqs/publisher.go:461-535 | a goroutine that writes only its own slots keeps the shared results consistent with every other's progress |
| `MultiQueue.Advance` | contrib/sqs/publisher.go:461-535 | each critical section of a queue's goroutine does just that, and makes the one call due |
| `MultiQueue.PublishBatch` | contrib/sqs/publisher.go:417-451 | under every scheduling and map order the results are the pointwise specification on each message's own queue, and every queue with a message that fits gets exactly one call with those in input order |
| `MultiQueue.EntriesAreMessages` | contrib/sqs/publisher.go:461-480 | every entry of a call is a message that fits, so an oversize one is never sent |
| `MultiQueue.EntriesAreDistinct` | contrib/sqs/publisher.go:461-480 | distinct messages give distinct entry ids |
| `MultiQueue.EffectiveBatchSize` | core/batch_dispatcher.go:140-174 | the largest batch size that the publisher and, if it is set, the option allow |
| `MultiQueue.CallsAreWithinLimits` | core/batch_dispatcher.go:140-174 | under that clamp every queue's call has at most 10 entries, all distinct, and without the option the batch size is 10 |
| `Router.RemovePrefix` | contrib/sqs/publisher.go:188-194 | drops one registration, keeping the order and all others |
| `Router.InsertRoute` | contrib/sqs/publisher.go:196-208 | adds one registration, keeping prefixes distinct and longest first |
| `Router.EventTypeQueueMap.Register` | contrib/sqs/publisher.go:176-180 | sets one exact route and leaves the prefixes alone |
| `Router.EventTypeQueueMap.RegisterPrefix` | contrib/sqs/publisher.go:184-209 | replaces or adds one prefix, keeping the slice ordered and without repeats |
| `Router.EventTypeQueueMap.QueueURL` | contrib/sqs/publisher.go:213-230 | exact match, else the longest registered prefix that matches, else the default |
| `Router.RouteIsUnique` | contrib/sqs/publisher.go:213-230 | that rule leaves no choice |
| `Router.Configure` | contrib/sqs/publisher.go:167-209 | after any sequence of registrations the tables are those registered, the last one winning |
| `Router.TablesListRegistrations` | contrib/sqs/publisher.go:176-209 | without repeats the tables hold exactly the registrations |
| `Router.OrderDoesNotMatter` | contrib/sqs/publisher.go:184-230 | the same registrations without repeats, in any order, give the same lookups |
| `Dispatcher.HandlePublishFailure` | core/worker.go:156-220 | a failure moves a row still in PUBLISHING to DEAD or FAILED by the snapshot's verdict, with the truncated message; a row that has moved on is untouched |
| `Dispatcher.PublishVerdict` | contrib/sqs/publisher.go:46-58 | a publish succeeds iff the message fits and the call succeeds, and otherwise fails with the call's own retry verdict, or for good if it is too large |
| `Dispatcher.DisposedIsSettled` | core/worker.go:156-220 | success means PUBLISHED; failure means DEAD if it may not be retried or was the last attempt, else FAILED with one attempt more; the stored error is at most 4000 bytes |
| `Dispatcher.RecordOutcome` | core/worker.go:119-153 | whatever has happened to the row since the claim, only it is touched, and only while it is PUBLISHING; undisturbed it gets the disposition of its outcome |
| `Dispatcher.ProcessOne` | core/worker.go:98-153 | takes an oldest message, if any; unless the database loses the update it is then PUBLISHED iff it fits and the send succeeded, else DEAD iff it is too large, the error is not retryable or it was the last attempt, else FAILED with one attempt more; no other row changes |
| `Dispatcher.PublishTo` | core/batch_dispatcher.go:351-353 | whichever batch publisher is plugged in, results line up with the messages and every failure carries an error |
| `Dispatcher.RecordResults` | core/batch_dispatcher.go:355-371 | after the result loop every failure is recorded at its own row, successes are collected in order, and the counts add up |
| `Dispatcher.RecordBatch` | core/batch_dispatcher.go:355-402 | after the loop and the update for all successes every message of the batch has the disposition of its own result and nothing else has changed |
| `Dispatcher.ProcessBatch` | core/batch_dispatcher.go:333-414 | to one queue or many: distinct oldest messages are claimed; each is PUBLISHED iff it fits and the broker lists it in an error-free call, else DEAD iff it is too large, the call's error is final or it was the last attempt, else FAILED; nothing else changes, and successes plus failures is the batch size |
| `Dispatcher.BatchUpdateCompletes` | core/batch_dispatcher.go:373-402 | the one UPDATE for all successes gives each its disposition and disturbs no failure |
| `BatchRefinement.SerialIffSuccessive` | core/worker.go:98-153 | finishing each message before claiming the next picks the same messages as claiming all first |
| `BatchRefinement.SerialIsPointwise` | core/worker.go:98-220 | one-at-a-time processing leaves each message its own disposition |
| `BatchRefinement.BatchRefinesSingle` | core/batch_dispatcher.go:333-414 | a batch leaves the same statuses, attempt counts and errors as processing the same messages with the same outcomes one at a time; only times differ |
| `BatchRefinement.EveryBatchHasASerialRun` | core/batch_dispatcher.go:333-414 | and every batch is matched by such a one-at-a-time run |
| `BatchRefinement.OversizeIsDeadAtOnce` | contrib/sqs/publisher.go:306-318 | an oversized payload is disposed of as DEAD whatever its budget and whatever the broker says, in a batch or alone |
| `WorkerRuns.LegDisposes` | core/worker.go:98-220 | publish and record, as steps, leave what the worker's code leaves |
| `WorkerRuns.JobIsARun` | core/worker.go:98-153 | processOne is a run of the step system with the same table |
| `WorkerRuns.JobsAreARun` | core/worker.go:42-153 | so is any number of them in sequence |
| `WorkerRuns.BatchIsARun` | core/batch_dispatcher.go:333-414 | whatever table processBatch may leave is reached by a run of the step system |
| `WorkerRuns.RecordingIsAStep` | core/worker.go:119-220 | recording an outcome is one step of the system in any state, however stale the claim is by then |
| `WorkerRuns.ProcessOneAsRun` | core/worker.go:98-153 | calling ProcessOne on a repository takes its table along a valid run, from any state with that table |
| `WorkerRuns.ProcessBatchAsRun` | core/batch_dispatcher.go:333-414 | the same for ProcessBatch, to one queue or many |
| `Consumer.PublishThenParse` | contrib/sqs/consumer/service.go:432-477 | parsing what was published gives back id, payload, type, key, metadata and the receive count the broker sent, 0 without one |
| `Consumer.EffectsGrow` | contrib/pgx/inbox_repo.go:25-28 | an effect appears only by the commit of its own delivery and never disappears |
| `Consumer.StepKeepsEffects` | examples/app/migrations/002_app_tables.sql:64-82 | at most one effect row per key, written for a message with that key |
| `Consumer.StepKeepsOneHolder` | examples/app/internal/consumer/order_handler.go:118-171 | at most one open transaction holds a key's insert |
| `Consumer.HolderHasNoEffect` | examples/app/internal/consumer/order_handler.go:144-162 | a holder's key has no committed effect |
| `Consumer.StepKeepsInbox` | contrib/pgx/inbox_repo.go:19-38 | the inbox knows only events that took effect, and all of them unless old rows were deleted |
| `Consumer.StepKeepsAccepted` | contrib/sqs/consumer/service.go:354-417 | an accepted message is queued, handled or dropped, and dropped only by a failed delivery whose count, as the broker sent it, was at the limit; an unhandled one is queued exactly until it is dropped |
| `Consumer.LeavesQueueIff` | contrib/sqs/consumer/service.go:367-417 | a message leaves the queue if and only if its delete succeeds after a handler's nil, or after a failure of a delivery whose broker count has reached MaxAttempts |
| `Consumer.DropsIff` | contrib/sqs/consumer/service.go:399-417 | and counts as dropped exactly in the second case |
| `Consumer.InboxMoves` | contrib/pgx/inbox_repo.go:19-38 | the inbox gains exactly the key of a commit and loses exactly what the cleaner deletes |
| `Consumer.HandledMoves` | examples/app/internal/consumer/order_handler.go:125-171 | a handler returns nil only for its own message, on finding the inbox row or on committing |
| `Consumer.StepKeepsHandled` | examples/app/internal/consumer/user_handler.go:52-106 | a handler returns nil only when the effect is committed |
| `Consumer.StepKeepsInv` | contrib/sqs/consumer/service.go:354-429 | every consumer step keeps all of this, concurrent deliveries, rollbacks, lost commit replies and failed deletes included |
| `Handler.Database.Complete` | contrib/pgx/inbox_repo.go:163-178 | the first completion stays, a second changes nothing |
| `Handler.Database.DeleteOlderThan` | contrib/pgx/inbox_repo.go:219-240 | deletes exactly the rows completed before the cutoff and counts them |
| `Handler.Database.Handle` | examples/app/internal/consumer/order_handler.go:107-172 | inbox row and effect row are written together or not at all, for a failure at any point; nil means both are there |
| `Handler.CommitLeg` | examples/app/internal/consumer/order_handler.go:154-162 | completing and committing adds the inbox key and the effect together, whether or not the reply arrives |
| `Handler.RollbackLeg` | examples/app/internal/consumer/order_handler.go:118-162 | failing after the insert leaves both tables as they were |
| `Handler.CallIsARun` | examples/app/internal/consumer/user_handler.go:40-107 | a call, however cut short, goes straight through as a run of the consumer's steps if and only if it need not wait for another open insert of its key, and then leaves the same tables and reply |
| `Handler.WaitEnds` | examples/app/internal/consumer/order_handler.go:144-162 | a wait ends in failure with the event in effect once the other delivery commits, and in the insert once it rolls back or crashes |
| `System.SnapshotsTravelAlike` | contrib/sqs/publisher.go:61-122 | every claim of an event, whatever its attempt, sends the same entry, deduplication id included |
| `System.StepKeepsCarried` | contrib/sqs/publisher.go:297-378 | every accepted event has a message bearing it as it was inserted |
| `System.StepKeepsLoaded` | contrib/sqs/publisher.go:61-122 | every message bears an accepted event |
| `System.RunKeepsInv` | contrib/sqs/consumer/service.go:354-429 | the invariants of both sides and the link between them hold after every run of the whole pipeline |
| `System.EndToEndConservation` | core/batch_dispatcher.go:333-414 | in every run each committed event is in progress, DEAD, or some message bearing it is queued, handled with its effect in place, or dropped after a failed delivery whose broker count was at the limit; the same holds of every message bearing it, and an unhandled one is in the queue exactly until dropped |
| `System.EffectIsOwn` | contrib/sqs/consumer/service.go:432-477 | an effect row under an event's key was written for a message bearing that event |
| `System.ExactlyOnceEffect` | examples/app/internal/consumer/order_handler.go:107-172 | in every run an event takes effect at most once; without inbox cleanup its effect exists iff its inbox row does; a nil return has left the effect behind |
| `Inventory.OrderService.CreateOrder` | examples/app/internal/service/order.go:48-104 | stock, order and outbox row are written together, or nothing is |
| `Inventory.OrderService.ConfirmOrder` | examples/app/internal/service/order.go:113-162 | the same; a duplicate outbox key rolls the whole confirmation back |
| `Inventory.CreateKeepsBalance` | examples/app/internal/repository/inventory.go:41-55 | a committed order keeps the books: reserved is what pending orders hold, within the stock |
| `Inventory.CreateSucceedsIff` | examples/app/internal/service/order.go:48-104 | with the books in order, an order goes through if and only if that much unreserved stock is there and its id and event are new |
| `Inventory.ConfirmSucceedsIff` | examples/app/internal/service/order.go:113-162 | with the books in order and keys retained, a confirmation goes through if and only if the order exists, is pending, its product is listed and its key is free |
| `Inventory.ConfirmationsAreIndependent` | examples/app/internal/service/order.go:148-156 | confirming one order never stops another from being confirmed |
| `Inventory.RunAnnounces` | examples/app/internal/service/order.go:48-162 | in every run that deletes no outbox rows each order has its order.created event and is confirmed exactly if it has its order.confirmed event |
| `Inventory.ConfirmTotals` | examples/app/internal/service/order.go:113-162 | a committed confirmation moves exactly its order's quantity from pending to confirmed |
| `Inventory.ConfirmBalancedIffPending` | examples/app/internal/repository/inventory.go:57-73 | a committed confirmation keeps the books if and only if the order was pending or is for nothing |
| `Inventory.ConfirmOnlyPending` | schema/schema.go:77-79 | while the keys of confirmed orders are retained, only pending orders can be confirmed |
| `Inventory.RunConservesStock` | examples/app/internal/service/order.go:48-162 | in every run that spares order.confirmed rows, stock is conserved for every product and each order is confirmed at most once |
| `Inventory.CleaningAllowsSecondConfirmation` | examples/app/internal/service/order.go:113-162 | once its row is cleaned, any confirmed order covered by other reservations can be confirmed again and breaks the books |
| `Inventory.SecondConfirmationHappens` | examples/app/internal/service/order.go:113-162 | a concrete run from a full shelf in which it does |
| `Timing.BackoffIsExact` | core/model.go:87-101 | below 2^63 the 64-bit computation is exactly min(base * 2^n, max) |
| `Timing.BackoffIsWrapped` | core/model.go:87-101 | for every attempt the shift and the product together wrap base * 2^n once |
| `Timing.BackoffExactIff` | core/model.go:87-101 | the result is min(base * 2^n, max) if and only if base * 2^n stays below 2^63 or its remainder modulo 2^64 lies between max and 2^63 |
| `Timing.BackoffNegativeIff` | core/model.go:87-101 | the delay is negative if and only if that remainder is 2^63 or more |
| `Timing.BackoffVanishesIff` | core/model.go:87-101 | the delay is zero if and only if 2^64 divides base * 2^n |
| `Timing.BackoffVanishes` | core/model.go:87-101 | with a base divisible by 2^k there is no delay from attempt 64 - k on |
| `Timing.OneSecondFailsEarly` | core/model.go:87-101 | with a base of one second the delay is negative at attempt 34 and zero from attempt 55 on |
| `Timing.BackoffIsMonotone` | core/model.go:87-101 | below 2^63 the backoff grows with the attempt |
| `Timing.Jittered` | core/model.go:97-100 | with both float64 roundings allowed for, the jittered delay is within roundoff and a nanosecond of half to all of the backoff |
| `Timing.DelayBounds` | core/model.go:87-101 | below 2^63 the final delay is between half and all of min(base * 2^n, max), up to those roundings |
| `Timing.Poll` | core/worker.go:48-86 | after k idle polls since the last hit the interval is exactly min(PollInterval * 2^k, MaxPollInterval), positive and without overflow; the batch worker's loop is the same |
| `Timing.IntervalAfterPoll` | core/worker.go:66-76 | that interval is PollInterval after a hit and twice the previous one, up to the maximum, after an idle poll |

## Left out

- contrib/gorm: the same transitions through an ORM whose handling of defaults is not part of this model.
- PostgreSQL internals: lock re-checks under SKIP LOCKED, isolation levels and interval overflow; a step may claim any ENQUEUED rows, which covers skipped ones.
- AWS SDK calls, JSON encoding, UUID generation and parsing; attribute names are an enumeration instead of strings.
- SQS FIFO deduplication and message retention: the queue keeps every message until it is deleted.
- Hooks, logging, health status, metrics, benchmark tool.
- Graceful shutdown, contexts and timers: a worker may stop between any two steps and a database update may fail, nothing more.
- Configuration defaults and validation beyond the batch-size clamp.
- Redaction of secrets before truncation: an arbitrary function from errors to text. Numbers inside error texts are left out.
- DDL generation, CLI, HTTP handlers and scripts.
- Notification handlers and the order.created handler: their effects have no uniqueness constraint in the code.
- Which way float64 rounds in the jitter: a rounded value is any real within a relative error of 2e-16.
- Publisher.PublishBatch: the result slice is a value that is reassigned, so aliasing between callers and goroutines is not captured; the interleaving of the goroutines is (`MultiQueue.PublishBatch`).
- Dispatcher.ProcessOne: the method runs undisturbed by other workers, as does `Dispatcher.ProcessBatch`; for a row that changes between claim and record see `Dispatcher.RecordOutcome` and `WorkerRuns.RecordingIsAStep`, and for every interleaving the step system.
- Inventory.RunConservesStock: the two transactions are taken one at a time, as their row locks make them.
