# Elective enrollment: a verified model

This project models the concurrent core of a service through which students
request seats in groups of professional electives and administrators decide on
those requests, and proves what the service promises about it.

* **Enrollment transactions.** Submit, Cancel, Decide and AdjustCapacity are
  small-step transactions under READ COMMITTED (`EnrollmentMachine`): one step
  is one SQL statement, row locks are taken one by one, each statement reads
  the store as committed at that moment, a commit applies the buffered writes,
  and any transaction may be rolled back at any point. Every theorem is about
  all interleavings of any number of transactions from an empty database. No
  operation locks everything it reads (Cancel never locks the group, Decide
  never locks the student, a move never locks the old group), so the invariant
  (`EnrollmentInvariant`) says what each half-finished transaction may still
  rely on, and `EnrollmentSafety` shows that nobody else can take it away.
  `EnrollmentScripts` holds the same four operations as straight-line
  imperative code over the tables, equal to the machine's transaction run alone,
  and `EnrollmentAlone` says exactly when each takes effect; `EnrollmentTrail`
  is about the audit trail, and `EnrollmentWitnesses` holds runs that show where
  the promises end.
* **Batches.** `EnrollmentService` runs `SubmitBatch` as a client of the
  machine while other transactions run in between; each call returns, as ghost
  data, the stretch of the machine's run it made up, and `EnrollmentCalls` says
  what the own steps of such calls add to the store. `Decimal` is the
  hand-written integer printer.
* **The notification outbox.** Any number of worker replicas reap, claim,
  re-stamp, send and record, with crashes, database errors and a running clock
  (`NotificationLease`); what holds unconditionally, with distinct stamps, and
  under the timing the lease assumes (`NotificationSafety`,
  `NotificationTiming`); how often a message is taken (`NotificationOnce`), with
  runs in which it is taken twice (`NotificationWitnesses`); and one worker as
  an imperative program that finishes (`NotificationWorker`).
* **Smaller stateful parts.** The rate limiter (`RateLimiter`), the review
  queue (`ReviewQueue`, `Ordering`) and the one-time-code login (`LoginStore`,
  `LoginService`, `LoginRuns`).

Environment as parameters: the enrollment window is an arbitrary boolean per
submission; generated ids, clock readings, SMTP results and failing statements
are chosen freely. Identifiers are natural numbers. Times are nanoseconds.

## Where the code and its documentation disagree

The model follows the code.

* The comments on the outbox lease (`internal/notification/worker.go:38-43` and
  `200-209`) say that replicas never send a message twice. They may, in three
  ways. `NotificationWitnesses.DoubleSendIsPossible`: a stalled worker's
  re-stamp takes over another's lease, since the re-stamp
  (`internal/notification/worker.go:214-216`) asks only whether the row is
  SENDING. `NotificationWitnesses.SlowSendIsSentTwice`: every re-stamp finds its
  own claim, and a send outlasts the threshold. `NotificationWitnesses.TakenTwiceInTurn`:
  no two sends overlap, nobody crashes and every write succeeds, and still the
  mail server takes the message from one worker and then from another, because
  the first one's record comes after the reap. In every run, each row has one
  live holder that owns its lease, and each message is taken at most once and
  is then SENT or about to be recorded, if and only if no reap releases a row
  that a live worker has held for longer than the threshold and no worker
  crashes or fails to write between a successful send and its record
  (`NotificationOnce.TakenOnceExactlyWhen`). A message that was lost in that
  way, like any that is neither SENT nor FAILED, can be taken again
  (`NotificationOnce.CanBeTakenExactlyWhen`).
* The limiter is documented as allowing "at most max requests per period"
  (`internal/platform/ratelimit/ratelimit.go:39-41`). A closed interval as long
  as the period sees up to 2 * max(1, max) - 1 requests, and this bound is
  reached, so for a positive period the documented limit holds in every interval
  if and only if max is 1 (`RateLimiter.LimitHoldsExactlyWhen`). Counted from
  the call that opens a window it holds if and only if max is positive
  (`RateLimiter.WindowLimitHoldsExactlyWhen`): a window always admits its first
  call.
* Starting a login is documented to always report success so as not to reveal
  accounts (`internal/identity/app/auth.go:145-147`). It reports an error when
  a component fails that is reached only for existing accounts;
  `LoginRuns.AnswerRevealsAccountExactlyWhen` is the exact condition and
  `LoginRuns.FailedMailRevealsAccount` an input.
* The audit event of a create-group acceptance does not record the target
  group (`internal/review/adapter/postgres/decide.go:162-173`), so the trail
  rebuilds statuses and capacities but not every group:
  `EnrollmentWitnesses.OneTrailTwoGroups` has two runs with one trail and the
  request in different groups. A request sits in the group its submission event
  names if and only if no create-group acceptance named another one
  (`EnrollmentTrail.SubmittedGroupHoldsExactlyWhen`), and a trail without such
  an acceptance of it determines its group over all runs. With one, the group
  may still be inferred from the rest of the trail
  (`EnrollmentWitnesses.MoveMayBeInferred`).

## Model

| member | source | states |
|---|---|---|
| EnrollmentDomain.PaddingDoesNotHelp | internal/enrollment/domain/rules.go:48-51 | white space around a reason never changes whether it is long enough |
| EnrollmentInvariant.StableKeepsTxn | internal/enrollment/adapter/postgres/submit.go:59-139 | what a transaction established under its row locks stays true as long as others only do what those locks leave open to them |
| EnrollmentInvariant.CommitIsStable | internal/review/adapter/postgres/decide.go:52-148 | a commit changes nothing that the holder of any other row relies on: it raises no count of a group or student it has not locked |
| EnrollmentSafety.LocksStayExclusive | internal/enrollment/adapter/postgres/submit.go:65-85 | no row is ever locked by two transactions |
| EnrollmentSafety.OpenRequestLeavesRoom | internal/review/adapter/postgres/decide.go:107-114 | a student with an open request has fewer than four accepted ones, which is why Decide needs no lock on the student |
| EnrollmentSafety.StepOk | internal/enrollment/adapter/postgres/submit.go:44-208 | every statement of every transaction re-establishes what the next one relies on |
| EnrollmentSafety.CommitStoreOk | migrations/000001_init.up.sql:201-208 | every commit keeps the row consistency, both unique indexes, unique arrival numbers and the cap of four active requests |
| EnrollmentSafety.PendingsStayFresh | migrations/000001_init.up.sql:176-191 | an uncommitted insert keeps an id and an arrival number that no other row, committed or not, has |
| EnrollmentSafety.StepKeepsInv | internal/enrollment/adapter/postgres/submit.go:44-208 | the whole invariant is kept by every action of every interleaving |
| EnrollmentTheorems.AtMostFourElectives | internal/enrollment/adapter/postgres/submit.go:83-123 | in every reachable state each student has at most four active, hence at most four accepted, requests per semester |
| EnrollmentTheorems.DecideNeverHitsLimit | internal/review/adapter/postgres/decide.go:101-126 | Decide's own limit check never refuses anything on a reachable store |
| EnrollmentTheorems.AcceptedGrowsIntoRoom | internal/review/adapter/postgres/decide.go:93-148 | only an acceptance into a group adds an accepted student to it, exactly one, and only below its current capacity |
| EnrollmentTheorems.ExcessNeverRises | internal/review/adapter/postgres/decide.go:70-148 | nothing but a capacity adjustment of the group raises the number by which its accepted students exceed its capacity |
| EnrollmentTheorems.OverbooksExactlyWhen | internal/catalog/adapter/postgres/admin_repo.go:233-257 | a group that is not overbooked becomes so if and only if its capacity is cut below its accepted students |
| EnrollmentWitnesses.CutOverbooks | internal/catalog/adapter/postgres/admin_repo.go:233-257 | a run with a group that is overbooked by one step, and that step is a cut of its capacity below its accepted students |
| EnrollmentTheorems.NeverOverbooked | internal/enrollment/domain/rules.go:107-125 | if no adjustment goes below the students already accepted, no group is ever overbooked, moves into created groups included |
| EnrollmentTheorems.SeatTakers | internal/enrollment/domain/classify.go:16-44 | who can gain a direct or accepted seat in a group: a submission only below capacity, an acceptance, nobody else |
| EnrollmentTheorems.TakenGrowsIntoRoom | internal/enrollment/adapter/postgres/submit.go:125-139 | the seats spoken for grow only into free room or by an acceptance that takes an extra seat, even when a cancellation commits between count and insert |
| EnrollmentTheorems.OverrunExactlyWhen | internal/enrollment/domain/classify.go:16-44 | accepted plus pending-direct requests come to exceed a capacity if and only if a full group accepts a waitlisted or moved request, or its capacity is cut below them |
| EnrollmentWitnesses.WaitlistedAcceptanceOverruns | internal/enrollment/domain/rules.go:107-125 | a run with a group whose direct seats are overrun by one step, and that step accepts a request of the group itself that held none of its seats |
| EnrollmentTheorems.WaitlistedBesideFreeSeatExactlyWhen | internal/enrollment/adapter/postgres/submit.go:125-172 | a same-shift submission about to commit is waitlisted beside a free seat if and only if the seats it counted filled the group and have dropped below its capacity since |
| EnrollmentTheorems.LocksUpward | internal/review/adapter/postgres/decide.go:52-98 | every transaction acquires its rows in the order request, group, student |
| EnrollmentTheorems.ChainEnds | internal/enrollment/adapter/postgres/submit.go:65-85 | following the holders of the rows waited for ends at a transaction that can step |
| EnrollmentTheorems.DeadlockFree | internal/enrollment/adapter/postgres/submit.go:65-85 | while some transaction is unfinished, some transaction can run its next statement |
| EnrollmentTheorems.RequestsPersist | internal/enrollment/domain/status.go:45-74 | between any two moments a request keeps its identity and only moves along the lifecycle |
| EnrollmentTheorems.StoredRequestsAreConsistent | internal/enrollment/domain/classify.go:36-44 | SUBMITTED never occurs, waitlist statuses match the priority, open direct requests are pending, priority is opposite-shift exactly for different shifts, the offering is the group's, and keys, arrival numbers and active seats are unique |
| EnrollmentTheorems.ReplayReturnsOriginal | internal/enrollment/adapter/postgres/submit.go:46-51 | a submission whose lookup runs after a request with its key was committed returns its id and arrival number and changes nothing, whatever happened in between |
| EnrollmentTheorems.TakenKeyNeverInserts | internal/enrollment/adapter/postgres/submit.go:46-51 | in every run a submission begun when its key is taken never inserts and changes nothing: it has not looked yet, was broken off, or was answered with that request |
| EnrollmentTheorems.AnsweredKeyIsTaken | internal/enrollment/adapter/postgres/submit.go:201-240 | in every run a submission that was answered with a request has that request stored under its key, from then on |
| EnrollmentTheorems.KeyFindsRequest | internal/enrollment/adapter/postgres/submit.go:224-240 | the lookup by idempotency key finds the one request that has the key |
| EnrollmentFairness.NewcomerKeepsFair | internal/enrollment/domain/classify.go:36-44 | a later same-shift arrival that takes a direct seat exactly if one is left keeps the direct seats with the earliest arrivals |
| EnrollmentFairness.StepKeepsFair | internal/enrollment/adapter/postgres/submit.go:59-172 | every step of every interleaving keeps that, as long as only submissions touch the group |
| EnrollmentFairness.FirstComeFirstServed | internal/enrollment/adapter/postgres/submit.go:59-172 | in every such run the direct requests are exactly the min(k, capacity) earliest same-shift arrivals and everyone else is on the waitlist of their shift |
| EnrollmentTrail.TrailRebuildsStore | internal/review/adapter/postgres/decide.go:150-191 | in every reachable state the audit trail replays, with every recorded previous value matching, to exactly the stored statuses and capacities, and the decision, adjustment and outbox tables hold exactly the rows its events call for |
| EnrollmentTrail.SubmittedOnce | internal/enrollment/adapter/postgres/submit.go:174-184 | a trail that replays has one submission event for each request it knows and none for any other |
| EnrollmentTrail.OutboxMatchesTrail | internal/notification/outbox.go:32-46 | every message is in the outbox exactly once per channel for each committed event that sends it; each stored request was announced exactly once on each |
| EnrollmentTrail.DecisionsAreToldAsDecided | internal/review/adapter/postgres/decide.go:116-211 | in every run each decision on the trail led to the status it names and no other, never out of a settled status, and the message it sends names that status; only a move to review is silent |
| EnrollmentTrail.ArrivalOrderIsCommitOrder | migrations/000001_init.up.sql:174-191 | within a group arrival order equals commit order, despite rollbacks and gaps |
| EnrollmentTrail.SubmittedGroupHoldsExactlyWhen | internal/review/adapter/postgres/decide.go:133-173 | in every run a stored request sits in the group of its submission event if and only if no create-group acceptance named another group for it |
| EnrollmentTrail.TrailWithoutMoveTellsGroup | internal/enrollment/adapter/postgres/submit.go:174-184 | a trail without a create-group acceptance of a request determines its group over all runs that leave this trail |
| EnrollmentWitnesses.OneTrailTwoGroups | internal/review/adapter/postgres/decide.go:162-173 | two runs leave the same audit trail with a request in different groups |
| EnrollmentWitnesses.MoveMayBeInferred | internal/review/adapter/postgres/decide.go:162-173 | a trail with a create-group acceptance of a request that all the same is left only by runs that put it into one group |
| NotificationOutbox.TransactionOutbox.Enqueue | internal/notification/outbox.go:32-46 | one row per channel, in order, or a failure the caller rolls back |
| EnrollmentScripts.SoloRunsInMachine | internal/enrollment/adapter/postgres/submit.go:53-57 | where nobody else holds a row, the transaction's own statements are enabled one after the other in the machine, lead to what the script computes, and leave every other transaction as it was |
| EnrollmentScripts.Tables.Submit | internal/enrollment/adapter/postgres/submit.go:44-208 | the straight-line code computes what the machine's submission computes alone, except that a failing outbox insert makes a creating submission fail, leaves the tables untouched and uses up the arrival number |
| EnrollmentScripts.Tables.Cancel | internal/enrollment/adapter/postgres/cancel.go:19-90 | computes what the machine's cancellation computes alone, except that a failing outbox insert makes an admitted cancellation fail and leaves the tables untouched |
| EnrollmentScripts.Tables.Decide | internal/review/adapter/postgres/decide.go:41-198 | computes what the machine's decision computes alone, moves to a target group included, except that a failing outbox insert makes an admitted decision that notifies fail and leaves the tables untouched |
| EnrollmentScripts.Tables.AdjustCapacity | internal/catalog/adapter/postgres/admin_repo.go:233-258 | computes what the machine's adjustment computes alone |
| EnrollmentAlone.SubmitCreatesExactlyWhen | internal/enrollment/adapter/postgres/submit.go:44-208 | a submission run alone creates a request if and only if its key is new, group and student are active, the window is open, fewer than four requests are active and none in that group; the request is direct exactly for equal shifts and free room; otherwise nothing changes and only a known key is answered with success |
| EnrollmentAlone.CancelTakesEffectExactlyWhen | internal/enrollment/adapter/postgres/cancel.go:31-83 | a cancellation run alone takes effect if and only if the request exists, is the student's own and is open; otherwise nothing changes |
| EnrollmentAlone.DecisionTakesEffectExactlyWhen | internal/review/adapter/postgres/decide.go:52-191 | a decision run alone takes effect if and only if the request exists, a named target belongs to its offering, reason, status and room admit it on the counts of the target or own group, and a move meets no other active request; it leads to the status it names, and otherwise nothing changes |
| EnrollmentAlone.AdjustTakesEffectExactlyWhen | internal/catalog/adapter/postgres/admin_repo.go:233-257 | an adjustment run alone takes effect if and only if the group exists and the capacity is not negative, and records the previous capacity; otherwise nothing changes |
| Decimal.Itoa | internal/enrollment/app/service.go:167-178 | prints every non-negative number as its one canonical decimal numeral and a negative one as nothing |
| Decimal.NumeralIsCanonical | internal/review/adapter/postgres/queue.go:215-226 | the numeral has no leading zero and its positional value is the number |
| Decimal.NumeralInjective | internal/enrollment/app/service.go:167-178 | different numbers print differently |
| EnrollmentCalls.ItemKeysDistinct | internal/enrollment/app/service.go:125-132 | the keys of a batch's items are pairwise distinct |
| EnrollmentCalls.CallAddsWhatItReports | internal/enrollment/app/service.go:65-69 | in any interleaving the own steps of a submission add the one request it reports as new, or none if it replays or fails |
| EnrollmentCalls.BatchAddsWhatItReports | internal/enrollment/app/service.go:124-139 | in any interleaving the own steps of a batch's calls add exactly the requests its answers report as new, each answer is stored under its item's key, and an answer to a taken key is not new |
| EnrollmentService.HasDuplicate | internal/enrollment/app/service.go:89-96 | finds a repeated group if and only if there is one |
| EnrollmentService.CountActiveViews | internal/enrollment/app/service.go:105-112 | counts the active requests of a listing and collects exactly their groups |
| EnrollmentService.NextItemFits | internal/enrollment/app/service.go:113-123 | once the pre-checks pass, no later item of the batch can meet the cap or a duplicate |
| EnrollmentService.EnrollmentService.Submit | internal/enrollment/app/service.go:65-69 | the call is a stretch of a run of the machine that begins with its transaction; among any other transactions its own steps add exactly the request it reports as new, none if its key is taken or it fails, and what it answers is stored under its key; as long as others leave the student's requests alone, it returns the request with its key, or adds one, or fails for a stated reason and adds none |
| EnrollmentService.EnrollmentService.Precheck | internal/enrollment/app/service.go:89-123 | refuses exactly the batches that repeat a group, repeat an active one, or exceed the cap, in that order |
| EnrollmentService.EnrollmentService.SubmitBatch | internal/enrollment/app/service.go:88-139 | a refused batch changes nothing; an admitted one is a sequence of calls in the machine's run whose answers it returns up to the first failure; among any other transactions their own steps add exactly the requests reported as new, and none if all keys are taken; as long as others leave the student's requests alone, it never fails for the cap or a duplicate, changes them by the created ones only, and a rerun leaves them exactly as they were |
| EnrollmentCalls.RerunInsertsNothing | internal/enrollment/app/service.go:125-139 | in every run of the machine, once every item of a batch was answered with a request, a transaction that submits an item again never inserts and changes nothing, in any interleaving and whatever was decided, cancelled or moved |
| EnrollmentCalls.CompletedBatchMakesNothingAgain | internal/enrollment/app/service.go:88-139 | of a batch all of whose calls succeeded, any later calls for the same items add no request to the store by their own steps, whatever others do during the batches and between them |
| NotificationLease.ShiftIsExact | internal/notification/worker.go:285-288 | the 64-bit shift never overflows for the attempts it is used for |
| NotificationLease.BackoffIsCappedDoubling | internal/notification/worker.go:279-293 | the delay is min(300 s, 30 s * 2^(attempt-1)), attempts below 1 counting as 1 |
| NotificationLease.BackoffNeverShrinks | internal/notification/worker.go:279-293 | the delay is positive, at most five minutes and non-decreasing for every integer |
| NotificationSafety.OutboxInvariant | internal/notification/worker.go:129-274 | for any workers, crashes and reaps: claimed_at is set exactly in SENDING, unfinished rows have 0 to 4 attempts, FAILED ones exactly 5, each job's copy is at most 4, in-app rows are never touched |
| NotificationSafety.FinishedRowsAreFrozen | internal/notification/worker.go:212-274 | a SENT or FAILED row and an in-app row never change again |
| NotificationSafety.SentExactlyWhenRecorded | internal/notification/worker.go:228-241 | a row is SENT if and only if a successful send of it was recorded |
| NotificationSafety.OutcomeCountsExactlyWhenUntouched | internal/notification/worker.go:228-271 | with distinct stamps a recorded outcome takes effect if and only if nobody wrote the row since that worker's re-stamp |
| NotificationSafety.OneOwner | internal/notification/worker.go:38-43 | with distinct stamps at most one worker owns a row's lease at a time |
| NotificationSafety.RestampTakesOverExactlyWhen | internal/notification/worker.go:212-226 | a re-stamp of a row in SENDING makes the lease the worker's own, and claimed_at was not its own claim's stamp if and only if the row was written since that claim |
| NotificationSafety.OutcomesAreRecordedOnce | internal/notification/worker.go:228-271 | each re-stamp records at most one outcome and each row becomes SENT at most once, with nothing recorded after it |
| NotificationTiming.HeldRowsAreNotReaped | internal/notification/worker.go:129-143 | a row whose holder's lease has not expired is not reaped |
| NotificationTiming.StepKeepsLeasesExactlyWhen | internal/notification/worker.go:129-274 | a step keeps every live holder the only one and the true owner of its row, with exact attempt counts, if and only if it reaps no row held for longer than the threshold |
| NotificationTiming.LeasesHoldExactlyWhen | internal/notification/worker.go:29-44 | the same over all runs, with no assumption on stamps or timing |
| NotificationTiming.MutualExclusion | internal/notification/worker.go:21-44 | if every worker re-stamps within the threshold of its claim and stops within the threshold of its re-stamp, each row has at most one live holder at any moment, which owns its lease, and attempt_count equals the failed sends recorded |
| NotificationTiming.AttemptsNeverDecrease | internal/notification/worker.go:243-271 | as long as no held row is reaped attempt_count never decreases |
| NotificationTiming.AttemptsDropExactlyWhen | internal/notification/worker.go:243-271 | a step lowers attempt_count if and only if it records a failure counted from a copy that has become stale |
| NotificationTiming.OutcomesAlwaysCount | internal/notification/worker.go:228-271 | as long as no held row is reaped every outcome that is written takes effect |
| NotificationWitnesses.DoubleSendIsPossible | internal/notification/worker.go:212-226 | a run in which a stalled worker's re-stamp makes two workers send one row at once, with distinct stamps |
| NotificationWitnesses.SlowSendIsSentTwice | internal/notification/worker.go:200-209 | another one in which every re-stamp finds its own claim and a send outlasts the threshold |
| NotificationWitnesses.TakenTwiceInTurn | internal/notification/worker.go:200-241 | a third one without overlapping sends, crashes or failing writes: the mail server takes the message from one worker and then from another |
| NotificationOnce.StepKeepsOnceExactlyWhen | internal/notification/worker.go:212-274 | while the leases hold, a step keeps a message taken at most once, and SENT or known to a worker if taken, if and only if no worker crashes or fails to write between its successful send and its record |
| NotificationOnce.TakenOnceExactlyWhen | internal/notification/worker.go:29-44 | over every run: one live owner per row and each message taken at most once and known if taken, if and only if no row held past the threshold is reaped and no successful send is lost before its record |
| NotificationOnce.NoMessageIsTakenTwice | internal/notification/worker.go:38-44 | then no message is taken twice; and without a held row reaped no two workers send one at once, whatever is lost |
| NotificationOnce.CanBeTakenExactlyWhen | internal/notification/worker.go:145-226 | from any state some continuation has the mail server take a stored message if and only if it is neither SENT nor FAILED, or somebody is sending it |
| NotificationOnce.TakenAgainExactlyUntilSent | internal/notification/worker.go:228-241 | while the leases hold, a message that was taken can be taken again if and only if it is not SENT yet |
| NotificationOnce.LostMessageCanBeTakenAgain | internal/notification/worker.go:228-241 | a crash or failing write between a successful send and its record lets the message be taken again |
| NotificationWorker.SelectedPicksOldest | internal/notification/worker.go:156-163 | a claim takes eligible rows oldest first and passes over no older one |
| NotificationWorker.OutboxWorker.ReapStuckSending | internal/notification/worker.go:129-143 | releases exactly the expired leases, or nothing on a database error |
| NotificationWorker.OutboxWorker.Claim | internal/notification/worker.go:149-193 | leases exactly the selected rows and returns a job for each, or nothing at all on a database error |
| NotificationWorker.OutboxWorker.Deliver | internal/notification/worker.go:212-274 | sends at most once, and leaves the rows as they were, re-stamped, or with the outcome of that send recorded |
| NotificationWorker.DeliverySpends | internal/notification/worker.go:212-274 | a delivery writes no other row, never adds to the sends still owed, and lowers them whenever its outcome is recorded |
| NotificationWorker.DeliveryReaches | internal/notification/worker.go:212-274 | whatever a delivery does to the rows, the lease machine does by giving up, or by re-stamping, sending, and recording or losing the outcome |
| NotificationWorker.OutboxWorker.Drain | internal/notification/worker.go:106-119 | a pass is a run of the lease machine; each send is paid for by the sends still owed, and once all retry times and leases have passed something is sent as long as anything is owed |
| NotificationWorker.OutboxWorker.Run | internal/notification/worker.go:78-91 | the worker's passes are a run of the lease machine; whatever becomes SENT was taken by the mail server; without crashes and errors n rows cost at most 5n sends, and after a stated number of passes every message is SENT or FAILED |
| NotificationWorker.EveryReachableOutboxIsSteady | internal/notification/worker.go:129-274 | every outbox any replicas can leave behind satisfies what Run requires |
| RateLimiter.Limiter.Allow | internal/platform/ratelimit/ratelimit.go:57-73 | answers and updates one window as the specification the lemmas below are about |
| RateLimiter.KeysAreIndependent | internal/platform/ratelimit/ratelimit.go:54-56 | one key's answers are those of a limiter fed only that key's calls |
| RateLimiter.IntervalBound | internal/platform/ratelimit/ratelimit.go:39-73 | after any calls, a closed interval of length at most the period sees at most 2 * max(1, max) - 1 allowed calls of one key |
| RateLimiter.BoundIsReached | internal/platform/ratelimit/ratelimit.go:39-73 | for every limit and every positive period some calls reach that bound |
| RateLimiter.LimitHoldsExactlyWhen | internal/platform/ratelimit/ratelimit.go:39-73 | the documented limit holds in every interval of length at most the period if and only if max is 1 (for a period of zero: positive; for a negative one: not negative) |
| RateLimiter.WindowBound | internal/platform/ratelimit/ratelimit.go:63-73 | a window, counted from the call that opens it, allows at most max(1, max) calls of its key |
| RateLimiter.WindowLimitHoldsExactlyWhen | internal/platform/ratelimit/ratelimit.go:39-73 | per window the documented limit holds if and only if max is positive |
| ReviewQueue.QueueListsEachOnce | internal/review/adapter/postgres/queue.go:41-66 | the queue holds each matching request exactly once, by priority and then arrival, and the total is their number |
| ReviewQueue.QueueIsDetermined | internal/review/adapter/postgres/queue.go:90-92 | no other list is ordered that way and holds the same requests |
| ReviewQueue.PagesRebuildQueue | internal/review/adapter/postgres/queue.go:68-92 | pages 1 to the last put together are the queue, later ones are empty, and each request is on exactly one page |
| ReviewQueue.DefaultQueueIsTheOpenRequests | internal/review/adapter/postgres/queue.go:21-23 | without a status filter exactly the non-terminal requests that match otherwise are listed |
| ReviewQueue.BatchedEqualsSeparate | internal/review/adapter/postgres/queue.go:163-192 | the part of the batched query that belongs to one offering is that offering's own lookup |
| ReviewQueue.ReviewRepo.DistinctOfferings | internal/review/adapter/postgres/queue.go:152-162 | collects each offering of the page exactly once |
| ReviewQueue.ReviewRepo.AttachOfferingGroups | internal/review/adapter/postgres/queue.go:147-198 | gives every item the active groups of its own offering by group code and changes nothing else |
| ReviewQueue.ReviewRepo.ListQueue | internal/review/adapter/postgres/queue.go:41-141 | returns the requested page of the queue, each item with its groups, and the total |
| ReviewQueue.ReviewRepo.Queue | internal/review/app/service.go:127-135 | the same for any page and size, clamped, with at most 100 items |
| LoginStore.Latest | internal/identity/adapter/postgres/repos.go:32-47 | finds the youngest live challenge, and none only if there is none |
| LoginService.AuthService.StartLogin | internal/identity/app/auth.go:147-188 | answers and stores as the step the runs are made of, every failure included |
| LoginService.AuthService.VerifyLogin | internal/identity/app/auth.go:192-244 | logs in exactly on the right code for a live challenge with attempts left, an active account and no failure; a wrong code is always refused as such |
| LoginService.AuthService.Authenticate | internal/identity/app/auth.go:248-279 | accepts a stored session up to its expiry whose account is still active, and reports the failures of the session store and of the directory |
| LoginService.AuthService.Logout | internal/identity/app/auth.go:282-284 | removes that session and no other |
| LoginRuns.LoginInvariant | internal/identity/app/auth.go:163-176 | in every sequential run at most one challenge per email is live, at most five wrong codes are counted for it, each wrong code is counted or its count failed, and it leads to at most one session |
| LoginRuns.LockedOutUntilExpiry | internal/identity/app/auth.go:163-206 | after the fifth counted wrong code and until the challenge expires no code logs the email in and no new challenge is stored for it |
| LoginRuns.ChallengesComeFromStarts | internal/identity/adapter/postgres/repos.go:24-60 | every stored challenge has the email, code and expiry of the one start that stored it and is used up if and only if a verification used it |
| LoginRuns.LogsInExactlyWhen | internal/identity/app/auth.go:192-244 | as long as nothing fails, a code logs an active account in if and only if a start minted it for this email, it is in time and unused, and fewer than five wrong codes were counted against it |
| LoginRuns.AnswerRevealsAccountExactlyWhen | internal/identity/app/auth.go:145-188 | starting a login answers differently for a known and an unknown account if and only if a component reached only for an account fails |
| LoginRuns.FailedMailRevealsAccount | internal/identity/app/auth.go:184-188 | one input on which it does: only an account reaches the failing mail server |
| LoginStore.SessionRepo.DeleteExpired | internal/identity/adapter/postgres/repos.go:100-108 | a session stays if and only if it has not expired, and stays as it was; the sweeps in the runs do the same |
| LoginRuns.AuthenticateExactlyWhen | internal/identity/app/auth.go:248-279 | a session authenticates as an account if and only if a verified code created it for that account no longer ago than the session lifetime, it has not been logged out since, and the account is active; sweeping expired sessions changes nothing |

## Left out

* HTTP handlers, cookies, CSRF, role checks, configuration, logging, the SMTP dialogue and file generation.
* PostgreSQL beyond row locks, reads of committed rows and the two unique indexes: foreign-key share locks, row versions, statement-level retries and the order in which indexes are checked (the model lets either violation be reported first).
* The enrollment window's dates and shift targeting: an arbitrary boolean per submission.
* Checks of reason texts by the database: covered by rollbacks at any point.
* Semesters, windows, students and electives as administered data; a student row may be replaced and a group activated or deactivated at any moment it is not locked.
* The target of a move in the audit trail, which does not record it: replay rebuilds statuses and capacities, and groups as far as stated above.
* Texts of messages, sent_at, failure reasons, and CANCELLED as a delivery status, which no code writes.
* The reporting worker: the claim of the outbox without leases and retries.
* Warnings, students and electives shown with queue items; the 64-bit overflow of a huge page number.
* Ordering of a student's own listing; only that it is complete and free of repetitions is used.
* The text order of group codes: a code is its position in that order, unique within an offering.
* Email normalisation, the allow-list of domains, code generation and hashing: a start says whether its email is allowed and which hash was stored. Concurrent logins are not modelled.
* The mutual exclusion of the limiter's calls and its never shrinking map.
* NotificationTiming.MutualExclusion: requires the timing as a hypothesis; the code does not enforce it, since the send's dial happens before its deadline is set. The exact conditions without it are LeasesHoldExactlyWhen and NotificationOnce.TakenOnceExactlyWhen.
* NotificationWorker.OutboxWorker.Run: a pass starts at least a given positive pause after the end of the previous one; the ticker's buffered tick is represented by a smaller pause.
* EnrollmentFairness.FirstComeFirstServed: speaks of groups touched by submissions only; once decisions, cancellations or adjustments reach a group its direct seats depend on them.
