# Trade gateway: verified models of its protocols

A Dafny model of the parts of the trade gateway whose correctness depends on interleavings, crashes,
redelivery or exact arithmetic, with proofs over every input and every run.

* **Epoch-fenced lease** (`EpochLease.dfy`, `CircuitBreaker.dfy`): three atomic scripts over a lease key
  that may expire and an epoch key that does not, any number of nodes, lost requests and replies, and the
  circuit breaker in front of the connection.
* **Payments** (`PaymentQueue.dfy`, `PaymentLease.dfy`, `PaymentAttempts.dfy`, `PaymentWorker.dfy`,
  `BalanceDrift.dfy`): the queue table, any number of workers whose statements interleave with recovery, crashes, lost replies and
  administrative retries, the balance mirror, and the drift check. Histories of commits and mirror updates
  are ghost counters (`commits`, `debited`, `credited`).
* **Maritime Single Window** (`MaritimeSingleWindow.dfy`, `MswService.dfy`, `Sorting.dfy`): versioned
  declarations, maker-checker review, pratique, boardings and clearances. A submission is two steps, read
  and insert, protected by the unique constraint; every other service call is one step.
* **Projections of an at-least-once log** (`PcsProjection.dfy`, `GeoProjection.dfy`): consignment
  milestones, the last-milestone pointer and billing snapshots, with crashes between the statements; the
  vessel-position consumer with its commit, dead-letter and skip protocol.
* **Self-contained algorithms**: sliding-window limiter (`RateLimiter.dfy`), audit hash chain
  (`AuditChain.dfy`), duty calculation (`Duty.dfy`), payment idempotency key (`IdempotencyKey.dfy`), key
  scoping of the object store (`KeyScoping.dfy`). `Numerals.dfy` and `Wrappers.dfy` hold what they share.

Objects whose methods change their fields are classes; each method is tied to a function of the old
state, and the run-level theorems are about that function. A run is a sequence of steps; a step that is not
possible in a state leaves it as it is, so that every theorem about runs covers every interleaving.

## Where code and documentation differ

* `server/businessRules.ts:420` says the idempotency key prevents duplicate payments for the same
  declaration, amount and currency. Equal payments do get equal keys, but different payments can share one
  too: `IdempotencyKey.TwoAmountsShareAKey` names two amounts that do, for every declaration.
* `rustfs-svc/main.go:177-178` calls key scoping idempotent. It is, except for the caller prefix `../`
  (`KeyScoping.ScopingTwiceIsScopingOnceExactlyWhen`).
* `server/pcsProjection.ts:213` says the pointer only rolls forward, and `server/pcsProjection.ts:214-218` rolls
  it after the insert. When the process stops between the two and the milestone is later than the pointer, the
  pointer stays behind: redelivery sees a duplicate and changes nothing
  (`PcsProjection.LostPointerUpdateIsNotRepaired`, and from any fresh state `PcsProjection.PointerStaysBehind`).
  All other crashes are harmless (`PcsProjection.PointersStayTheMaximumExactlyWhen`), and at the end of a run
  every pointer leads exactly when each lost update has been overtaken by a later milestone
  (`PcsProjection.PointersLeadExactlyWhen`).
* `server/paymentWorker.ts:13-16` describes a back-off and a dead-letter threshold of several attempts. The
  claim only takes `queued` rows, so while no lost reply puts a `failed` row back the first refusal is final
  (`PaymentAttempts.FirstRefusalIsFinal`).
* `server/routers/payments.ts:142-188` queues a payment for the worker and reports it as queued for processing, but
  its insert (lines 158-173) leaves `next_retry_at` empty, and the claim takes rows with a retry time in the past
  only (`server/paymentWorker.ts:413-420`). Such a payment is never worked on
  (`PaymentWorkers.UntimedPaymentsAreNeverClaimed`). The other route (`server/routers/batchPayments.ts:52-62`) sets
  the time, and every queued row that did not start without one is claimed in its turn
  (`PaymentWorkers.QueuedRowsAreClaimed`).
* The final updates, the requeue after an error and the administrative retry
  (`server/routers/batchPayments.ts:104-107`) carry no status guard. So the payment theorems need three guards,
  each a condition on the state in which the statement is issued:
  * recovery requeues no row under a live handler (`KeepsLease`); otherwise
    `PaymentLease.UnrespectedLeaseCommitsTwice`;
  * the requeue after an error hits no committed row (`RequeuesCommitted`): it does when the reply of the commit
    was lost, and the row is then committed again, with the lease respected throughout
    (`PaymentLease.LostCommitReplyCommitsTwice`);
  * a retry hits no committed or held row (`RetriesUnused`); otherwise `PaymentLease.RetryOfCommittedCommitsTwice`.

  `PaymentLease.CommittingOnceNeedsExactlyTheGuards` shows that they are exactly what committing once needs, and
  `PaymentLease.StepIsSafeExactlyWhen` that they are exactly what exclusion needs. A lost reply of a refusal, or of
  a commit whose handler then dies, meets all three. For the absorption of final states a requeue must moreover find
  its row still `processing` and a retry no failed row, again exactly
  (`PaymentLease.StepKeepsFinalExactlyWhen`): a refusal whose reply is lost is otherwise refused again
  (`PaymentLease.LostRefusalReplyIsRetried`).
* `microservices/anomaly-detection/main.py:123` reads the clock outside the lock. A stale reading makes the
  sliding window refuse too much (`RateLimiters.StaleReadingBreaksTheWindow`) and, with a limit of two or more,
  also admit too much (`RateLimiters.StaleReadingAdmitsTooMany`).
* `docs/partition-simulation/partition_simulation.py:56-66` treats an empty holder like a free lease. A
  node with an empty name can therefore be replaced while its lease is alive
  (`EpochLease.DirectTakeoverExactlyFromEmptyId`).

## Model

| member | source | states |
|---|---|---|
| `EpochLease.RedisServer.EvalAcquire` | docs/partition-simulation/partition_simulation.py:49-66 | the acquire script on the two keys: state and reply |
| `EpochLease.RedisServer.EvalRenew` | docs/partition-simulation/partition_simulation.py:69-81 | the renew script: its reply; it changes no key of the model |
| `EpochLease.RedisServer.EvalRelease` | docs/partition-simulation/partition_simulation.py:83-91 | the release script: only the holder deletes the lease |
| `EpochLease.QuorumNode.SimulatePartition` | docs/partition-simulation/partition_simulation.py:204-206 | sets the partition flag |
| `EpochLease.QuorumNode.Acquire` | docs/partition-simulation/partition_simulation.py:212-236 | what the server, the caller and the breaker see when the call is blocked, delivered, or loses its request or reply |
| `EpochLease.QuorumNode.Renew` | docs/partition-simulation/partition_simulation.py:238-254 | success exactly when the call is sent, answered and granted; the server is unchanged |
| `EpochLease.QuorumNode.GetCurrentEpoch` | docs/partition-simulation/partition_simulation.py:264-270 | the epoch key, or -1 when partitioned or unreachable |
| `EpochLease.ThreeLostCallsBlockTheNode` | docs/partition-simulation/partition_simulation.py:212-254 | three calls in a row without a reply block a new node for half a second from the third, two do not |
| `EpochLease.AnsweredCallsHeal` | docs/partition-simulation/partition_simulation.py:212-254 | an answered call closes the breaker or takes one failure off it, whether granted or refused; a call that is not sent leaves it alone |
| `EpochLease.RunKeepsInv` | docs/partition-simulation/partition_simulation.py:49-91 | every interleaving keeps: the epoch key counts the wins, the lease key holds the last winner that has not lost it, the log is legal |
| `EpochLease.ScriptsDecideAsTheHistory` | docs/partition-simulation/partition_simulation.py:49-91 | in every reachable state each script accepts a request exactly when the history of successes allows it next |
| `EpochLease.OneWinnerPerEpoch` | docs/partition-simulation/partition_simulation.py:56-66 | in every run the epochs won are exactly 1 to the epoch key, and each has one winner |
| `EpochLease.HolderIsCurrentWinner` | docs/partition-simulation/partition_simulation.py:49-91 | in every run the lease holder won the current epoch, and whoever was told of a success had one |
| `EpochLease.EpochsNeverDecrease` | docs/partition-simulation/partition_simulation.py:49-81 | the epochs of successful acquires and renews never fall in server order and rise by exactly one per acquire |
| `EpochLease.StaleEpochIsFenced` | docs/partition-simulation/partition_simulation.py:56-80 | once the epoch has passed e, no continuation lets an acquire or renew that presents e change anything |
| `EpochLease.NextAcquireFencesTheWinner` | docs/partition-simulation/partition_simulation.py:56-80 | any acquire that succeeds after a node won e makes e stale for ever |
| `EpochLease.HandoverNeedsExpiryOrRelease` | docs/partition-simulation/partition_simulation.py:56-66 | between successful acquires of two nodes the first (with a name that is not empty) lost its lease by expiry or release |
| `EpochLease.DirectTakeoverExactlyFromEmptyId` | docs/partition-simulation/partition_simulation.py:56-66 | a live lease of somebody else can be taken exactly when its holder's name is empty |
| `EpochLease.ScriptAloneReusesEpochs` | docs/partition-simulation/partition_simulation.py:49-66 | the script alone grants one epoch twice when handed it twice: the client's increment is needed |
| `CircuitBreakers.CircuitBreaker.State` | docs/partition-simulation/partition_simulation.py:157-163 | reading the state turns OPEN into HALF_OPEN exactly when the timeout has elapsed |
| `CircuitBreakers.CircuitBreaker.RecordSuccess` | docs/partition-simulation/partition_simulation.py:165-171 | the new state after a success |
| `CircuitBreakers.CircuitBreaker.RecordFailure` | docs/partition-simulation/partition_simulation.py:173-179 | the new state after a failure |
| `CircuitBreakers.CircuitBreaker.AllowRequest` | docs/partition-simulation/partition_simulation.py:181-187 | a request is refused exactly while the breaker is OPEN and its timeout has not elapsed |
| `CircuitBreakers.CounterIsWorstSuffix` | docs/partition-simulation/partition_simulation.py:165-179 | until it trips, the counter is the largest net failure count of any stretch that ends now |
| `CircuitBreakers.TripsExactlyWhenOverloaded` | docs/partition-simulation/partition_simulation.py:165-179 | a breaker that is new or closed with nothing counted trips exactly when some stretch of the history has threshold more failures than successes |
| `CircuitBreakers.FailuresNeverReopen` | docs/partition-simulation/partition_simulation.py:157-187 | without a success nothing leaves HALF_OPEN or renews the opening time: a failed probe does not reopen it |
| `CircuitBreakers.BlocksExactlyUntilTheTimeout` | docs/partition-simulation/partition_simulation.py:157-187 | tripped at time t and until a success, the breaker refuses at time u exactly when u - t is within the timeout and nobody has looked at it after the timeout |
| `CircuitBreakers.TripsAgainExactlyWhenOverloaded` | docs/partition-simulation/partition_simulation.py:165-179 | a success closes a tripped breaker, which opens again exactly when some stretch since then is overloaded |
| `PaymentQueue.BackoffGrowsToItsCap` | server/paymentWorker.ts:43-45 | the delay never falls and reaches the cap exactly from the twelfth attempt on |
| `PaymentQueue.BackoffDoublesFromOneSecond` | server/paymentWorker.ts:43-45 | the delay starts at one second and doubles with each attempt until the cap of an hour |
| `PaymentQueue.ChangedRowsAreLeftAlone` | server/paymentWorker.ts:375-392 | for a minute after any change of a row, a claim included, recovery leaves the row alone |
| `PaymentQueue.QueuedRowsAreDue` | server/paymentWorker.ts:375-464 | how a row comes to be queued and when it is due: at once when recovered, retried or new with a time, after the delay of its attempts when put back |
| `PaymentQueue.RunKeepsRetryTimes` | server/paymentWorker.ts:330-347 | in every run failed rows have a retry time, dead letters none, and a queued row has none only if it was queued without one |
| `PaymentQueue.EnqueuedRow` | server/routers/batchPayments.ts:52-62 | the columns of a new payment |
| `PaymentQueue.OpenedAccount` | server/_core/paymentAccountProvisioner.ts:101-112 | a new account has nothing posted or pending, an existing one stays |
| `PaymentQueue.PostMovesPendingToPosted` | server/paymentWorker.ts:263-281 | a mirror update raises posted by the amount and lowers pending on its side, not below zero |
| `PaymentQueue.RunKeepsInv` | server/paymentWorker.ts:257-472 | any number of workers, crashes, recoveries and double processing keep: each posted total is what the applied mirror updates posted |
| `PaymentQueue.SurplusIsDifference` | server/balanceDrift.ts:71-105 | the surplus (amount times applications minus committed) is received minus committed |
| `PaymentQueue.DriftExplained` | server/paymentWorker.ts:257-313 | in every run each account's drift is the sum over items of amount times (effective mirror updates minus one if committed) |
| `BalanceDrift.RunBalanceDriftCheck` | server/balanceDrift.ts:49-137 | the loop reports exactly the drifting accounts with mirror and queue totals and each drift as mirror minus queue, the two totals, and clean exactly when every drift of both sides is zero |
| `BalanceDrift.ReportTellsTheSurpluses` | server/balanceDrift.ts:95-128 | in every run there is one record for each account with a surplus and for no other, and its drifts are the surpluses of mirror applications, sign included |
| `BalanceDrift.TotalsTellTheSurpluses` | server/balanceDrift.ts:107-128 | in every run each reported total is the sum of the magnitudes of the surpluses |
| `BalanceDrift.CleanExactlyWhenNoSurplus` | server/balanceDrift.ts:71-136 | in every run the check is clean exactly when no account has a surplus on either side |
| `BalanceDrift.TotalsVanishExactlyWhenClean` | server/balanceDrift.ts:107-128 | the totals are sums of absolute values: opposite drifts do not cancel |
| `BalanceDrift.MirrorTotals` | server/paymentWorker.ts:257-282 | conservation: in every run all posted amounts of a side are the amounts of the effective updates of that side |
| `PaymentLease.RunKeepsExclusive` | server/paymentWorker.ts:286-443 | while all steps meet the three guards, at most one live handler works on a row and its stage fits the row |
| `PaymentLease.StepIsSafeExactlyWhen` | server/paymentWorker.ts:299-464 | a step keeps exclusion exactly when recovery respects the lease, the requeue after an error hits no committed row, and a retry hits no committed or held row |
| `PaymentLease.RunStaysExclusiveExactlyWhen` | server/paymentWorker.ts:286-472 | all states of a run are exclusive exactly when every step meets the three guards |
| `PaymentLease.CommittedAndMirroredAtMostOnce` | server/paymentWorker.ts:286-313 | while all steps meet the three guards, each item is committed at most once, exactly if its status says so, and mirrored at most as often; lost replies of final updates are included |
| `PaymentLease.CommittingOnceNeedsExactlyTheGuards` | server/paymentWorker.ts:299-464 | after a step that meets its guard no continuation of guarded steps commits an item twice; after a step that misses it, whichever it is, some continuation of guarded steps does |
| `PaymentLease.RunCommitsOnceExactlyWhen` | server/paymentWorker.ts:286-472 | over whole runs: no state is one from which guarded steps can commit an item twice exactly when every step of the run meets its guard |
| `PaymentLease.RecoveryIsSafeExactlyWhenLeaseRespected` | server/paymentWorker.ts:375-392 | recovery keeps exclusion exactly when it touches no row that a live handler holds |
| `PaymentLease.UnrespectedLeaseCommitsTwice` | server/paymentWorker.ts:299-306 | from any state with a stuck row under a live handler that the switch may still confirm (waiting, calling or confirmed) a run of two handlers commits it twice |
| `PaymentLease.LostCommitReplyCommitsTwice` | server/paymentWorker.ts:452-464 | from any state with a confirmed handler, a commit whose reply is lost sends the committed row back to the queue, where it is committed a second time |
| `PaymentLease.RetryOfCommittedCommitsTwice` | server/routers/batchPayments.ts:104-107 | from any state with a committed row, a retry that hits it leads to a second commit |
| `PaymentLease.LostRefusalReplyIsRetried` | server/paymentWorker.ts:452-464 | a refusal whose reply is lost meets the three guards and sends the failed or dead row back to the queue, where it is refused a second time and its attempts are counted on |
| `PaymentLease.CommittedIsFinal` | server/paymentWorker.ts:103-121 | under the three guards alone a committed row stays committed and a stored preimage is never replaced |
| `PaymentLease.StepKeepsFinalExactlyWhen` | server/paymentWorker.ts:299-464 | a guarded step leaves every final state alone, dead letters of a retry apart, exactly when a requeue finds its row still processing and a retry no failed row |
| `PaymentLease.FinalStatesAbsorb` | server/paymentWorker.ts:103-121 | while a requeue moreover finds its row still processing and a retry no failed row, committed and failed are never left, dead_letter only by a retry, and a stored preimage never changes |
| `PaymentAttempts.FirstRefusalIsFinal` | server/paymentWorker.ts:329-347 | under the same conditions as the absorption of final states the attempt counter never exceeds one, and a refused row is dead-lettered at once or failed for good |
| `PaymentLease.QuiescentStatesAreClean` | server/balanceDrift.ts:71-136 | after a run under the three guards in which every mirror update succeeds and no handler dies before it, with no handler live, the check is clean and total debits equal total credits; refusals with lost replies are included |
| `PaymentWorkers.BatchTakesTheEarliest` | server/paymentWorker.ts:407-425 | the claimed batch holds at most fifty queued rows whose retry time has come, earliest first, and no such row left out comes before one that is in |
| `PaymentWorkers.StuckRowsAreClaimed` | server/paymentWorker.ts:375-425 | a row in process for a minute is recovered and claimed by the next cycle whose first two statements succeed, unless the cycle takes fifty earlier ones |
| `PaymentWorkers.QueuedRowsAreClaimed` | server/paymentWorker.ts:407-425 | in every run any other queued row has a retry time, and a claim after it takes the row or fifty earlier ones |
| `PaymentWorkers.UntimedPaymentsAreNeverClaimed` | server/routers/payments.ts:158-173 | a payment queued without a retry time stays as it was queued in every continuation without an administrative retry of it |
| `PaymentWorkers.WorkersLeaveUntimed` | server/paymentWorker.ts:407-420 | what a worker claims are rows with a retry time that has come |
| `PaymentWorkers.PaymentWorker.RecoverStuckItems` | server/paymentWorker.ts:375-392 | rows in process for a minute become queued and due at once, column by column; nothing else changes |
| `PaymentWorkers.PaymentWorker.ClaimBatch` | server/paymentWorker.ts:407-443 | the batch is claimed in one statement and handed over as copies |
| `PaymentWorkers.PaymentWorker.EnsureIlpPreimage` | server/paymentWorker.ts:103-121 | an existing preimage is kept, otherwise a generated one is stored before the call |
| `PaymentWorkers.PaymentWorker.CallMojaloopTransfer` | server/paymentWorker.ts:127-253 | the outcome of the switch is free; no row is touched |
| `PaymentWorkers.PaymentWorker.UpdateBalanceMirror` | server/paymentWorker.ts:257-282 | debit first, then credit; an error stops the rest and is swallowed: the accounts after every combination of replies |
| `PaymentWorkers.PaymentWorker.ProcessItem` | server/paymentWorker.ts:286-369 | without an error the row ends committed, dead-lettered or failed as the switch and the attempts say, with the attempts and the retry time of that failure |
| `PaymentWorkers.PaymentWorker.RequeueAfterError` | server/paymentWorker.ts:452-464 | an unexpected error puts the row back to queued, due after the delay of its attempts |
| `PaymentWorkers.PaymentWorker.ProcessBatch` | server/paymentWorker.ts:449-466 | the loop finishes every claimed handler, touches no other, and reports the batch unless a failing requeue ended it |
| `PaymentWorkers.PaymentWorker.RunPaymentWorkerCycle` | server/paymentWorker.ts:396-472 | a cycle, whatever happens to its recovery, its claim and every other statement, issues exactly the statements that its batch and the replies call for, its final tables are what these lead to, and a healthy start stays healthy |
| `PaymentWorkers.HealthyWorkerIsClean` | server/balanceDrift.ts:71-136 | between healthy cycles every drift is zero and the two sides balance |
| `MaritimeSingleWindow.RunKeepsInv` | server/mswService.ts:414-933 | every run keeps the declaration chain, maker-checker, anchored pratiques and boardings under a grant |
| `MaritimeSingleWindow.VersionsFormAChain` | server/mswService.ts:424-452 | with read and insert interleaved freely the versions of a (visit, form) pair are exactly 1 to n, each once, and each names its predecessor's digest |
| `MaritimeSingleWindow.SubmissionsNeverChange` | server/mswService.ts:541-553 | no later step changes the submitted part of a declaration or undoes its review |
| `MaritimeSingleWindow.ReviewerIsNeverTheSubmitter` | server/mswService.ts:524-529 | every reviewed declaration of every run was reviewed by somebody other than its submitter |
| `MaritimeSingleWindow.StatusTellsTheReview` | server/mswService.ts:492-553 | in every run a declaration is ACCEPTED exactly when some step accepted it while current and submitted, for an agency and by another user, and RETURNED exactly when some step returned it so; reviewer, agency and reason are those of that step |
| `MaritimeSingleWindow.ReviewIs` | server/mswService.ts:484-553 | the review on the rows: guards in their order, each with its error, then the decision |
| `MaritimeSingleWindow.InsertIs` | server/mswService.ts:424-473 | an insert is refused exactly when its version has been taken, and otherwise adds one submitted row |
| `MaritimeSingleWindow.AgenciesOfRoles` | server/mswService.ts:113-133 | which agency each role acts for |
| `MaritimeSingleWindow.CompletedBoardingsCarryTheGrant` | server/mswService.ts:772-794 | every completed boarding beyond Port Health carries the digest of the visit's latest decision at that time, a grant anchored to its declaration of health |
| `MaritimeSingleWindow.NobodyIsScheduledBeforePratique` | server/mswService.ts:700-747 | in every run a party beyond Port Health is scheduled only after an anchored grant of the visit |
| `MaritimeSingleWindow.DecisionsTellTheCalls` | server/mswService.ts:608-650 | in every run each pratique row is the decision that some call made, granted or refused as it said |
| `MaritimeSingleWindow.StatusTellsTheLastGrant` | server/mswService.ts:878-961 | in every run a visit shows the kind of the last clearance granted to it, or none; refusals do not touch it |
| `MaritimeSingleWindow.DepartureMeansHealthAndBoarding` | server/mswService.ts:831-913 | a departure clearance implies a current declaration of health that some step accepted for an agency and another user, a grant as the last pratique decision, and a joint boarding under an anchored grant |
| `MaritimeSingleWindow.DepartureClearancesStayJustified` | server/mswService.ts:878-933 | every granted departure clearance stays justified in every later state |
| `MaritimeSingleWindow.DepartureExactlyWhen` | server/mswService.ts:831-897 | the exact condition under which departure is granted, stated on the columns of rows that no newer version supersedes |
| `MaritimeSingleWindow.LatestIsCurrent` | server/mswService.ts:833-850 | the highest version per form is the row that no newer version supersedes |
| `MswServices.MswService.OpenVisit` | server/mswService.ts:307-325 | appends an announced visit |
| `MswServices.MswService.SubmitDeclaration` | server/mswService.ts:414-473 | an undisturbed call is its read and its insert, and the new row is the current version |
| `MswServices.MswService.ReviewDeclaration` | server/mswService.ts:483-582 | guards in their order, each with its error, then ACCEPTED or RETURNED with reviewer, agency and reason on that row alone |
| `MswServices.MswService.RecordPratique` | server/mswService.ts:607-675 | guards in their order, each with its error, then the decision as called, which is the latest of its visit |
| `MswServices.MswService.Schedule` | server/mswService.ts:700-747 | guards in their order, each with its error; a party beyond Port Health needs a grant as the last decision |
| `MswServices.MswService.Complete` | server/mswService.ts:759-815 | guards in their order; the party that boarded, not the scheduled one, is recorded and decides whether a grant is needed and recorded |
| `MswServices.MswService.CollectLatest` | server/mswService.ts:833-842 | the first row seen per form in descending version order is its latest version |
| `MswServices.MswService.CollectAccepted` | server/mswService.ts:833-858 | the summaries of the latest versions, or none when one is not accepted |
| `MswServices.MswService.EvaluateDeparturePreconditions` | server/mswService.ts:831-876 | the checklist is the same for every order in which the database returns the rows |
| `MswServices.ChecklistIsTold` | server/mswService.ts:863-875 | the checklist holds exactly the newest versions in form order, the digest of the grant in force and the joint boardings in order |
| `MswServices.SummariesSortAlike` | server/mswService.ts:867-872 | any listing of the latest summaries sorts to one list |
| `MswServices.JointBoardingsSortAlike` | server/mswService.ts:858-875 | any listing of the completed boardings yields one sorted list of joint boardings |
| `MswServices.MswService.Grant` | server/mswService.ts:878-933 | guards in their order, each with its error, then the clearance, its checklist and the status of the visit |
| `MswServices.MswService.Refuse` | server/mswService.ts:935-986 | guards in their order; a refusal is recorded and the visit keeps its status |
| `Sorting.SortSorts` | server/pcsProjection.ts:223-228 | sorting gives an ordered permutation |
| `Sorting.SortIgnoresOrder` | server/mswService.ts:867-875 | without ties the result depends on the elements only |
| `PcsProjection.PcsProjectionStore.InsertMilestone` | server/pcsProjection.ts:286-299 | a second milestone of a consignment from the same event is not stored |
| `PcsProjection.PcsProjectionStore.InsertBillingSnapshot` | server/pcsProjection.ts:314-321 | a second snapshot from the same event is not stored |
| `PcsProjection.PcsProjectionStore.ProjectPcsEvent` | server/pcsProjection.ts:146-220 | one completed projection: tables and outcome |
| `PcsProjection.NewEventsAreProjected` | server/pcsProjection.ts:176-219 | a projection ends as projected, or is interrupted before the pointer, exactly for a mapped event of a linked booking whose milestone is not stored yet |
| `PcsProjection.OutcomeIs` | server/pcsProjection.ts:146-219 | the outcome of a complete delivery, each under its condition on event type, amount, link and stored rows |
| `PcsProjection.CreatedConsignment` | server/pcsProjection.ts:183-200 | a consignment created for a booking: owner, sources and pointer |
| `PcsProjection.MovedPointerNotesItsSource` | server/pcsProjection.ts:301-313 | the event becomes a source exactly when it moves the pointer |
| `PcsProjection.RunKeepsInv` | server/pcsProjection.ts:179-218 | any deliveries with crashes at any statement keep: links fixed once set, a new consignment on one link, every milestone from a delivered event, no duplicates |
| `PcsProjection.MilestonesAreAnchored` | server/pcsProjection.ts:179-211 | every milestone stems from a delivered event through the link of its booking and sits on a consignment of that link's trader |
| `PcsProjection.MilestonesAreExpected` | server/pcsProjection.ts:176-211 | once each event has been completed, a booking shows exactly the milestones that the types of the events of bookings sharing its consignment announce |
| `PcsProjection.MilestonesConverge` | server/pcsProjection.ts:176-219 | two delivery sequences of the same events, in any order, with duplicates and crashes, show the same milestones |
| `PcsProjection.PointersNeverMoveBackward` | server/pcsProjection.ts:213-218 | no delivery, crashed or not, moves a pointer back, drops a milestone or detaches a link |
| `PcsProjection.PointersStayTheMaximumExactlyWhen` | server/pcsProjection.ts:203-218 | a delivery, however it stops, leaves every pointer leading exactly when it does not stop between insert and update with a new milestone later than the pointer |
| `PcsProjection.ReachedExactlyWhen` | server/pcsProjection.ts:213-218 | in any run with any crashes a pointer has reached a time exactly when some first complete delivery on its consignment has at least that time |
| `PcsProjection.PointersLeadExactlyWhen` | server/pcsProjection.ts:203-218 | after any run with any crashes no milestone is later than its pointer exactly when every lost update has been overtaken by a first complete delivery on the same consignment |
| `PcsProjection.OtherCrashesLoseNothing` | server/pcsProjection.ts:211-218 | the condition holds in particular when no delivery stops between insert and update |
| `PcsProjection.PointerIsTheMaximum` | server/pcsProjection.ts:213-218 | once every lost update has been overtaken, the pointer is the latest time shown, with the name of a milestone at that time |
| `PcsProjection.PointersConverge` | server/pcsProjection.ts:213-218 | under the same condition the time converges, whatever crashes there were, and the name too when the latest time has one name |
| `PcsProjection.NameDependsOnOrderOfTies` | server/pcsProjection.ts:213-218 | the two orders of two first milestones give the pointer one name exactly when the milestones have one name or different times |
| `PcsProjection.LostPointerUpdateIsNotRepaired` | server/pcsProjection.ts:211-218 | after a lost update the milestone is shown, the pointer is behind it, and no redelivery, crashed or complete, changes anything |
| `PcsProjection.PointerStaysBehind` | server/pcsProjection.ts:211-218 | from any fresh state one such crash and any number of complete redeliveries end with a milestone shown and no pointer |
| `PcsProjection.PointerIsTheLastInDisplayOrder` | server/pcsProjection.ts:223-228 | the pointer agrees with the last row of the display order, by time and then row number, a permutation of the rows |
| `PcsProjection.BilledAtMostOnce` | server/pcsProjection.ts:153-174 | no event has two snapshots |
| `PcsProjection.BillingIsExact` | server/pcsProjection.ts:153-174 | the snapshots are exactly those of the delivered paid and refunded events, with the positive amount of the extension or else of the payload |
| `GeoProjection.GeoVesselConsumer.ProjectVesselPosition` | server/geoVesselProjection.ts:101-137 | an event that has a row is not stored again |
| `GeoProjection.GeoVesselConsumer.EachMessage` | server/geoVesselProjection.ts:221-307 | every branch of the handler: rejection, dead letter, acknowledgement, insert, commit or return |
| `GeoProjection.CommitsOnlyAfterSettling` | server/geoVesselProjection.ts:221-306 | the committed offset moves only past a record with a durable outcome |
| `GeoProjection.PassedRecordsAreSettled` | server/geoVesselProjection.ts:221-306 | with a restart after each delivery that leaves its record without a durable outcome every record passed is settled |
| `GeoProjection.CommittedPrefixIsSettled` | server/geoVesselProjection.ts:221-306 | then every valued record below the committed offset has a durable outcome |
| `GeoProjection.SettledAfterDelivery` | server/geoVesselProjection.ts:221-306 | a delivery gives its record a durable outcome exactly under the guard of the row, the dead letter or the acknowledgement |
| `GeoProjection.WithoutRestartAFailureIsPassedOver` | server/geoVesselProjection.ts:221-306 | for any two records and any failures: the second delivery passes over an unsettled first record exactly when the first did not settle it, the second commits, and the second does not write the row of the same event |
| `GeoProjection.FailedKeysBlockTheSession` | server/geoVesselProjection.ts:221-250 | once the keys of a session have failed to parse nothing is stored or committed until a restart |
| `GeoProjection.RestartParsesAnew` | server/geoVesselProjection.ts:221-250 | after a restart the first record parses the keys anew |
| `GeoProjection.RedeliveryChangesTableExactlyWhen` | server/geoVesselProjection.ts:113-127 | a delivery changes the table exactly when it verifies, is a new position and the write takes effect |
| `GeoProjection.StableOutcomes` | server/geoVesselProjection.ts:246-306 | while verdicts do not change, each outcome found in the tables is the one its record deserves |
| `GeoProjection.RedeliveryIsIdempotent` | server/geoVesselProjection.ts:113-127 | with stable verdicts and restarts, redelivering any committed record leaves the table alone |
| `GeoProjection.RowsAreFirstRows` | server/geoVesselProjection.ts:101-137 | with stable verdicts and restarts every stored row is that of the first verified position of its event |
| `GeoProjection.ConsumedTableIsComplete` | server/geoVesselProjection.ts:221-306 | after the log is consumed the table has exactly the events with a verified position |
| `GeoProjection.ConsumersConverge` | server/geoVesselProjection.ts:221-306 | two sessions that consume the same log end with equal tables, whatever failures and restarts they had |
| `GeoProjection.SmoothRunsConsume` | server/geoVesselProjection.ts:221-306 | while everything works the committed offset passes every valued record, of every kind |
| `RateLimiters.RateLimiter.CheckRateLimit` | microservices/anomaly-detection/main.py:120-132 | the popping loop and the append: new list and decision |
| `RateLimiters.ListMatchesHistory` | microservices/anomaly-detection/main.py:126-132 | popping the list to any later cutoff leaves as many entries as the history has allowed calls since |
| `RateLimiters.LimiterFollowsHistory` | microservices/anomaly-detection/main.py:120-132 | a call is allowed exactly when fewer than limit earlier allowed calls of its key lie in the closed window |
| `RateLimiters.AdmittedAsHistoryDemands` | microservices/anomaly-detection/main.py:120-132 | in any interval the limiter has allowed as many calls of a key as the history demands |
| `RateLimiters.EveryWindowHoldsAtMostLimit` | microservices/anomaly-detection/main.py:120-132 | in every closed window of sixty seconds the limiter has allowed at most limit calls of a key |
| `RateLimiters.EveryCallSeesTheLatestWindow` | microservices/anomaly-detection/main.py:123-130 | after readings in order any call, stale or not, is allowed exactly when fewer than limit allowed calls lie in the window that ends at the latest reading |
| `RateLimiters.FollowsHistoryExactlyWhen` | microservices/anomaly-detection/main.py:123-130 | after readings in order any call, stale or not, is decided as the history demands exactly when its own window and the one that ends at the latest reading have the limit on the same side |
| `RateLimiters.ExactExactlyWhenAscending` | microservices/anomaly-detection/main.py:126-128 | popping leaves exactly the entries that are not older than the cutoff, whatever the cutoff, exactly when the list is ascending; entries later than a stale call are counted with them |
| `RateLimiters.AppendKeepsExactExactlyWhen` | microservices/anomaly-detection/main.py:131 | an appended reading keeps the list so exactly when it is not older than the last entry |
| `RateLimiters.DisorderRefusesSomeCall` | microservices/anomaly-detection/main.py:126-130 | with any other list some later call is refused although its window has room |
| `RateLimiters.StaleReadingBreaksTheWindow` | microservices/anomaly-detection/main.py:123-130 | a reading older than its predecessor, by however little, has a later call refused that the history allows |
| `RateLimiters.StaleReadingAdmitsTooMany` | microservices/anomaly-detection/main.py:123-132 | for every limit of two or more a stale reading, by however little, lets limit plus one calls into one closed window |
| `RateLimiters.BoundHoldsUnderAnyClockExactlyWhen` | microservices/anomaly-detection/main.py:120-132 | for a key with a fixed limit the window bound holds whatever the clock does exactly when the limit is at most one |
| `AuditChain.AuditLog.ReadLatestHash` | server/db.ts:550-560 | the hash of a row with the greatest time of the entity, none when it has no row |
| `AuditChain.AuditLog.LogAuditEvent` | server/db.ts:544-583 | appends one entry that points at a newest row and carries the hash of its seven fields in their order |
| `AuditChain.TrailIsInTime` | server/db.ts:541-543 | the trail lists exactly the rows of the entity, oldest first |
| `AuditChain.SerialTrailsVerify` | server/db.ts:544-583 | serial appends with increasing times, interleaved with anything on other entities, leave a trail that verifies |
| `AuditChain.OverlappingAppendsForkTheChain` | server/db.ts:550-582 | from any state, two appends that read the same newest row are both stored, and unless contents collide no listing of the entity's rows verifies |
| `AuditChain.ForkedListingFails` | server/db.ts:541-543 | no listing with two entries that point at the same entry verifies |
| `AuditChain.RowKeepsTrailExactlyWhen` | server/db.ts:541-543 | a further row, listed at any position, keeps a verifying trail verifying exactly when it is listed last and points at the last entry |
| `AuditChain.LateRowKeepsTrailExactlyWhen` | server/db.ts:541-543 | listed by time, exactly when no stored row is later and it points at the last |
| `AuditChain.JoinIsInjective` | server/db.ts:565-573 | the joined text determines its fields although the last may hold the separator |
| `AuditChain.LastHashBindsTheTrail` | server/db.ts:536-543 | unless two contents collide, two verifying trails end in the same hash exactly when they agree on every hashed field of every entry |
| `Duty.RoundingError` | server/businessRules.ts:316-319 | half-up rounding: the error lies in (-1/2, 1/2] |
| `Duty.ComponentErrors` | server/businessRules.ts:321-353 | each charge is its own rate on its own base, rounded on its own, and the value is invoice, freight and insurance |
| `Duty.TotalIsNearlyExact` | server/businessRules.ts:321-353 | the total differs from the unrounded one by at most 2 + 1.5 times the VAT rate minor units, hence 3.5 |
| `Duty.BoundIsAttained` | server/businessRules.ts:321-353 | the bound is attained |
| `Duty.DutyIsMonotone` | server/businessRules.ts:321-353 | every component is monotone in the CIF value and in each rate |
| `Duty.SplittingChangesOnlyRounding` | server/businessRules.ts:321-353 | two partial declarations total the same as one up to three error bounds |
| `IdempotencyKey.RollingHash` | server/businessRules.ts:428-435 | the shift-and-wrap loop is the base-31 polynomial reduced to a signed 32-bit word |
| `IdempotencyKey.GeneratePaymentIdempotencyKey` | server/businessRules.ts:422-437 | the key of the four fields in their order, prefix and eight digits |
| `IdempotencyKey.KeyIsTheMagnitude` | server/businessRules.ts:436 | exactly eight hexadecimal digits, whose value is the magnitude of the hash, also at the smallest word |
| `IdempotencyKey.KeysAgreeExactlyWhen` | server/businessRules.ts:428-436 | two texts share a key exactly when their polynomials are congruent up to sign modulo 2^32 |
| `IdempotencyKey.CongruentBlocksShareAKey` | server/businessRules.ts:430-436 | replacing a block by one of equal length and residue never changes the key |
| `IdempotencyKey.TwoAmountsShareAKey` | server/businessRules.ts:418-437 | two amounts have the same key for every declaration, currency and trader |
| `KeyScoping.PrefixesAreExactly` | rustfs-svc/main.go:161-175 | the possible prefixes are one to sixty-four safe characters and a slash |
| `KeyScoping.CallerPrefixIs` | rustfs-svc/main.go:165-175 | the prefix on positions of the name: trimmed, unsafe characters replaced, cut at sixty-four; refused exactly when only space |
| `KeyScoping.CallersShareANamespaceExactlyWhen` | rustfs-svc/main.go:161-175 | two callers get one prefix exactly when their trimmed names agree up to sanitising and truncation |
| `KeyScoping.ScopedStartsWithPrefix` | rustfs-svc/main.go:177-193 | every scoped key starts with the prefix |
| `KeyScoping.ScopedKeyIs` | rustfs-svc/main.go:179-193 | the scoping on positions of the text: refused exactly when empty or with a parent segment, and otherwise the trimmed text with the prefix once |
| `KeyScoping.ScopingTwiceIsScopingOnceExactlyWhen` | rustfs-svc/main.go:177-193 | scoping again is the identity, and no segment is the parent, exactly when the prefix is not `../` |
| `KeyScoping.NamespacesAreDisjoint` | rustfs-svc/main.go:177-193 | two different prefixes never share a key |
| `KeyScoping.SameObjectExactlyWhen` | rustfs-svc/main.go:189-192 | which presented keys of one caller address the same object |

## Left out

Of the modelled files:

- Lease: time to live and clocks are a free expiry step; the scripts' numbers are doubles in Redis, so the
  model speaks of epochs below 2^53. The latency, the holder query and the thread locks are not modelled.
- Circuit breaker: the close counter is modelled as a field, the lock as atomic methods.
- Payments: the columns for the last error, commit time, dead-letter time and metadata, the Mojaloop HTTP
  exchange (a free confirmation), notifications and metrics. A dead-letter retry may pick any dead row: its
  one-hour age limit is not modelled. The drift check reads one snapshot of its two queries.
- PaymentWorkers.PaymentWorker.CallMojaloopTransfer: does not model the two calls of the exchange or the test of
  an echoed fulfilment, because the hash and the switch are foreign; their outcome is a free confirmation.
- PaymentWorkers.PaymentWorker.RunPaymentWorkerCycle: is a cycle that no other worker interrupts, because the
  object's fields are its own while a method runs; `PaymentQueue.RunKeepsInv` and the lease theorems cover
  interleaved runs.
- Maritime Single Window: public identifiers are positions (their text order agrees up to six digits), record
  digests are inputs, and port-call verification, nominations and events have no part. Form types are typed,
  so that an unknown form is not expressible.
- PCS projection: `consignee`, `portCode` and `sourceEventIds` depend on the delivery order by design; the
  envelope verification, text fields of a snapshot and Kafka are not modelled. Deliveries are sequential.
- GeoProjection.RedeliveryIsIdempotent: needs verdicts that do not change between sessions; with a changed key
  ring a record once sent to the dead-letter topic may later be stored.
- Vessel positions: unit conversions are floating point; a failing commit after a dead letter counts as an
  uncommitted return.
- RateLimiters.LimiterFollowsHistory: needs clock readings of a key that do not decrease in lock order; how a stale
  call is decided and what it does to later ones is shown by the members named above. Times are real numbers.
- AuditChain.LastHashBindsTheTrail: takes entity types and actions without the separator; digests and
  timestamps are parameters. Previous state, actor type, address, user agent and metadata are not hashed by
  the code, so the chain says nothing about them.
- Duty: parsing decimals into minor units and basis points, and dividing the result by one hundred, are
  floating point. Products are exact, as doubles are below 2^53.
- Idempotency key: the two-decimal rendering of the amount is an input.
- Key scoping: a name or key is a sequence of valid characters; malformed UTF-8 is not modelled.

Of the repository:

- Transition tables and roles, risk-lane scoring, the OGA permit transition, SLA windows, permit warnings and
  AEO scores: facts read off one table or one branch.
- Metrics counters, the moving average, the anomaly rules and the distance formula: floating point or counters.
- The rest of the server, the client, the other services, storage, telemetry and deployment files: plumbing.
