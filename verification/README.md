# pg-boss, modelled and proved

pg-boss is a job queue on Postgres. Much of what it promises is decided not by one statement but by
protocols between processes that share a table: who runs the cron pass, when a flow's children may
start, which of two racing fetches gives its jobs back, whether a handler's transaction may commit. This
project models those protocols, and the algorithms around them, and proves what they promise.

Protocols are state machines: a state, the atomic steps (one SQL statement, or the code between two
awaits), an invariant kept by every step, and theorems over every reachable state. Code that updates
objects in place is a class or a method with loops, proved against a function or a predicate whose own
properties are lemmas. Times are integer milliseconds on one clock.

| modules | what they are about |
|---|---|
| `Occurrences`, `RRule`, `ClaimTimer`, `CronPass`, `CronRun`, `CronClaims`, `CronCoverage`, `CronOutages`, `CronLoss` | the cron protocol: racing claims on one row, what a pass reads and files, and over every run: one pass at a time, every occurrence gets one job, and what an outage costs |
| `FlowGraph`, `FlowCycle`, `FlowRows`, `FlowRun`, `FlowProgress`, `FlowForced`, `Navigator`, `NavigatorPasses` | flows: validation, the rows they become, the invariant of the counters over every run, freedom from deadlock of every single flow, the resolver |
| `JobTable` | failing jobs by delete and insert under the partial unique indexes |
| `GroupConcurrency`, `LocalGroups` | group limits across instances and within one |
| `CommitGuard`, `Overruns` | the transactional commit guard, and the overrun tally |
| `TestClock` | the discrete-event clock |
| `Placeholders`, `ArrayParams` | query rewriting in the adapters |
| `PgliteGate` | session setup under leader changes |
| `Latency` | merging histograms and reading percentiles |
| `Runs` | runs of a state machine: induction over them, and reaching a goal by steps that leave less work |
| `Names`, `JobStates`, `Options`, `Sets`, `Arithmetic` | shared definitions |

## Where the code does less than it seems to promise

* **A claim whose pass never runs costs occurrences.** The winner of a claim may stop between the stamp
  and its pass. The next pass then measures its catch-up from that stamp, so what lies between the last
  pass and the stamp, and is out of the due window by then, is never read. The comment at
  src/timekeeper.ts:739-753 reasons from the stamps alone. `CronOutages.LostBetweenPasses` says exactly which
  instants no pass of the run ever reads, `CronOutages.LostIffAbandoned` exactly when there are any, and
  `CronLoss.AbandonedClaimLosesOccurrence` is such a run.
* **Failing a queued job can lose it.** `fail()` also takes jobs that are not active. A queued
  `key_strict_fifo` job whose key another job holds is deleted and then refused by `job_i8` both as
  `retry` and as `failed`. `JobTable.NoneLostIffNoRivals` is the exact condition,
  `JobTable.ActiveJobsHaveNoRivals` says that workers and expiry sweeps always meet it, and
  `JobTable.QueuedJobLost` is a table on which it fails.
* **A settle that reaches beyond the batch is not fenced.** src/manager.ts:1143-1150 says that there is
  nothing to fence it to; what follows is that such a settle can land on a newer attempt of the batch's own
  job and the transaction still commits. `CommitGuard.SafeIffWithin` is the exact condition, and
  `CommitGuard.BeyondTheBatchIsUnfenced` is such a run. `CommitGuard.RestoreDefeatsTheFence` is the other
  gap, the one src/plans.ts:2842-2845 names.
* **Completing a blocked flow child and restoring it skips its parents.** `complete(..., includeQueued)`
  clears the count that `restore()` does not bring back. `FlowRun.ForcedSkipsIffBlocked` says when parents
  are left uncounted: iff the job was `blocked` before the call. `FlowRun.ForcedSkipsParentIff` is the exact
  condition for it to start before some parent has completed: iff one of the parents it was still blocked by
  had not. `FlowForced.ForcedJobSkipsParents` is a run in which it can start before its parent has.

## Model

| member | source | states |
|---|---|---|
| Occurrences.InWindow | src/rrule.ts:324-331 | a due-window read answers with every occurrence in (after, until], each once and in order, and with nothing else |
| Occurrences.LatestBefore | src/timekeeper.ts:822-840 | a single-point read answers with the greatest occurrence in the range, or with none exactly when the range has none |
| RRule.LatestOccurrenceBefore | src/rrule.ts:383-422 | for every occurrence set and every library that may refuse ranges, the search answers with the latest occurrence in (after, until] or none iff there is none; it gives up only on a refused range no wider than an hour; without refusals the number of reads is logarithmic in the range |
| RRule.CoveredIsGeometric | src/rrule.ts:343-350 | what n empty reads cover grows as four to the n, which is what makes the search logarithmic |
| RRule.Between | src/rrule.ts:395-411 | one read is either refused or holds every occurrence of its half-open range |
| ClaimTimer.Chain.constructor | src/claimTimer.ts:34-48 | a new timer is stopped, with nothing armed |
| ClaimTimer.Chain.Begin | src/claimTimer.ts:50-55 | starting arms one wake a period from now, and starting again changes nothing |
| ClaimTimer.Chain.End | src/claimTimer.ts:57-60 | after a stop nothing is armed, and nothing can be until the next start |
| ClaimTimer.Chain.AnchorIn | src/claimTimer.ts:73-87 | an anchor replaces whatever was armed by a wake exactly `wait` from now, unless the timer is stopped |
| ClaimTimer.Chain.OnTimeout | src/claimTimer.ts:94-104 | a pass runs iff it is due: a timeout that goes off early is armed again for the same due time |
| ClaimTimer.Chain.OnRunEnd | src/claimTimer.ts:113-130 | a run that did not anchor is followed by one a full period later, so a started chain always has a wake armed or a run in progress |
| CronPass.OccurrenceKeyInjective | src/timekeeper.ts:99-107 | two schedules with legal names share a singleton key only if both their names and their keys are the same |
| CronPass.RunPass | src/timekeeper.ts:562-692 | the pass files exactly the jobs its reads owe: one for each slot that a due or missed occurrence falls in, for every schedule, and no others |
| CronPass.SlotsOwed | src/timekeeper.ts:662-677 | a schedule's slots are exactly those of its owed occurrences, each once |
| CronPass.OwesOnlyOccurrences | src/timekeeper.ts:765-803 | a pass owes nothing that is not an occurrence, and no missed one older than the schedule's row or the last pass |
| CronPass.ReadMissedIff | src/timekeeper.ts:765-803 | the missed read answers with an instant iff the schedule catches up, there was a pass before, and it is the latest occurrence after that pass, after the schedule was created and before the due window |
| CronPass.NothingMissedIff | src/timekeeper.ts:772-778 | it answers with none iff the schedule skips, there was no pass before, or there is no such occurrence |
| CronPass.ReadDueIff | src/timekeeper.ts:822-840 | the due read holds exactly the occurrences of the last minute, and of a cron expression only the latest of them |
| CronPass.OwesExactly | src/timekeeper.ts:638-677 | so what a pass owes a schedule is exactly these two |
| CronPass.InReachIffOwable | src/timekeeper.ts:765-840 | an instant is in reach of a pass, missed or due, iff that pass would owe a job for it to some schedule: the two reads find what is in reach and nothing else |
| CronPass.ReachTiles | src/timekeeper.ts:578-582 | the missed range and the due window are disjoint, and since the last pass they leave out exactly what is older than both; for that, no schedule is owed |
| CronPass.CatchUpFiled | src/timekeeper.ts:765-803 | a schedule that is not `skip` gets a job for the latest occurrence it has missed: after the last pass and after its own creation, and no longer due |
| CronPass.RuleOccurrenceFiled | src/timekeeper.ts:822-840 | every occurrence of a rule in the due window gets a job in its own slot |
| CronPass.CronSlotFiled | src/timekeeper.ts:808-840 | although a cron expression is read at one point only, any pass in the minute after a slot's first occurrence files that slot |
| CronPass.LaterSlotStartsLater | src/timekeeper.ts:808-821 | since every matching minute names the same seconds, an occurrence in a later slot is a full minute or more after the first of this one |
| CronRun.InsertAllKeepsUnique | src/migrationStore.ts:1338 | inserting what a pass files never breaks the unique index on slot and key |
| CronRun.InsertAllStores | src/timekeeper.ts:680-692 | afterwards every filed job is stored, and nothing is that was neither filed nor there before |
| CronRun.InsertAllAdds | src/timekeeper.ts:680-692 | every row there was stays as it was; what is added is one uncancelled row for each filed job whose place no uncancelled job has |
| CronRun.NextInv | src/timekeeper.ts:472-554 | every step of every instance (joining, leaving, firing, the stamp, its answer, the pass, cancelling, time) keeps the protocol's invariant |
| CronClaims.ClaimSpacing | src/timekeeper.ts:489-511 | over any run with any number of instances coming and going, stamps are an interval or more apart, and no more than interval, beat and latency apart while one instance that has reached the row stays alive, even when the holder stops |
| CronClaims.RowNeverStale | src/timekeeper.ts:489-554 | while such an instance is alive the row is never older than that spacing, stamped again or not |
| CronClaims.NoAttemptSkipped | src/timekeeper.ts:472-488 | a timer never fires into its own instance's pass, so no attempt is wasted on the `_timekeeping` flag |
| CronClaims.RefusedRetries | src/timekeeper.ts:535-554 | over any run, a running instance that was refused is woken exactly an interval and a beat after the stamp it was refused on, later only by what the answer took; if nobody has stamped the row by then it may be claimed, so no refused instance polls early or late |
| CronClaims.WinnerRetries | src/timekeeper.ts:495-501 | and one that won is woken exactly an interval after its answer |
| CronClaims.BeatBounds | src/timekeeper.ts:553 | the beat is a quarter of the interval, but no more than a second |
| CronClaims.FilesUnlessStopped | src/timekeeper.ts:513-517 | a pass that ends on a running instance has filed exactly what it owes, and on a stopped one nothing |
| CronClaims.CancelFreesPlace | src/migrationStore.ts:1338 | cancelling a stored job frees its slot and key, and resuming it while they are free undoes the cancelling |
| CronClaims.DeadlineCanBeMet | src/timekeeper.ts:472-554 | in every reachable state, an instance that holds up the clock has a step of its own to take (its timer, its statement, the answer, the read or the filing), which leaves the others alone and itself fewer |
| CronClaims.TimeIsNeverStuck | src/timekeeper.ts:472-554 | the deadlines of the model never contradict each other: from every reachable state, steps of the instances that are there lead at the same instant to a state in which time may pass, with nobody joining or leaving |
| CronClaims.OnePassAtATime | src/timekeeper.ts:489-515 | over any run of any number of instances, while one runs a pass or has won one, no other does |
| CronClaims.EarlierClaimsSettled | src/timekeeper.ts:513-517 | over any run, every claim but the newest has been filed or abandoned |
| CronCoverage.ConsecutiveReads | src/timekeeper.ts:562-582 | passes read the clock in the order of their claims, and never a window or more apart |
| CronCoverage.InstantIsDue | src/timekeeper.ts:562-582 | so every instant between two reads is in the due window of the first pass that reaches it |
| CronCoverage.EveryOccurrenceStored | src/timekeeper.ts:472-692 | the composed promise: over any run, while the passes are unbroken, every occurrence of a rule or of a cron expression between the first read and the last has a job of its schedule in its slot |
| CronCoverage.OneJobPerScheduleAndSlot | src/timekeeper.ts:638-677 | whatever passes of whatever instances filed, catch-ups included, no two uncancelled jobs of a schedule share a slot, and no two schedules share a job |
| CronCoverage.NothingElseStored | src/timekeeper.ts:638-677 | every stored job stands for an occurrence that some pass owed, in that occurrence's slot |
| CronOutages.UnreadIsUnowed | src/timekeeper.ts:765-840 | an instant is read by some pass of a run iff some pass of it owes a job for it to some schedule |
| CronOutages.LostBetweenPasses | src/timekeeper.ts:739-803 | however long the outage, an instant between two successive passes is read by no pass of the whole run, before or after, iff it is older than both the later window and the stamp that pass replaced |
| CronOutages.LostIffAbandoned | src/timekeeper.ts:513-517 | such instants exist iff a claim between the two passes was abandoned, won and never filed, and they read the clock more than a window apart |
| CronOutages.LostHasNoJob | src/timekeeper.ts:638-677 | a lost occurrence has no job: a stored job in its slot stands for another occurrence that some pass owed |
| CronOutages.GapCaughtUp | src/timekeeper.ts:765-803 | over any run, a schedule that catches up has a stored job for the latest occurrence it missed before any pass: after the stamp that pass replaced, after its own creation, and out of the due window |
| CronLoss.AbandonedClaimLosesOccurrence | src/timekeeper.ts:472-515 | a concrete reachable run in which a claim is stamped, its pass never runs, and an occurrence is never filed |
| FlowGraph.CheckShape | src/attorney.ts:269-295 | no error exactly when the flow is well formed, and an error names something that is wrong with it |
| FlowGraph.BuildEdges | src/attorney.ts:296-310 | each job's list holds its dependents, once per entry, and each in-degree counts entries, duplicates included |
| FlowGraph.TopologicalSort | src/attorney.ts:312-327 | if the sort pops every job the flow is acyclic and the pop order puts each job after all it depends on; if it does not, the jobs left all wait on each other |
| FlowGraph.TopologicalIsAcyclic | src/attorney.ts:312-327 | a flow with a topological order has no closed walk |
| FlowCycle.CycleFinder.Visit | src/attorney.ts:336-356 | the search ends; it either returns a simple cycle of edges, or leaves its path as it was and everything reachable finished after what it leads to |
| FlowCycle.FindDependencyCycle | src/attorney.ts:330-365 | if some jobs all wait on each other, the search over every root returns a genuine cycle |
| FlowCycle.SortOrFindCycle | src/attorney.ts:296-328 | either a topological order, or a closed walk of dependency edges that meets no job twice |
| FlowCycle.ValidateFlowJobs | src/attorney.ts:269-328 | accepts exactly the well-formed acyclic flows, duplicate `dependsOn` entries included; a rejection says what is wrong, and a cycle is reported iff there is one |
| FlowRows.Dedupe | src/manager.ts:2145-2147 | the distinct entries, each once |
| FlowRows.AssignKeys | src/manager.ts:2135-2140 | every ref stands for the key of its own job, under the id given for it |
| FlowRows.JobDependencies | src/manager.ts:2145-2159 | a job's count is the number of its distinct dependencies, and its rows are exactly those |
| FlowRows.Dependencies | src/manager.ts:2141-2159 | so it is for every job of the flow, and the parents are exactly the refs somebody depends on |
| FlowRows.BuildFlow | src/manager.ts:2128-2231 | each job is blocked iff it depends on something, blocking iff something depends on it, with one dependency row per distinct pair |
| FlowRun.ResolvedInParts | src/plans.ts:3674-3740 | resolving a set of parents in two disjoint parts, in either order, does what resolving it at once does: no parent is counted twice |
| FlowRun.SubmitInv | src/manager.ts:2128-2231 | inserting any accepted flow beside any others keeps every counter right |
| FlowRun.NextInv | src/manager.ts:2562-2593 | so does every other step: fetching, completing, failing, cancelling, restoring, retrying, and resolving any batch at any time |
| FlowRun.PendingIsAwaited | src/manager.ts:2145-2202 | over any run, a child's count is the number of its distinct parents that are still flagged `blocking`, and it is blocked iff that is not zero, unless it was completed while blocked |
| FlowRun.FetchedAfterParents | src/navigator.ts:137-183 | over any run, no job is fetched before all its parents have completed, whatever the batching or repetition of resolver passes, unless it was completed while blocked |
| FlowRun.ForcedSkipsIffBlocked | src/plans.ts:2883-2900 | in any run, completing a queued job and restoring it makes it fetchable at once, with parents left that the resolver has not counted iff it was blocked before the call; if it was not, all its parents have completed |
| FlowRun.ForcedSkipsParentIff | src/plans.ts:2883-2900 | and it can then be fetched before some parent has ever completed iff it was blocked before the call by a parent that had not |
| FlowForced.ForcedJobSkipsParents | src/plans.ts:2883-2900 | a reachable state in which a child can be fetched and its parent has not even started |
| FlowProgress.FlowsNeverDeadlock | src/attorney.ts:296-327 | in every reachable state, whatever has failed, been cancelled, retried, restored or forced in this flow or another: an unfinished job waits, through a path of unfinished blocked parents, for a job that runs, can be fetched, is a completed parent to resolve, or has failed or been cancelled |
| FlowProgress.OwnJobCanMove | src/attorney.ts:296-327 | so a flow with a job left, none of which has failed or been cancelled, has a job of its own that runs, can be fetched or is to be resolved, whatever became of other flows |
| FlowProgress.WorkDecreases | src/navigator.ts:162-172 | every fetch, completion and resolution of a flow's own jobs leaves it strictly less to do, and those of other flows leave it no more |
| FlowProgress.FlowCanFinish | src/navigator.ts:137-183 | from every reachable state, such moves alone lead a flow none of whose jobs has failed to the end: every job completed |
| FlowProgress.FlowCanRecover | src/plans.ts:3011-3036 | and no flow is beyond recovery: from every reachable state, its own moves, with its failed jobs retried and its cancelled ones resumed, lead it to the end |
| Navigator.FlowTable.SelectBlockingParents | src/plans.ts:3742-3758 | the batch holds only completed blocking parents of the named queues, and all of them unless it is full |
| Navigator.FlowTable.ResolveStandard | src/plans.ts:3699-3740 | one statement resolves exactly its batch |
| Navigator.FlowTable.ResolveDistributed | src/manager.ts:2566-2593 | the split into a decrement and a clear per queue ends in the same table as the one statement |
| Navigator.ClearedAfterDecrement | src/plans.ts:3674-3767 | a decrement and then a clear of a batch is its resolution |
| Navigator.GroupByQueue | src/manager.ts:2576-2582 | every selected parent is in its own queue's list, once, and in no other |
| Navigator.EligibleLeft | src/plans.ts:3742-3758 | resolving a batch makes exactly that batch ineligible, and makes nothing else eligible |
| Navigator.FlowTable.DrainChunk | src/navigator.ts:159-172 | the drain loop ends, resolves each parent once, and, left alone, all that is eligible or a full quota |
| Navigator.FlowTable.ResolvePass | src/navigator.ts:151-173 | wherever `stop()` ends it, a pass over one table's queues has resolved each parent it drained once; left alone, it leaves nothing eligible unless some chunk of a hundred queues has more than a quota |
| Navigator.ChunksAreHundreds | src/navigator.ts:137-183 | a backlog fits the pass iff every hundred of its queues have no more than a hundred batches of a thousand waiting |
| Navigator.ChunkDrained | src/navigator.ts:154-173 | draining the next chunk takes nothing from what the earlier ones have drained, and if its own backlog fits a quota, leaves nothing in it or in them |
| NavigatorPasses.Navigator.OnPoll | src/navigator.ts:87-116 | a poll enters a pass iff the navigator is started and no pass runs |
| NavigatorPasses.Navigator.ResolveNowTurn | src/navigator.ts:121-135 | a call waits iff a pass runs, and otherwise enters one iff the navigator is not stopping |
| NavigatorPasses.AtMostOnePass | src/navigator.ts:87-135 | over any interleaving of polls, calls, starts and stops, at most one pass runs in an instance |
| NavigatorPasses.StoppedStaysQuiet | src/navigator.ts:72-85 | once `stop()` has seen no pass running, none runs before the next `start()` |
| NavigatorPasses.PassEndsNextBegins | src/navigator.ts:100-135 | once a pass ends, a poll enters if the navigator is started, and a waiting call unless it is stopping |
| NavigatorPasses.CallWaits | src/navigator.ts:100-136 | a call waits from when it is made until its own turn |
| JobTable.Jobs.TryInsert | src/migrationStore.ts:1338-1357 | an insert lands iff no unique index refuses it, and the indexes still hold |
| JobTable.PoliciesHold | src/migrationStore.ts:1338-1359 | what the indexes promise of two jobs of one queue and key, policy by policy: one queued, one active, one in each state, one unfinished, one holder, one to a slot |
| JobTable.Jobs.SelectJobsToFail | src/plans.ts:3611-3617 | the rows selected are exactly the unfinished ones asked about |
| JobTable.Jobs.ReinsertFailedJob | src/manager.ts:2611-2711 | a failed job comes back as `retry` iff the call allows it, `retryCount < retryLimit` and no index refuses the row; otherwise as `failed` unless that is refused too; nothing but its state, output and `upsertByKey` changes |
| JobTable.Jobs.InsertCopy | src/plans.ts:3786-3796 | a dead letter copy is a new job under an id of its own, and no index can refuse it |
| JobTable.Jobs.PutBack | src/manager.ts:2613-2711 | one job's turn settles that job and leaves every row from before, and every job already put back, as it was |
| JobTable.Jobs.ReinsertFailedJobs | src/manager.ts:2611-2711 | every job has its outcome, and every job that was not retried and has a dead letter queue has exactly one copy there |
| JobTable.Jobs.FailDistributed | src/manager.ts:2522-2545 | exactly the unfinished jobs asked for are taken; each is retried, failed or refused as its own fields and the indexes decide, and has one dead letter copy, with the same content, iff it is not retried and has a dead letter queue |
| JobTable.RefusedByRival | src/migrationStore.ts:1355 | a row put back as `failed` can be refused by `job_i8` only, and only because of another job with its key |
| JobTable.NoneLostIffNoRivals | src/manager.ts:2522-2545 | no selected job is lost if and only if no selected `key_strict_fifo` job has a rival for its key |
| JobTable.ActiveJobsHaveNoRivals | src/manager.ts:2595-2609 | jobs selected while active never have one, so no worker's or expiry sweep's failure loses a job |
| JobTable.QueuedJobLost | src/plans.ts:3611-3617 | a concrete table in which failing a queued job loses it |
| GroupConcurrency.DecideExcess | src/manager.ts:2314-2332 | a job of the batch is given back iff it has a group whose count, less the later jobs of that group given back, is over the job's own limit |
| GroupConcurrency.DecisionExact | src/manager.ts:2320-2330 | the same of the decision the run theorems are about |
| GroupConcurrency.DecisionCount | src/manager.ts:2314-2332 | a group's count less the jobs given back is what the decision ends with |
| GroupConcurrency.KeptWithinLimit | src/manager.ts:2314-2332 | and that is within the limit of every job that is kept |
| GroupConcurrency.NextInv | src/manager.ts:2280-2384 | no step of another fetch moves a job that this one has claimed and not counted |
| GroupConcurrency.KeptWithinEveryLimit | src/manager.ts:2314-2343 | over any interleaving of claims, counts and give-backs: the jobs a fetch keeps, with those already running in their group, are within the tier limit of each of them |
| GroupConcurrency.NothingBackWithinLimits | src/manager.ts:2314-2343 | and nothing is given back without need: in any run, a fetch that finds every group of its batch within the limit of each of its jobs keeps them all, and they run |
| GroupConcurrency.RunningWithinLargest | src/manager.ts:2314-2384 | so a group never has more jobs running than its largest limit |
| GroupConcurrency.NoJobStranded | src/manager.ts:2334-2384 | over any run no job is lost or stuck: a claimed one is counted and runs or is given back, one given back returns to its queue, and one that runs finishes |
| LocalGroups.AdmitConserves | src/manager.ts:615-642 | every job of a batch is allowed or in excess, once, and the grouped jobs are the allowed ones that have a group |
| LocalGroups.AdmitTakesSlots | src/manager.ts:615-642 | the slots taken are exactly those of the grouped jobs |
| LocalGroups.AllowedIff | src/manager.ts:621-639 | job by job: allowed iff it has no group, the queue has no limits, or the group's slots, those of this batch included, are fewer than its own tier's limit |
| LocalGroups.AdmitWithinLargest | src/manager.ts:600-642 | a group within its queue's largest limit stays within it |
| LocalGroups.AdmitThenFree | src/manager.ts:1443-1471 | admitting a batch and ending it leaves every count as it was |
| LocalGroups.FreedCount | src/manager.ts:644-650 | ending any list of jobs frees each slot as often as the list takes it, down to none |
| LocalGroups.SlotsCount | src/manager.ts:365-373 | a slot is taken once for every job of the list that is in its group |
| LocalGroups.LargestLimit | src/manager.ts:593-600 | the largest limit of any tier, and the limit of some tier |
| LocalGroups.LargestDecides | src/manager.ts:347-353 | a count reaches the largest limit iff no tier has room |
| LocalGroups.LocalGroupTracker.Increment | src/manager.ts:365-373 | the nested maps stay equal to the slots in flight, with one more in this one |
| LocalGroups.LocalGroupTracker.Decrement | src/manager.ts:375-385 | and with one fewer, or unchanged if there was none; no stored count is zero and no queue's map is empty |
| LocalGroups.LocalGroupTracker.TrackStart | src/manager.ts:615-642 | the loop admits as `Admit` says, counts every admitted slot, and keeps every group within the largest limit |
| LocalGroups.LocalGroupTracker.TrackEnd | src/manager.ts:644-650 | ends exactly the slots of the jobs it is given, whatever they are, and no others |
| LocalGroups.CountsAreHeld | src/manager.ts:1443-1471 | over any interleaving of batches of any queues, under whatever limits each met when it started: each count is the number of jobs that were admitted and have not ended |
| LocalGroups.WithinLargest | src/manager.ts:600-650 | while a queue's limits stay as they are, no group of it ever has more jobs in flight than the largest of them |
| LocalGroups.LocalGroupTracker.GroupsAtCapacity | src/manager.ts:341-363 | a group is left out of the next fetch iff it has jobs in flight and no tier has room for another |
| LocalGroups.LocalGroupTracker.StoreConfig | src/manager.ts:593-600 | the stored maximum is the configuration's largest limit |
| LocalGroups.LocalGroupTracker.Cleanup | src/manager.ts:602-613 | the limits go iff no worker of the queue is left that is neither stopping nor stopped, and the counts stay |
| Overruns.OverrunLog.RecordOverrun | src/manager.ts:928-944 | a queue's first overrun is written at once, the ones that follow are counted, and none is recorded once stopped or unless warnings are persisted |
| Overruns.OverrunLog.CloseWindow | src/manager.ts:950-970 | a window that counted something is written once, with its count and longest timeout, and leaves a new window only if it is reopened |
| Overruns.OverrunLog.FlushOverruns | src/manager.ts:992-1000 | after the flush every recorded overrun is told of by exactly one row, in order, and each queue's row counts add up to its overruns |
| Overruns.OverrunLog.WrittenAndOpen | src/manager.ts:923-970 | at any time, written counts plus the open tally are the overruns recorded |
| Overruns.Closed | src/manager.ts:950-970 | closing keeps the accounting, and the rows and windows of a queue never overlap in time |
| CommitGuard.AssertClaimHeld | src/manager.ts:1104-1110 | the counting loop decides the claim check |
| CommitGuard.SafeIffWithin | src/manager.ts:1143-1157 | a settle touches only the batch's own active attempts, whatever has become of the jobs, if and only if its plain ids are all of the batch or none of it, or the attempts it names are none later than the batch's |
| CommitGuard.SettleExactly | src/plans.ts:2827-2900 | which jobs a settle reaches, fenced or not, and the state it leaves each in: completed, cancelled, deleted, or to be retried or failed as the call said |
| CommitGuard.StepKeepsJob | src/plans.ts:2827-2849 | every step of the handler and of every other actor keeps a job's `retryCount` naming its claim, and no job settled by the handler is left for the completion to settle again |
| CommitGuard.CommitIsExact | src/manager.ts:1104-1110 | however other actors cancel, expire, retry, claim or delete: the transaction commits iff every job of the batch was settled by the handler or by the completion, and none was by both |
| CommitGuard.CompletedJobs | src/manager.ts:1104-1110 | every job the completion counts is left completed under the attempt the worker fetched |
| CommitGuard.WrittenIsLocked | src/manager.ts:817-832 | what the transaction has written stays locked: no step of another actor writes it before the transaction ends |
| CommitGuard.CommitsOnlyOwnAttempts | src/manager.ts:817-832 | with settles within the batch, a committed transaction settled every job of it under the claim the worker fetched |
| CommitGuard.BeyondTheBatchIsUnfenced | src/manager.ts:1143-1157 | a concrete run that commits over a newer attempt through a settle that reaches beyond the batch |
| CommitGuard.RestoreDefeatsTheFence | src/plans.ts:2842-2845 | a concrete run that commits over a newer claim because the job was restored meanwhile |
| TestClock.TestClock.Insert | src/clock.ts:215-229 | the backward scan puts a timer where `Inserted` says |
| TestClock.InsertedAt | src/clock.ts:213-231 | the timer scheduled last goes after everything due by its time and before everything due later |
| TestClock.DoKeeps | src/clock.ts:64-79 | arming and clearing keep the timers in order, with none due before now |
| TestClock.TimeoutDue | src/clock.ts:64-66 | a timeout is due once, `max(ms, 0)` from now, and no other handle's schedule changes |
| TestClock.IntervalDue | src/clock.ts:68-70 | an interval is due `max(ms, 0)` from now and then every `max(ms, 1)` |
| TestClock.ClearedDue | src/clock.ts:72-79 | a cleared handle is due no more, and every other one as before |
| TestClock.DoAllInTurn | src/clock.ts:124-138 | what a callback does is done one operation after the other |
| TestClock.JumpKeeps | src/clock.ts:88-108 | so does a jump, forwards or backwards, although it leaves the timers it moved in their old due order |
| TestClock.TestClock.SetTime | src/clock.ts:88-108 | the loop over the overdue prefix makes exactly the timers due before the new time due at it, leaves every other as it is, and fires none |
| TestClock.TestClock.ClearTimeout | src/clock.ts:72-79 | takes out the timer of that handle and no other |
| TestClock.FireKeeps | src/clock.ts:124-138 | firing moves time to the due time of the first timer and keeps the order |
| TestClock.FireInOrder | src/clock.ts:119-149 | whatever is still to fire comes after all that has, by due time and then first-in-first-out where no jump moved it |
| TestClock.FireOnSchedule | src/clock.ts:124-138 | firing takes one due time off the first timer's schedule and changes no other's |
| TestClock.ScheduleOfInterval | src/clock.ts:130-136 | an interval is due exactly floor((target - due) / period) + 1 times, one period apart |
| TestClock.TestClock.PlayRound | src/clock.ts:119-149 | one round fires what is due first, or moves time to the target, and then runs its callback |
| TestClock.TestClock.Tick | src/clock.ts:112-154 | whatever callbacks arm and clear, timers fire in order of their due times, each at its own; time ends at the target (unchanged for a negative tick) with nothing due by then; each round runs its part of the script; with quiet callbacks it ends, every handle fires exactly on its schedule, and what is left is the rest of every schedule |
| Placeholders.ParseIsParse | src/adapters/placeholders.ts:10-27 | no text is lost, no segment holds a placeholder, and every placeholder takes all its digits |
| Placeholders.ParseUnique | src/adapters/placeholders.ts:14-25 | that is the only such split of the text |
| Placeholders.ParsePlaceholders | src/adapters/placeholders.ts:10-27 | the scan finds that split, with each placeholder's value duplicated in textual order and `undefined` for an index out of range |
| Placeholders.Decimal | src/adapters/placeholders.ts:58 | a number written out is digits that read back as the number |
| ArrayParams.ArrayCastIff | src/adapters/placeholders.ts:29-33 | the greedy scan accepts a segment iff the pattern matches it somewhere |
| ArrayParams.ExpandArrayParams | src/adapters/placeholders.ts:45-64 | the rewritten text and its values are those of the one query that both adapters build; read off that text, a placeholder became a constructor of its elements iff its value is an array and an array cast follows it, and any other binds its whole value |
| ArrayParams.BuildQuery | src/adapters/drizzle.ts:59-91 | so are drizzle's literals and parameters, and the same placeholders become constructors |
| ArrayParams.RewritesAlike | src/adapters/placeholders.ts:45-64 | parsing the rewritten text again finds drizzle's literals, with the placeholders numbered from 1 and every value bound once, in order |
| ArrayParams.OnlyPlaceholdersChange | src/adapters/placeholders.ts:53-61 | the rewritten text is the original one with a piece in place of each placeholder, and nothing else changed |
| ArrayParams.PieceText | src/adapters/placeholders.ts:53-61 | the piece is `ARRAY[$a,$b,...]` with one marker for each element, numbered on, iff the value is an array and an array cast follows; otherwise it is the next marker |
| ArrayParams.ShapesFilled | src/adapters/placeholders.ts:53-61 | the shapes of the placeholders can be read off the rewritten text between the original segments |
| ArrayParams.ShapesRight | src/adapters/placeholders.ts:53-61 | and the shape of a placeholder is a constructor of as many elements as its value has iff that is an array and an array cast follows it |
| ArrayParams.ValuesRoundTrip | src/adapters/placeholders.ts:53-61 | so the rewritten text, its parameters and the original segments give back the values as the original placeholders read them |
| PgliteGate.NextInv | src/adapters/pglite.ts:69-160 | every step keeps the gate's invariant: the chain in the gate belongs to the present session and what it has applied is what the session has |
| PgliteGate.PassesOnlyWhenReady | src/adapters/pglite.ts:139-149 | over any interleaving of leader changes, chains and queries, a query passes the gate only to the present session, and only when that has received every session statement, or one of them failed by itself |
| PgliteGate.SupersededNeverOpens | src/adapters/pglite.ts:81-88 | only the chain made for the present session opens the gate |
| PgliteGate.InFlightIsPresent | src/adapters/pglite.ts:74-77 | over any run, whatever is still in flight was sent to the present session: no query, and no statement even of a superseded chain, waits for an answer from a session that is gone |
| PgliteGate.FailsIffLeaderChanges | src/adapters/pglite.ts:74-77 | a query in flight ends as a failure iff the leader changes under it, and as answered iff its own answer arrives |
| PgliteGate.BrokenByOwnChain | src/adapters/pglite.ts:121-129 | over any run, only a statement of the present session's own chain that fails by itself lets the gate open without it |
| PgliteGate.GateCanOpen | src/adapters/pglite.ts:121-129 | a closed gate always has a chain with a step to take |
| PgliteGate.GateGetsCloser | src/adapters/pglite.ts:121-129 | each of its steps leaves it less to do, and nothing but another leader change takes that away |
| PgliteGate.WaitersWake | src/adapters/pglite.ts:140-146 | whatever chain a query waits for, superseded or not, finitely many steps of that chain alone lead to a state in which the query can try again, with the gate open if it was that chain's |
| PgliteGate.Adapter.OnLeaderChange | src/adapters/pglite.ts:74-88 | the callback's loop and assignments are that step |
| PgliteGate.Adapter.ClearGate | src/adapters/pglite.ts:83-85 | a chain that opens the gate leaves a session that is ready |
| PgliteGate.Adapter.TryQuery | src/adapters/pglite.ts:139-149 | the re-check passes a query only to a session that is ready |
| Latency.BelowMerged | src/latency.ts:15-19 | at every point of the axis, the jobs below it in the merge are those below it in the two |
| Latency.Percentile | src/latency.ts:26-46 | the walk answers with the one point that the target share of the jobs reaches, and refuses exactly a bad percentage or an empty histogram |
| Latency.PercentileShare | src/latency.ts:26-32 | the answer is the least exponent with `p` percent of all the jobs at or below it |
| Latency.ReachesUnique | src/latency.ts:26-46 | there is only one such point |
| Latency.PercentileWithinSlot | src/latency.ts:33-46 | it lies inside the edges of the bin that holds the target job |
| Latency.PercentileMonotone | src/latency.ts:26-46 | a larger percentage never has a smaller percentile |
| Latency.MergedPercentileBracketed | src/latency.ts:15-46 | the merge's percentile lies between those of the two histograms, in either order |

## Left out

- SQL text, planning, locking and isolation: every statement is one atomic step with the meaning src/plans.ts gives it; `SKIP LOCKED` only changes which rows a batch takes, and the batches here are arbitrary.
- What cron-parser and rrule-temporal compute, time zones, and the rule for repeated hours in `previousOccurrence`: an expression is an arbitrary set of instants, and a cron expression a set of minutes times a set of seconds.
- Cron passes that fail or overrun an interval, attempts that error, clock skew, and rules the library refuses within a pass: the protocol is proved for passes that finish within an interval, on one clock.
- Occurrences.LatestBefore: as the single-point cron read it does not model an expression that cannot be parsed, which the pass reports and skips.
- CronCoverage.EveryOccurrenceStored: the list of schedules is the same for a whole run; schedules added, changed or removed while it goes on are not modelled.
- FlowProgress.FlowsNeverDeadlock: `deleteJob` is not a step of a run; a blocking parent that is deleted leaves its children blocked, and then they wait for nothing.
- Retention deletes, `created_on` edits and forwarded jobs cancelled on purpose: they void the hypotheses of the uniqueness theorems, except that `CronRun` lets anyone cancel and resume stored jobs.
- CommitGuard.CommitsOnlyOwnAttempts: assumes that nobody restored a job of the batch, because the claim after a restore reuses the `retryCount`; `CommitGuard.RestoreDefeatsTheFence` shows that this is needed. Jobs inserted again under a deleted job's id are not modelled.
- GroupConcurrency.KeptWithinEveryLimit: does not cover give-backs that a policy index refuses; those jobs run, over the limit. All racing fetches share one configuration.
- LocalGroups.LocalGroupTracker.TrackStart: the bound holds for a fixed configuration; after the limits are cleaned up or lowered the counts only come down as handlers end. An empty group id or tier counts as none.
- JobTable.Jobs.ReinsertFailedJobs: retry delays, timestamps and the outputs of single jobs are not modelled; an output is one opaque value. What a dead letter copy takes from its queue's settings, its retry limit among them, is not modelled. The single-statement path of databases that allow it is SQL alone.
- TestClock.TestClock.Tick: timers are values that carry a handle rather than shared objects, callbacks are a finite script of what they arm and clear, and the busy guard and the waiting for statements are not part of this model.
- PgliteGate.PassesOnlyWhenReady: begins once `setSessionStatements()` has completed, with a fixed list, and takes the leader-change callback as the moment the session changes.
- Latency.Percentile: works on the exponent over the reals, so the rounding of `Math.SQRT2 ** k` is not modelled.
- Placeholders.ParsePlaceholders: characters are single code points, and numbers are unbounded, where JavaScript reads very long digit strings as floating point; both read `undefined` there.
- Overruns.OverrunLog.CloseWindow: the sample of job ids and the text of the message are not modelled.
- Names that collide with JavaScript's own object properties, in tiers and in refs.
- Migrations beyond the index predicates, the CLI, the dashboard, the proxy, telemetry, vacuum and reindex advice, LISTEN and the connection pool: I/O or reporting, or rules that live in the server.
- Option checks in src/attorney.ts other than those of flows, names and the cron interval: each is one branch.
