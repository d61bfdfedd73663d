# Verified models of the auto-remediator's engines

The auto-remediator is built from a handful of small stateful engines: a dependency-ordered task
worklist, a runner queue in Redis, a cluster event watcher, a dedup window, a restart-first
remediation ladder, two watchdogs, an explanation cache, a finding store, a text redactor and a
host-conflict detector. This project models them in Dafny and proves what they keep over whole runs.

Tables, hashes and sorted sets are maps or sequences; one SQL statement, one locked section or one
Redis command is one atomic step. Clock readings, API answers and the choice among equal scores are
inputs. Exceptions are result values. Code that changes objects or loops is a class or a method
proved against a function; what the source promises is then proved of the function, mostly over all
runs, inputs and interleavings.

| file | component |
|---|---|
| `BlockerGraph.dfy`, `KahnOrder.dfy`, `WorklistSeed.dfy` | the topological sort: graph theory, the order as a function of the graph, the algorithm with its counters and queue |
| `WorklistTable.dfy`, `WorklistRuns.dfy`, `WorklistFailures.dfy`, `WorklistDrain.dfy`, `WorklistTeam.dfy`, `WorklistDb.dfy`, `WorklistSeeding.dfy` | the worklist: atomic steps, runs of many agents, the containment of failures, the drain by one agent and by many, the class, what becomes of task ids when a list is seeded |
| `AuditRuns.dfy` | the audit-run row and the gap between the two locked sections of an increment |
| `RunnerQueue.dfy`, `RunnerScripts.dfy` | the runner scripts as a protocol of single commands, and uninterrupted |
| `EventWatcher.dfy`, `EventRuns.dfy`, `EventSessions.dfy` | the event watcher, its accounting and limits, its rows as sessions |
| `DedupWindow.dfy`, `JoinedKeys.dfy` | the dedup deque against a map, and when joined keys are unambiguous |
| `Ladder.dfy`, `LadderVerdicts.dfy`, `LadderObjects.dfy`, `LadderFleet.dfy` | the remediation ladder, its watch loop and the namespace breaker; what a session comes to; many sessions of one ladder |
| `PostFixWatchdog.dfy` | the poll loop after a remediation: verdict, poll count, overrun |
| `ExplanationCache.dfy` | the explanation cache and the backend wrapped in it |
| `FindingStore.dfy` | the finding table with its occurrence counters |
| `Redaction.dfy`, `RedactionWords.dfy` | the redactor on strings and on whole preference pairs; what it does to a text, with its four words spelled out |
| `HostConflicts.dfy` | host-conflict detection and the removal of repeated findings |
| `IdOrder.dfy`, `Options.dfy` | lists of ids, finite sets, optional values |

Where the code does not do what one would expect, a lemma says when it does, wherever possible as an
if-and-only-if, and another gives an input for which it does not:

- Seeding numbers rows by position, ignored repeats included, so seeding the sorted list can turn its
  blockers into a cycle (`WorklistSeeding.SeedingSortedListExactly`,
  `WorklistSeeding.SeedingSortedListGetsStuck`, `WorklistSeeding.RepeatShiftsIds`).
- A dependent of a failed task can be out of the queue: an owner may undo a done task, and a blocker
  without a row does not block (`WorklistFailures.DependentsStayQueuedExactly`,
  `WorklistRuns.RunConsistentExactly`, `WorklistRuns.UndisciplinedOwnerBreaksIt`,
  `WorklistRuns.MissingBlockerBreaksIt`).
- An audit run can leave the escalate phase by `advance_phase` and be seen in review at the limit
  (`AuditRuns.LimitKeptExactly`, `AuditRuns.WindowIsVisible`).
- A runner script that dies between two commands loses its story (`RunnerQueue.CrashLosesExactly`);
  `mark_failed` and `mark_done` by a stranger put it in two places
  (`RunnerQueue.MarkFailedByAnybody`, `RunnerQueue.MarkDoneByAnybody`).
- At the depth limit the event watcher also drops events that would only raise a counter
  (`EventRuns.FullQueueFreezesRows`), and the first event of a limited key counts from clock zero
  (`EventRuns.PassedEventsAreSpaced`).
- The dedup deque and the cache rely on a wall clock that does not step back
  (`DedupWindow.DequeAgreesExactly`, `DedupWindow.LinesSpacedExactly`,
  `DedupWindow.ClockSteppingBackHidesExpiry`, `DedupWindow.ClockRunningAheadForgets`, `ExplanationCache.LookupIsLatestStoreExactly`,
  `ExplanationCache.ClockSteppingBackLosesAnswers`).
- Models that share a cache and take turns never get an answer from it (`ExplanationCache.TakingTurnsNeverHits`).
- A failed read, or a warning whose time has a zone, strands the ladder's session in WATCH_HEALING,
  which `advance` never leaves (`Ladder.AdvanceProgress`, `Ladder.ZonedWarningNeverEnds`,
  `Ladder.BrokenWatchIsStuck`).
- The cycle cap limits a session, not a resource or an hour: every detect brings two more restarts
  (`LadderFleet.FleetBound`, `LadderFleet.EverySessionRestartsTwice`).
- `redact_pair` copies the prompt, the probe state and other quoted fields unredacted
  (`Redaction.PairSafeExactly`, `Redaction.PromptIsNotRedacted`, `Redaction.ProbeStateIsNotRedacted`).
- `run_safe` drops the second host that two ingresses share, because both findings carry one
  fingerprint (`HostConflicts.HostSurvivesExactly`, `HostConflicts.SecondSharedHostIsLost`).
- The sort also reports a cycle, possibly an empty one, when an id is listed twice
  (`WorklistSeed.OutcomeExactly`).

Where documentation and code disagree the model follows the code. The design document
(`docs/audit-run-001/PRD.md`, line 9039) has the sorted list seeded, which loses the ids that its blockers
refer to. Its fragment for backpressure (lines 1941-1945) counts ignored events as dropped and its text
(line 1931) pauses only above 50 queued rows; the code skips ignored events before the depth test and
pauses at 50. `redact_pair` promises a pair with all sensitive values redacted and copies some.
`apply` in the ladder says that it emits a preference pair and does not. `mark_failed` reports the
lowered priority without the cut at zero that it stores (`RunnerScripts.RedisStore.MarkTaskFailed`).

## Model

| member | source | states |
|---|---|---|
| `WorklistSeed.TopologicalSort` | src/worklist_seed.py:8-43 | returns a permutation with blockers first, first in, first out, for an acyclic list of distinct ids, else reports exactly the largest set of tasks that wait for each other in list order, or the first blocker that is not listed |
| `WorklistSeed.OutcomeExactly` | src/worklist_seed.py:19-43 | the lookup fails iff some blocker is not listed; the sort succeeds iff all are, ids are distinct and the blocker graph has no cycle |
| `WorklistSeed.CountAll` | src/worklist_seed.py:14-20 | in-degrees count blocker entries with repeats and dependents lists are the transposed multigraph, or the first unknown blocker in reading order is found |
| `WorklistSeed.Release` | src/worklist_seed.py:30-33 | after a task leaves, in-degrees again count the blockers not yet output, and the newly ready tasks are appended in ascending order |
| `WorklistSeed.Drain` | src/worklist_seed.py:25-33 | the main loop terminates on tasks not yet output and outputs the order defined by the graph alone |
| `WorklistSeed.OutputIgnoresListOrder` | src/worklist_seed.py:22-33 | permuted inputs give the same sequence |
| `WorklistSeed.OnlyOneReleaseOrder` | src/worklist_seed.py:22-33 | of all permutations with blockers first there is just one that strictly increases in the pair (position of the task's last blocker in the list itself, -1 without blockers; id), and the sort returns it |
| `WorklistSeed.ReportKeepsListOrder` | src/worklist_seed.py:35-41 | the reported ids stand in the order of the input list, each as often as it is listed |
| `WorklistSeed.OutputInWaves` | src/worklist_seed.py:22-33 | the longest chain of blockers never gets shorter along the result |
| `KahnOrder.LeftoverIsLargestStuck` | src/worklist_seed.py:35-41 | what never comes out is the largest set in which every task has a blocker in the set |
| `KahnOrder.OrderComplete` | src/worklist_seed.py:27-35 | every task comes out iff the graph has no cycle |
| `KahnOrder.OrderBlockersFirst` | src/worklist_seed.py:27-33 | every blocker of every output task was output earlier |
| `KahnOrder.OrderIsFirstInFirstOut` | src/worklist_seed.py:22-33 | tasks come out in the order in which their last blockers came out, those without blockers first, by id among those that one blocker released |
| `KahnOrder.FifoIsUnique` | src/worklist_seed.py:22-33 | there is at most one such order of the same tasks with blockers first |
| `BlockerGraph.AcyclicIffNothingStuck` | src/worklist_seed.py:35-41 | a graph has no cycle iff no set of tasks waits for itself (pigeonhole on walks) |
| `WorklistRuns.ClaimIsFinal` | src/worklist.py:15-35 | in every run a claimed task had all existing blockers done and the lowest claimable id; it is never queued again, keeps its owner, and no later claim returns it |
| `WorklistRuns.FinishedKeptExactly` | src/worklist.py:223-255 | a done or failed task keeps its status under a call iff the call is not a contrary update by its own owner |
| `WorklistRuns.ConsistentKeptExactly` | src/worklist.py:15-35 | a step keeps every task out of the queue behind done blockers iff it is neither the owner's starting or failing a done task on which a task out of the queue relies, nor a claim past a blocker without a row |
| `WorklistRuns.RunConsistentExactly` | src/worklist.py:203-255 | a run keeps that at every moment iff none of its steps is one of the two |
| `WorklistFailures.ContainedKeptExactly` | src/worklist.py:223-275 | a step keeps every transitive dependent of a failed task in the queue iff it is neither its owner's failing a task for which a task out of the queue waits through blockers, nor a new row that joins a task out of the queue to a failed one |
| `WorklistFailures.RunContainedExactly` | src/worklist.py:203-275 | a run keeps that at every moment iff none of its steps is one of the two |
| `WorklistFailures.DependentsStayQueuedExactly` | src/worklist.py:203-275 | the same for every run from a freshly seeded table |
| `WorklistFailures.DependentsOfFailureStayQueued` | src/worklist.py:15-35 | in such runs no transitive dependent of a task that fails is out of the queue at any moment before or after |
| `WorklistRuns.UndisciplinedOwnerBreaksIt` | src/worklist.py:244-255 | a concrete run in which an owner fails a task it had finished leaves a claimed dependent of a failed task |
| `WorklistRuns.MissingBlockerBreaksIt` | src/worklist.py:24-29 | a concrete run in which a blocker is seeded after its dependent was claimed, and fails |
| `WorklistRuns.NoDeadlock` | src/worklist.py:15-35 | with acyclic blockers an unfinished task means that somebody works, somebody failed, or the next claim succeeds |
| `WorklistRuns.CycleIsNeverClaimed` | src/worklist.py:23-29 | tasks that wait for each other stay queued in any run whatever |
| `WorklistDrain.DrainsEverything` | src/worklist.py:203-242 | one agent that claims and completes finishes every task of an acyclic worklist |
| `WorklistDrain.ClaimOrderIsExtension` | src/worklist.py:15-35 | the order of its claims is a linear extension of the blocker graph |
| `WorklistDrain.ClaimOrderIsLeast` | src/worklist.py:30-31 | no linear extension is lexicographically smaller than the order of the claims |
| `WorklistTeam.TeamDrains` | src/worklist.py:203-242 | any agents that claim, start and complete in any order make at most three steps for each task of an acyclic worklist, and can go on exactly until every task is done |
| `WorklistDrain.AllDrainedExactly` | src/worklist.py:203-242 | with nothing claimed yet the drain gets everything done iff the rows' blockers form no cycle |
| `WorklistDrain.GraphPredictsDrain` | src/worklist_seed.py:35-43 | on a table that carries a list's blocker graph the drain leaves queued exactly the tasks that the sort of the list reports, and none if it succeeds |
| `WorklistSeeding.SortOfPositionsPredictsDrain` | src/worklist.py:257-275 | for every seeded list, repeats included, the drain leaves queued exactly what the sort reports of the tasks that got a row, under the ids of their rows |
| `WorklistSeeding.AllDoneExactly` | src/worklist.py:257-275 | for every seeded list, repeats included, the drain gets everything done iff the tasks that got a row, under the ids of their rows, have no cycle |
| `WorklistSeeding.RepeatShiftsIds` | src/worklist.py:257-275 | an ignored repeat uses up an id and shifts the rows after it |
| `WorklistSeeding.SeedingKeepsGraphExactly` | src/worklist.py:257-275 | seeding a list of distinct ids keeps its blocker graph iff no section and title repeats and every id is a position with the same blockers |
| `WorklistSeeding.SeedingSortedListExactly` | src/worklist_seed.py:25-43 | the same for the list that the sort returns |
| `WorklistSeeding.SortPredictsDrain` | src/worklist_seed.py:35-43 | on a list that meets that condition the drain leaves queued exactly the tasks that the sort reports |
| `WorklistSeeding.SeedingSortedListGetsStuck` | src/worklist.py:257-275 | two tasks that the sort orders and that seeded in that order never both get done |
| `WorklistDb.WorklistDB.ClaimNextTask` | src/worklist.py:203-221 | returns None iff nothing is claimable, else the claimed row of the lowest claimable id, and changes only that row |
| `WorklistDb.WorklistDB.StartTask` | src/worklist.py:223-229 | the owner's row, and no other, becomes in progress |
| `WorklistDb.WorklistDB.CompleteTask` | src/worklist.py:231-242 | the owner's row, and no other, becomes done with its time and address |
| `WorklistDb.WorklistDB.FailTask` | src/worklist.py:244-255 | the owner's row, and no other, becomes failed with the prefixed reason |
| `WorklistDb.WorklistDB.Seed` | src/worklist.py:257-275 | inserts row by row what is not there yet, each insert using up an id |
| `WorklistDb.SeedKeepsRows` | src/worklist.py:257-275 | seeding changes no existing row and adds queued rows only |
| `WorklistDb.SeedCovers` | src/worklist.py:257-275 | afterwards every item's section and title has a row |
| `WorklistDb.SeedRowsExactly` | src/worklist.py:257-275 | item i gets a row iff its section and title are new then, under the id n + i, queued, unowned and with the item's blockers |
| `WorklistDb.SeedIdempotent` | src/worklist.py:258-262 | seeding the same list again changes no row, though it uses up ids |
| `WorklistDb.SeedIsARun` | src/worklist.py:257-275 | seeding is a run of insert steps, so the results on runs hold across it |
| `WorklistDb.WorklistDB.EnsureAuditRun` | src/worklist.py:132-146 | creates a run in review with count zero only if there is none of that name |
| `WorklistDb.WorklistDB.AdvancePhase` | src/worklist.py:148-161 | sets the phase of an existing run without any check on the old one |
| `WorklistDb.WorklistDB.Escalate` | src/worklist.py:183-197 | an existing run ends in escalate with the reason, no other changes |
| `WorklistDb.WorklistDB.IncrementIteration` | src/worklist.py:163-181 | undisturbed, it is the two locked sections of the shared-row protocol in a row |
| `AuditRuns.LimitKeptExactly` | src/worklist.py:148-181 | a step keeps "at the limit: escalated, or about to be" iff it is not a phase change away from escalate with no increment in flight |
| `AuditRuns.LimitHoldsInEveryInterleaving` | src/worklist.py:163-181 | for any interleaving of threads, once the limit is reached and all increments have returned the run is escalated |
| `AuditRuns.WindowIsVisible` | src/worklist.py:178-181 | between the two locked sections a run at the limit is visible in review and the count can pass the limit |
| `RunnerQueue.StepKeepsSafe` | scripts/runner/claim_task.py:11-21 | one command of any script, by a disciplined agent, keeps every story in at most one place with a fitting status |
| `RunnerQueue.ExclusiveInEveryRun` | scripts/runner/claim_task.py:11-21 | the same for every interleaving, crashes included |
| `RunnerQueue.NoTwoHoldersEver` | scripts/runner/claim_task.py:11-21 | from a store on which no script has run, in every interleaving no two agents hold one story, and a held story is not queued and shows claimed |
| `RunnerQueue.StoriesAreConserved` | scripts/runner/mark_failed.py:14-16 | without crashes every story stays in exactly one of queue, one claim, one agent's hands, one requeue, done |
| `RunnerQueue.CrashLosesExactly` | scripts/runner/claim_task.py:11-21 | a crash loses a story iff its agent was in the middle of claiming or requeueing it |
| `RunnerQueue.PutBackNeverRuns` | scripts/runner/claim_task.py:17-19 | the unexpected-status branch is unreachable |
| `RunnerQueue.HolderIsNeverRefused` | scripts/runner/mark_done.py:15-19 | the holder's mark_done always finds the story claimed and finishes it |
| `RunnerQueue.HoldersRecordedInEveryRun` | scripts/runner/claim_task.py:20-21 | in every interleaving the hash of a held story names its holder |
| `RunnerQueue.ScoresInEveryRun` | scripts/runner/mark_failed.py:14-16 | in every interleaving a queued story has the score it started with, or 1.5 if its hash holds no priority, p - 0.5 for a priority p above 0.5, and 0 for one below, however often it failed |
| `RunnerQueue.FailedStoryGoesFirst` | scripts/runner/mark_failed.py:14-17 | in every interleaving, while a failed story of priority above 0 is queued no story queued at that priority or behind it can be popped |
| `RunnerQueue.MarkFailedByAnybody` | scripts/runner/mark_failed.py:14-16 | an uninterrupted call by anybody queues the story again, done or not, and keeps it in one place iff no other agent holds, claims or requeues it |
| `RunnerQueue.MarkFailureByAnybody` | scripts/runner/mark_failed.py:15 | interleaved with anything, its write keeps the story in one place iff the story is only with the caller or done |
| `RunnerQueue.RequeueByAnybody` | scripts/runner/mark_failed.py:16 | interleaved with anything, its requeue keeps the story in one place iff the story is only with the caller or queued |
| `RunnerQueue.MarkDoneByAnybody` | scripts/runner/mark_done.py:15-19 | an uninterrupted call by anybody keeps the story in one place iff no other agent holds it |
| `RunnerQueue.WriteDoneByAnybody` | scripts/runner/mark_done.py:19 | interleaved with anything, its write keeps the story in one place iff the story is only with the caller or done |
| `RunnerScripts.RedisStore.ClaimTask` | scripts/runner/claim_task.py:11-22 | uninterrupted, a story of least score is taken out of the queue and marked with its agent, or put back with nothing changed iff its status is none of missing, pending and needs_fix |
| `RunnerScripts.RedisStore.MarkDone` | scripts/runner/mark_done.py:15-19 | succeeds iff the story is claimed, and then changes its status alone to done |
| `RunnerScripts.RedisStore.MarkTaskFailed` | scripts/runner/mark_failed.py:14-17 | the story's status becomes needs_fix; reported is the stored priority less one half (1.5 without one), and the story is queued at that if it is positive, at 0 otherwise; nothing else changes |
| `EventWatcher.FindMeaning` | src/watchers/event_watcher.py:90-94 | the row found is queued, of the same key and in the window, and none is missed |
| `EventWatcher.EventStreamWatcher.UpsertRow` | src/watchers/event_watcher.py:79-105 | one row is bumped or one is appended, as the upsert function of `EventRuns.UpsertWrites` says |
| `EventWatcher.EventStreamWatcher.CheckRateLimit` | src/watchers/event_watcher.py:113-123 | an event is held back iff its reason is Unhealthy and its key passed less than 120 s ago; passing is recorded |
| `EventWatcher.EventStreamWatcher.HandleItem` | src/watchers/event_watcher.py:135-166 | a warning that is neither a Pod's Killing nor an Unhealthy less than 120 s after the last of its key that passed is upserted while fewer than 50 rows are queued and counted as backpressure otherwise; any other item touches neither rows nor counter |
| `EventWatcher.EventStreamWatcher.ConsumeStream` | src/watchers/event_watcher.py:125-166 | the whole stream, or the part before the stop event, is processed in order |
| `EventRuns.StreamIsARun` | src/watchers/event_watcher.py:125-166 | that is the run of its events one after the other, of which the results below speak |
| `EventRuns.EveryEventIsAccountedFor` | src/watchers/event_watcher.py:130-166 | processed events = no object + non-warning + rate-limited + ignored + backpressure count + sum of the rows' counts |
| `EventRuns.WantedEventsCount` | src/watchers/event_watcher.py:147-166 | at any moment of any run such a warning adds one to the sum of counts if fewer than 50 rows are queued and one to the backpressure counter otherwise, and no other event adds to either; when the last one passed is read off the stream alone |
| `EventRuns.WantedEventsWrite` | src/watchers/event_watcher.py:79-105 | it raises the count and last time of a queued row of its key seen in the 60 s before, or if there is none appends a queued row with its own kind, fix class, time and count one |
| `EventRuns.UpsertWrites` | src/watchers/event_watcher.py:79-105 | the same of the upsert function, whatever the depth |
| `EventWatcher.FixClassExactly` | src/watchers/event_watcher.py:14-26 | which reasons of which kinds lead to which fix class |
| `EventRuns.DepthStaysWithinLimit` | src/watchers/event_watcher.py:162-163 | the queued depth never exceeds 50, whatever a worker moves out meanwhile |
| `EventRuns.FullQueueFreezesRows` | src/watchers/event_watcher.py:162-166 | rows change iff the event is accepted, and with 50 rows queued they never do, not even by a bumped counter |
| `EventRuns.PassedEventsAreSpaced` | src/watchers/event_watcher.py:113-123 | passed events of a rate-limited key are at least its limit apart, on any clock |
| `EventRuns.LimitedExactly` | src/watchers/event_watcher.py:113-123 | at any moment of a stream a warning is held back iff its reason is limited and the last passed event of its key came less than the limit ago |
| `EventRuns.VersionIsLatest` | src/watchers/event_watcher.py:142-145 | a reconnect resumes at the last event that carried a version, whatever became of that event, or from scratch if a 410 answer came after it (lines 182-184) |
| `EventRuns.OneRowPerWindow` | src/watchers/event_watcher.py:90-94 | at most one queued row per key is in the window, so the query's choice is unique |
| `EventSessions.ExtendCuts` | src/watchers/event_watcher.py:79-105 | extending the last session or opening a new one is the cut of the longer stream |
| `EventSessions.CutIsUnique` | src/watchers/event_watcher.py:86-94 | there is one way to cut a stream at gaps of a window or more and where the newest row has left the queue |
| `EventSessions.RowsAreSessionsAlways` | src/watchers/event_watcher.py:79-105 | whatever a worker takes out of the queue, at every moment the rows of a key are the sessions of its accepted events: first time, last time, length |
| `EventSessions.PartedExactly` | src/watchers/event_watcher.py:90-94 | the newest row of a key is queued after an accepted event of the key, and until that row is taken out |
| `EventSessions.RowsAreTheSessions` | src/watchers/event_watcher.py:79-105 | the same from an empty queue |
| `DedupWindow.HeldBackExactly` | src/auto_remediate/runtime.py:45-50 | on any deque a key is held back iff an entry at or before one of its own is unexpired |
| `DedupWindow.DequeRefinesMap` | src/auto_remediate/runtime.py:45-71 | under a monotone clock the deque suppresses a finding iff its key was emitted less than a window ago |
| `DedupWindow.StepKeepsStanding` | src/auto_remediate/runtime.py:45-54 | the deque stays sorted by expiry with distinct keys and agrees with the map |
| `DedupWindow.SameDecisionExactly` | src/auto_remediate/runtime.py:45-50 | on any clock a key is held back too long iff its expired entry is hidden behind an unexpired one, and let pass too early iff its entry is gone before its window has passed |
| `DedupWindow.DequeAgreesExactly` | src/auto_remediate/runtime.py:45-71 | on any clock deque and map emit the same findings of a run iff none of them meets such a key |
| `DedupWindow.AuditLinesAreSpaced` | src/auto_remediate/runtime.py:65-82 | two audit lines for one key are at least a window apart |
| `DedupWindow.LinesByMap` | src/auto_remediate/runtime.py:65-82 | under a monotone clock the lines written from a fresh start are those of the findings whose key was not emitted less than a window ago |
| `DedupWindow.LinesAreEmissions` | src/auto_remediate/runtime.py:65-82 | on any clock a finding gets a line iff it is emitted |
| `DedupWindow.LinesSpacedExactly` | src/auto_remediate/runtime.py:65-82 | on any clock the audit lines of a key are a window apart iff none is written when the entry of the one before, not yet a window old, has been pruned |
| `DedupWindow.ClockSteppingBackHidesExpiry` | src/auto_remediate/runtime.py:48-50 | after a clock step back an unexpired front entry keeps an expired key suppressed |
| `DedupWindow.ClockRunningAheadForgets` | src/auto_remediate/runtime.py:48-50 | after a clock that ran ahead and stepped back a key is emitted again inside its window |
| `DedupWindow.DedupKeyInjective` | src/auto_remediate/runtime.py:40-42 | without slashes in the first three fields equal keys mean equal findings |
| `DedupWindow.Runtime.IsSeen` | src/auto_remediate/runtime.py:45-50 | prunes expired entries from the left and reports whether the key is left |
| `DedupWindow.Runtime.ProcessFindings` | src/auto_remediate/runtime.py:65-82 | a batch leaves the deque and the audit lines that its sightings determine |
| `JoinedKeys.JoinInjective` | src/auto_remediate/finding_store.py:39 | joining is injective if only the last field may contain the separator |
| `JoinedKeys.SeparatorInsideFieldCollides` | src/auto_remediate/finding_store.py:39 | a separator inside a field gives two lists of fields one key |
| `Ladder.AnyMixOfCalls` | src/auto_remediate/remediation_ladder.py:272-314 | over any public calls on one session its cycles never exceed 2, restart patches never exceed the cycles counted, and trading namespaces, dry runs and other kinds get no patch |
| `LadderFleet.FleetBound` | src/auto_remediate/remediation_ladder.py:236-314 | over any number of sessions a resource or a namespace gets at most two restarts per session started on it, and a namespace starts at most 10 sessions plus its releases |
| `LadderFleet.EverySessionRestartsTwice` | src/auto_remediate/remediation_ladder.py:263-285 | each detect that the breaker lets through can bring the same resource two more restarts at one moment |
| `Ladder.FreshSessionRuns` | src/auto_remediate/remediation_ladder.py:507-525 | from a fresh session, nothing failing, advance raises at restart iff the namespace is trading, else ends in HEALED, APPLY or ESCALATE within 4 calls with exactly the patches due |
| `LadderVerdicts.SecondAdvanceDecides` | src/auto_remediate/remediation_ladder.py:272-364 | a fresh session advanced at `now` and once more is healed iff two neighbouring polls within 300 s show only ready containers and no warning stamped later than `now` before any poll raises, stays in WATCH_HEALING iff one raises first, and else is STILL_SICK |
| `LadderVerdicts.FreshSessionEnds` | src/auto_remediate/remediation_ladder.py:507-525 | if no poll raises, four advances or more end in HEALED iff the polls say so, else in ESCALATE in a dry run and in APPLY outside it, with restart time, deadline and cycle count as after the one restart |
| `LadderVerdicts.SentExactly` | src/auto_remediate/remediation_ladder.py:272-505 | any public calls send, to the session's own resource only, one restart patch for each cycle counted and one fix patch for each answered apply call, both exactly where patches reach the resource, and one webhook call for each escalation outside dry runs |
| `Ladder.OnePatchByAdvancing` | src/auto_remediate/remediation_ladder.py:507-525 | whatever fails on the way, a caller that only advances sends at most one patch |
| `Ladder.BrokenWatchIsStuck` | src/auto_remediate/remediation_ladder.py:516-518 | a watch that a failure breaks off leaves the session where no advance ever moves it |
| `Ladder.ZonedWarningNeverEnds` | src/auto_remediate/remediation_ladder.py:344-350 | once the first poll shows a warning whose time has a zone, which cannot be compared with the restart time, the session stays in WATCH_HEALING however often it is advanced |
| `Ladder.AdvanceProgress` | src/auto_remediate/remediation_ladder.py:507-525 | an advance gets strictly closer to a terminal state iff nothing fails in it; a failure leaves the session as it was, except that it breaks off a watch |
| `Ladder.BreakerHolds` | src/auto_remediate/remediation_ladder.py:189-202 | the counter stays within 0..10 and accounts for starts less releases |
| `Ladder.AtMostCapWithoutReleases` | src/auto_remediate/remediation_ladder.py:193-199 | without releases at most 10 detects per namespace succeed |
| `Ladder.IneligibleDetectsNeverMatter` | src/auto_remediate/remediation_ladder.py:254-261 | any calls lead to the same counters and starts with and without their ineligible detects |
| `LadderObjects.NamespaceCircuitBreaker.TryAcquire` | src/auto_remediate/remediation_ladder.py:193-199 | refuses at ten sessions and changes nothing, else counts one more session |
| `LadderObjects.NamespaceCircuitBreaker.Free` | src/auto_remediate/remediation_ladder.py:201-202 | counts one session less, never below zero |
| `LadderObjects.RemediationLadder.Detect` | src/auto_remediate/remediation_ladder.py:236-270 | judges by the last waiting reason and the last non-zero restart count; a started session is fresh |
| `LadderVerdicts.EligibleExactly` | src/auto_remediate/remediation_ladder.py:132-138 | restarts are for CrashLoopBackOff below five restarts and for the two probe reasons; the list of excluded reasons never decides |
| `LadderObjects.ReasonIsLastWaiting` | src/auto_remediate/remediation_ladder.py:246-250 | the reason that counts is that of the last waiting container, empty if none waits |
| `LadderObjects.RestartsAreLastNonZero` | src/auto_remediate/remediation_ladder.py:247-252 | the restart count that counts is the last one above zero, 0 if none is |
| `LadderObjects.RemediationLadder.RestartTarget` | src/auto_remediate/remediation_ladder.py:272-314 | refuses trading namespaces, sessions with two cycles and, where a patch is due, one that fails, and then changes nothing; else the state, restart time `now`, deadline 300 s later, one more cycle, and exactly the patch due |
| `LadderObjects.Watchdog` | src/auto_remediate/remediation_ladder.py:325-364 | healthy iff two consecutive healthy polls come before the deadline and before any poll that raises, by a failed read or an incomparable time, and then at the first such pair; else it ends at that poll or at the deadline |
| `LadderObjects.RemediationLadder.WatchTarget` | src/auto_remediate/remediation_ladder.py:316-364 | HEALED or STILL_SICK as the polls say; where a poll raises first the session stays in WATCH_HEALING |
| `LadderObjects.RemediationLadder.AnalyzeTarget` | src/auto_remediate/remediation_ladder.py:366-420 | goes to PROPOSE_FIX, or changes nothing where the pod cannot be read |
| `LadderObjects.RemediationLadder.SandboxVerifyTarget` | src/auto_remediate/remediation_ladder.py:422-437 | refuses trading namespaces, escalates in dry runs, else goes to APPLY |
| `LadderObjects.RemediationLadder.ApplyFix` | src/auto_remediate/remediation_ladder.py:439-464 | sends the patch outside dry runs and trading namespaces to the three kinds that have a patch call, and ends in APPLY; a failed patch changes nothing |
| `LadderObjects.RemediationLadder.EscalateSession` | src/auto_remediate/remediation_ladder.py:466-505 | ends in ESCALATE, with a webhook call outside dry runs |
| `LadderObjects.RemediationLadder.AdvanceSession` | src/auto_remediate/remediation_ladder.py:507-525 | makes the one call that belongs to the session's state |
| `PostFixWatchdog.PollLoop` | src/auto_remediate/watchdog.py:100-137 | the verdict is that of the first decisive poll, still-sick at the deadline if none is; an API error other than 404 is raised |
| `PostFixWatchdog.RunWatchdog` | src/auto_remediate/watchdog.py:29-149 | the same after the first read, where a 404 means deleted; a failed event stream raises in place of any verdict |
| `PostFixWatchdog.VerdictExactly` | src/auto_remediate/watchdog.py:118-135 | namespace-deleted, healed and still-sick each iff phase, node, readiness, warnings, restarts, waiting reasons and finalizers say so; any other pod decides nothing |
| `PostFixWatchdog.SumRestartCounts` | src/auto_remediate/watchdog.py:166-173 | the sum over all container statuses |
| `PostFixWatchdog.PollsFollowSchedule` | src/auto_remediate/watchdog.py:101-105 | if sleeps last at least their interval no poll starts before its place in the 5/15/30 s schedule |
| `PostFixWatchdog.ScheduleInClosedForm` | src/auto_remediate/watchdog.py:157-163 | twelve polls in the first minute, eight in the next two, then one every 30 s |
| `PostFixWatchdog.PollCountBound` | src/auto_remediate/watchdog.py:101-105 | a timeout T > 180 s allows at most 12 + 8 + ceil((T-180)/30) polls |
| `PostFixWatchdog.OverrunBelowOneInterval` | src/auto_remediate/watchdog.py:101-105 | with exact sleeps and instant calls the loop ends less than 30 s after T |
| `ExplanationCache.RoundTrip` | src/auto_remediate/finding_cache.py:102-142 | reading back a stored explanation gives it unchanged apart from `from_cache` |
| `ExplanationCache.DecodeInjective` | src/auto_remediate/finding_cache.py:103-122 | only equal payloads are read as equal explanations |
| `ExplanationCache.ParseKind` | src/auto_remediate/nim_models.py:15-21 | a kind is recognised iff it is the value of that member |
| `ExplanationCache.EvictChangesLookupExactly` | src/auto_remediate/finding_cache.py:80-85 | eviction changes a lookup iff the row is evicted although the lookup's clock still finds it valid |
| `ExplanationCache.LookupIsLatestStoreExactly` | src/auto_remediate/finding_cache.py:45-85 | on any clock a lookup answers the latest store for the finding, if by this model and at most seven days old, iff no eviction since then found it older than that |
| `ExplanationCache.LookupIsLatestStore` | src/auto_remediate/finding_cache.py:45-85 | under a monotone clock a lookup answers the latest store for the finding, if by this model and at most seven days old; evictions never show |
| `ExplanationCache.ClockSteppingBackLosesAnswers` | src/auto_remediate/finding_cache.py:80-85 | an eviction before a clock step back removes a still valid answer |
| `ExplanationCache.CountersMeaning` | src/auto_remediate/finding_cache.py:51-55 | hits are the lookups that the history answers, hits and misses together all lookups |
| `ExplanationCache.ExplainIsTransparent` | src/auto_remediate/finding_cache.py:101-142 | in every run and on any clock explain gives the backend's answer apart from `from_cache`, whatever other models store |
| `ExplanationCache.ExplainedExactly` | src/auto_remediate/finding_cache.py:101-142 | under a monotone clock explain gives the backend's answer, with `from_cache` set if the latest store for the finding is by this model and at most seven days old, and as the backend gives it otherwise |
| `ExplanationCache.TransparentExactly` | src/auto_remediate/finding_cache.py:101-142 | the answer is the backend's iff the store that still counts is what that answer encodes to |
| `ExplanationCache.TakingTurnsNeverHits` | src/auto_remediate/finding_cache.py:51-74 | models that explain a finding in turn, none twice in a row, miss every time |
| `ExplanationCache.FindingCache.Get` | src/auto_remediate/finding_cache.py:45-55 | answers a live row of this model only, and counts |
| `ExplanationCache.FindingCache.Set` | src/auto_remediate/finding_cache.py:57-74 | replaces the finding's row |
| `ExplanationCache.FindingCache.HitRate` | src/auto_remediate/finding_cache.py:76-78 | the fraction of hits, within 0..1, zero before the first lookup |
| `ExplanationCache.FindingCache.EvictExpired` | src/auto_remediate/finding_cache.py:80-85 | removes the expired rows and returns their number |
| `ExplanationCache.CachedBackend.Explain` | src/auto_remediate/finding_cache.py:101-142 | a live row of this model is decoded and stores nothing; otherwise the backend's answer is returned as it is and stored for seven days |
| `FindingStore.RowsReflectHistory` | src/auto_remediate/finding_store.py:43-72 | after any upserts there is one row per fingerprint, with first and last time, number of sightings and the first finding |
| `FindingStore.EveryFindingCounted` | src/auto_remediate/finding_store.py:51-72 | without separators in the names each sighted finding has a row whose count is its multiplicity |
| `FindingStore.CountIsMultiplicityExactly` | src/auto_remediate/finding_store.py:36-40 | a fingerprint's count is the finding's multiplicity iff no other sighted finding shares it |
| `FindingStore.CountsAddUp` | src/auto_remediate/finding_store.py:59-68 | the counts sum to the number of accepted upserts |
| `FindingStore.FingerprintInjective` | src/auto_remediate/finding_store.py:36-40 | without separators in namespace, kind and name equal fingerprints mean equal findings |
| `FindingStore.SeparatorInNameConfuses` | src/auto_remediate/finding_store.py:36-40 | a separator in a namespace or kind gives two findings one fingerprint |
| `FindingStore.FindingStore.UpsertFinding` | src/auto_remediate/finding_store.py:43-72 | inserts or increments one row and returns the fingerprint; a severity outside the list is refused |
| `Redaction.RedactSplitsAtSpaces` | src/auto_remediate/dpo_pair.py:20-28 | redaction acts on each maximal run of non-spaces by itself |
| `RedactionWords.MatchExactly` | src/auto_remediate/dpo_pair.py:20-23 | the pattern matches at a place iff one of the four words, in any case, stands there directly before an equals sign and a non-space |
| `RedactionWords.FirstSecretCuts` | src/auto_remediate/dpo_pair.py:20-28 | a run of non-spaces is cut after its first keyword and equals sign, and ends in the marker |
| `RedactionWords.WordIsRedacted` | src/auto_remediate/dpo_pair.py:20-28 | a keyword, an equals sign and a value up to the next space or the end become the keyword, the equals sign and the marker, and the rest is redacted by itself |
| `RedactionWords.AsciiSecretIsRedacted` | src/auto_remediate/dpo_pair.py:20-28 | the same with the eight lower- and upper-case words, printable ASCII values and ASCII blanks |
| `RedactionWords.UnchangedExactly` | src/auto_remediate/dpo_pair.py:26-28 | a text is left as it is iff every keyword before an equals sign and a value has the marker for a value |
| `RedactionWords.NoSecretNoChange` | src/auto_remediate/dpo_pair.py:26-28 | so it is if no keyword stands before an equals sign and a value |
| `Redaction.RedactIdempotent` | src/auto_remediate/dpo_pair.py:26-28 | redacting twice is redacting once |
| `RedactionWords.RedactedShowsNoSecret` | src/auto_remediate/dpo_pair.py:20-28 | in the output every keyword before an equals sign and a non-space is followed by exactly the marker |
| `RedactionWords.PairFieldByField` | src/auto_remediate/dpo_pair.py:135-153 | commands, events, logs and verification are each redacted in place, everything else is copied |
| `Redaction.PairSafeExactly` | src/auto_remediate/dpo_pair.py:135-153 | whatever the redacted fields held, nothing that the issue body quotes shows an unmarked value iff no copied field does: prompt, action types, outcomes, namespace and kind as they are, probe state and meta texts as JSON writes them |
| `Redaction.RedactPairIdempotent` | src/auto_remediate/dpo_pair.py:139-153 | redacting a pair twice is redacting it once |
| `Redaction.PromptIsNotRedacted` | src/auto_remediate/dpo_pair.py:139-153 | a prompt with a secret survives |
| `Redaction.ProbeStateIsNotRedacted` | src/auto_remediate/dpo_pair.py:271 | so does one among the values of the probe state, even one that only the escaping of a line break makes a value |
| `HostConflicts.HostReportedExactly` | src/analyzers/ingress_analyzer.py:36-46 | the analysis reports a host and class iff two different ingresses of the list claim it |
| `HostConflicts.HostReportedByNames` | src/analyzers/ingress_analyzer.py:113-130 | as namespaces hold no slash, that is iff two ingresses that differ in namespace or name claim it |
| `HostConflicts.FindingNamesBoth` | src/analyzers/ingress_analyzer.py:120-130 | every conflict reported is of high severity, about an ingress of the list, and names another one that claims the same host and class |
| `HostConflicts.HostReportedInAnyOrder` | src/analyzers/ingress_analyzer.py:36-46 | the order of the list does not matter for which are reported |
| `HostConflicts.ReportedExactly` | src/analyzers/ingress_analyzer.py:120-130 | the same on lists of claims |
| `HostConflicts.CountExactly` | src/analyzers/ingress_analyzer.py:120-130 | a key gets one finding per claim by others than its first claimant |
| `HostConflicts.CountDependsOnOrder` | src/analyzers/ingress_analyzer.py:120-130 | the number of findings does depend on the order |
| `HostConflicts.AnalysisReports` | src/analyzers/ingress_analyzer.py:36-46 | the conflict findings of an analysis are the report on all claims in order, whatever the other checks add |
| `HostConflicts.AnalysisKeepsOthers` | src/analyzers/ingress_analyzer.py:36-46 | its other findings are those of the other checks, in order |
| `HostConflicts.Scan.DetectHostConflicts` | src/analyzers/ingress_analyzer.py:113-130 | one ingress adds its conflict findings, and the host map still records first claimants |
| `HostConflicts.Analyze` | src/analyzers/ingress_analyzer.py:36-46 | the loop over ingresses returns the analysis |
| `HostConflicts.FingerprintMeans` | src/analyzers/base.py:41-46 | without slashes in the names, equal fingerprints mean the same resource and category |
| `HostConflicts.DropRepeats` | src/analyzers/base.py:97-103 | keeps exactly the first finding of each fingerprint |
| `HostConflicts.RunSafe` | src/analyzers/base.py:91-106 | the same after a passed pre-check and an analysis that did not raise, else nothing |
| `HostConflicts.KeptExactly` | src/analyzers/base.py:97-103 | a finding is kept iff no earlier one has its fingerprint, and the order stays |
| `HostConflicts.OneKeptPerIssue` | src/analyzers/base.py:97-103 | every resource and category found has exactly one kept finding |
| `HostConflicts.KeySurvivesExactly` | src/analyzers/base.py:97-103 | a host is still reported afterwards iff some finding about it is its ingress's first conflict |
| `HostConflicts.HostSurvivesExactly` | src/analyzers/base.py:91-104 | on the list of ingresses: a host is still reported afterwards iff, for some ingress, it is the first host that the ingress claims after another has claimed it |
| `HostConflicts.SecondSharedHostIsLost` | src/analyzers/base.py:41-46 | of two hosts shared by two ingresses only the first is still reported |

## Left out

- `count_by_status`, the row converters, `updated_at`, `started_at` and the deliverable paths of the worklist: carried along, no condition depends on them.
- Phase names outside the table's check, lock timeouts and rollbacks: phases are a datatype, statements succeed or do not happen.
- Ties of the sorted set: any story of least score may be popped, where Redis takes the first by name.
- The runner's heartbeat script, exit codes and printed JSON other than the reported score.
- Which in-window row a query returns: proved to be at most one.
- The two clock readings inside the event upsert are one here; ISO timestamps are real numbers.
- Delays between reconnects of the event watcher, and the runtime's sleep loop; a reconnect after a 410 answer is an input of the runs.
- A patch call that raises is taken as not applied; a pod read that fails in `detect` (nothing changes then) is not modelled.
- The diagnosis that `analyze` builds and the text of preference pairs; the session keeps the chosen action only.
- Titles, labels and markup of issues: safety is stated on the fields that the body quotes, one by one, and on JSON texts between their quotes.
- Environment overrides of thresholds: the ladder constants have their default values; the dedup window and watchdog timeout are parameters.
- The background event task of the post-fix watchdog: each poll's observation says whether a recent warning was seen, and an input says whether the task has failed at the end. Final phase, duration and event list are not returned.
- Text that no condition depends on: hypotheses and evidence of findings other than host conflicts, audit lines beyond their key.
- Hashes are taken as injective, uuids are left out, JSON documents are structured values.
- `ExplanationCache.FindingCache.Get`: the counters are fields here; in the source they are module globals that a second cache object resets.
- `ExplanationCache.CachedBackend.Explain`: the cache is not used by others while the backend works; runs of single lookups and stores cover the interleavings.
- Float rounding: times, scores and rates are real numbers.
- The table, row and status of a finding are changed by nobody else; a resolved finding that is seen again keeps its status.
- `root_cause.py`, `safety_gate.py`, the sandbox, pull-request and LLM back ends, the other analyzers and the MCP server: plumbing or single-branch classification.
