# Proofs about the experiment scheduler

This project models the scheduling kernel of the experiment scheduler (task store, tick, matching,
readiness, GPU policy) and three self-contained parts beside it (terminal stream, input pump, backup
schedule), and proves properties of their behaviour over all inputs, all runs and all reachable states.
`dafny verify dfyconfig.toml` checks everything.

## How it is built

The source's objects are classes whose methods change fields in place: `TaskStore.Database`,
`Readiness.Tracker`, `Scheduler.Service`, `GpuPolicy.Store`, `TerminalDecode.Stream`, `InputPump.InputQueue`,
`BackupJobs.Service`. Every method that changes state is proved equal to a function on an immutable record,
or states its new state outright. The theorems are about those functions, one step at a time and then over
whole runs. What such a function computes is in turn said without it, on rows, edges, readings, queues and
screens: `TaskEdges` and `TaskColumns` for the store, `MatchingGreedy`, `SchedulerChoice`, `SchedulerReadings`,
`SchedulerTicks` and `SchedulerOutcomes` for the scheduler, `GpuEntries`, `TerminalLines` and `BackupSettings`
for the rest. `Histories` follows any fact that steps establish and end over a run.

| part | modules |
|---|---|
| task store | `Ordering`, `DependencyGraph`, `TaskModel` (specification), `TaskQueues`, `TaskRuns`, `TaskEdges`, `TaskColumns`, `TaskLifecycle`, `Histories`, `TaskStore` (class) |
| scheduler | `Gpus`, `Matching`, `MatchingExact`, `MatchingGreedy`, `Readiness`, `SchedulerModel` (specification), `SchedulerRuns`, `SchedulerChoice`, `SchedulerReadings`, `SchedulerTicks`, `SchedulerOutcomes`, `SchedulerLifecycle`, `SchedulerReadiness`, `SchedulerGaps`, `SchedulerReservations`, `SchedulerRequests`, `SchedulerWaits`, `SchedulerProgress`, `SchedulerPauses`, `PausedWaits` |
| GPU policy | `GpuPolicy` (with class `Store`), `GpuLeases`, `GpuEntries` |
| both together | `Kernel` (specification and runs), `KernelRuns`, `Scheduler` (class) |
| terminal | `TerminalDecode`, `TerminalErase`, `TerminalLines`, `Utf8`, `InputPump` |
| backup | `BackupSchedule`, `BackupJobs`, `BackupSettings` |

The main results, read top down: `Kernel.EveryKernelStateIsSafe` and `SchedulerChoice.EveryLaunchInRuns` (one
whole-GPU task per GPU; launches only with dependencies done), `Kernel.PlansOnlySchedulable`,
`SchedulerTicks.TickDoes` and `SchedulerChoice.TickIsGreedy` (what a tick does to every task, and why),
`SchedulerRequests.EndsAsRequested` (how tasks end), `SchedulerLifecycle.RunsProject` with `EndedStaysEnded` and
`OnlyItsWatcherEndsATask`, `SchedulerProgress.RunsMakeProgress`, `SchedulerGaps.LaunchesNeedGoodReadings` and
`Readiness.FullCountMeans` (what a full count means, down to the readings), `SchedulerWaits`,
`TaskLifecycle.RanksRefineSequences` (integer ranks behave as plain lists), `TaskEdges.EdgesAreThoseAskedFor` and
`DependencyGraph.ReplaceIsExact` (the cycle check is exact), `TaskColumns.RestartInLaunchOrder`,
`KernelRuns` (these for runs of scheduler and policy together), `MatchingExact.MaximalityIsExact` and
`ExclusivityIsExact`, `GpuLeases.NoTraceIsExact`, `GpuEntries.RestoreIsExact`,
`TerminalLines.OverwrittenLinesLeaveNoTrace`, `TerminalDecode.ChunkingDoesNotMatter`,
`InputPump.FailureIsExact`, `BackupJobs.SlotBetweenRuns`, `BackupSettings.StartedExactlyWhenDue`.

## Assumptions

- Each database method is one atomic step: it holds its lock and one transaction.
- A tick is one step whose GPU payload shows the tasks running at its start; the source refreshes the
  payload (scheduler.py:1190) before it takes its lock (1194). The readings (one set for each time the
  source asks), the pause flag, and which launches and reservations succeed are inputs of the tick.
  `SchedulerRuns` takes the effective GPU set as an input too; `Kernel` computes it from the policy.
- A watcher's completion is one step that covers the database write and the removal of the handle; the
  source awaits in between (scheduler.py:1674 to 1843). One instant stands for the clock readings of a step.
- The clock never goes backwards where a statement speaks of elapsed time (backup jobs, cooldowns, the exact
  condition for restoring); other times are arbitrary inputs.
- GPU readings name each GPU once, and show a process on every GPU where a reservation is held
  (`HonestReadings`). Budgets are positive, as the service's input check demands (scheduler.py:2734-2740).
- The retry limit and delay, the cooldown length and the idle threshold are fixed over a run; the number
  of readiness checks and the auto-restore limit may change at any step. Exit codes, a log that shows
  memory exhaustion, and which processes are alive are arbitrary inputs.
- Each call of the backup service is one step. The awaits on the way to the row it writes (backup.py:316,
  344 and events.py:32) are on two locks that are never held across a suspension, so nothing comes in
  between; the child process is started by a separate task.
- Row ids and GPU indices are natural numbers; ranks, memory sizes and times are unbounded integers, as
  they are in Python. Task ids are never reused (AUTOINCREMENT).
- A failed post of terminal input delivered nothing, and text holds no lone surrogates.
- The screen model has a fixed column count, equal to the one the erase computes with.

## What turned out false, and exactly when it holds

- Leases are meant to leave no trace. They leave one exactly when an observation finds a switched-off
  idle GPU leased while auto-restore is on: the observation drops the recorded start of its wait, so the
  restore comes late. Granting a lease triggers such an observation itself (scheduler.py:833).
  `GpuLeases.NoTraceIsExact` is the if-and-only-if, `MaskedLeavesTrace` says what each such observation
  changes, and `LeaseResetsTheWait` gives runs in which no lease is active at any restore.
- Requeueing unsent input loses a byte-order mark that starts a chunk, and nothing else
  (`FailureIsExact`, an if-and-only-if; `FailureCanLoseAMark`). Text without U+FEFF is never lost.
- The web layer admits only weekdays 0..6 (web.py:217, 228) and so does creating a job, but the service's own
  edit takes any weekday. `WeeklyIsExact` says for which values the next run is always the least slot, and
  `SlotsSeparateIsExact` for which a slot passes before it comes due: exactly from -7 on. From -8 down the
  job can fire twice in a minute (`RunsTwiceInAMinute`).
- The lone-CR erase is right exactly while the first row of the line is on the screen and the line needs no row
  more in its column than in column 0 (`LoneCrEraseIsRight`): always after CR LF, but after a LF alone the
  cursor keeps its column (App.tsx:4078, 6492, 7734) and the erase counts from 0 (`EraseAfterLineFeed`). Tabs
  are counted as four columns, whatever they move; `AnyEraseIsExact` and `OneRowErase` are the exact
  conditions with tabs and backspaces, `TabsEraseTooMuch` a failing line for every width.
- Exclusive use inside one pass fails for a reservation on a GPU reported idle exactly when it is at least
  as large as its budget (`ExclusivityIsExact`; any other reservations may be held as well,
  `LargeHidesClaim`). The scheduler results assume that a reservation process is visible, so that such a
  GPU is not reported idle.
- Maximality fails for a reservation exactly when it is larger than its budget (`MaximalityIsExact`,
  `OversizedBreaksMaximality`). Both are for a usable GPU with more than 2049 MB free, the least that lets
  a budget of 1 MB in.
- The kill codes in the retry test are dead code (`KillsAreRequeuedNotRetried`); `finish_task` has no status
  guard, so the invariant rests on watchers calling it for running tasks only (`Scheduled`).

## Model

| member | source | states |
|---|---|---|
| Ordering.SelectOrdered | src/exp_scheduler_app/database.py:1247-1259 | The in-place selection loop returns the rows of a query in increasing (key, id) order: exactly `SortIds`. |
| Ordering.ListingUnique | src/exp_scheduler_app/database.py:1247-1259 | There is only one list of a row set in increasing (key, id) order, so exhibiting a list proves what a query returns. |
| DependencyGraph.Ancestors | src/exp_scheduler_app/database.py:3106-3129 | The recursive query ends, and finds exactly the nodes reachable along one or more edges. |
| DependencyGraph.WouldCreateCycle | src/exp_scheduler_app/database.py:3106-3129 | True exactly when some requested dependency already reaches the task. |
| DependencyGraph.AddIsExact | src/exp_scheduler_app/database.py:2989-3015 | On an acyclic graph, adding edges from t keeps it acyclic if and only if no new target already reaches t. |
| DependencyGraph.ReplaceIsExact | src/exp_scheduler_app/database.py:3131-3157 | The same if-and-only-if for replacing the edges of t, although the check reads the graph before the old edges are deleted. |
| DependencyGraph.CutAtTarget | src/exp_scheduler_app/database.py:3131-3157 | A walk that ends at t can be cut to edges whose source is not t; why the old edges of t do not disturb the check. |
| DependencyGraph.SomeMemberIsMinimal | src/exp_scheduler_app/database.py:3082-3157 | In an acyclic relation every non-empty finite set has a member with no successor in it. |
| TaskRuns.CycleCheckIsExact | src/exp_scheduler_app/database.py:3036-3041 | On the store: add and replace answer "would cycle" exactly when the resulting relation would have a cycle. |
| TaskRuns.CreateNeverCycles | src/exp_scheduler_app/database.py:400-453 | Creating a task with dependencies is never rejected for a cycle. |
| TaskEdges.AddStoresWhatIsAsked | src/exp_scheduler_app/database.py:2989-3015 | Adding dependencies is accepted if and only if the request is empty or the tasks exist and the relation asked for (the old edges and one to each requested task) has no cycle; and then exactly that relation is stored. |
| TaskEdges.ReplaceStoresWhatIsAsked | src/exp_scheduler_app/database.py:3131-3157 | Replacing is accepted if and only if the tasks exist and the relation asked for (the edges of other tasks, and one to each requested task) has no cycle; and then exactly that relation is stored. |
| TaskEdges.CreateStoresWhatIsAsked | src/exp_scheduler_app/database.py:400-453 | Creating a task with dependencies is accepted if and only if they all exist, and the new task then has just those edges. |
| TaskEdges.UpdateStoresWhatIsAsked | src/exp_scheduler_app/database.py:1319-1406 | An edit with dependencies is accepted if and only if the task waits, they all exist and the relation asked for has no cycle; and then exactly that relation is stored. |
| TaskEdges.RemoveDropsWhatIsNamed | src/exp_scheduler_app/database.py:3017-3034 | Removing takes away the named edges of the task, or all of them, and nothing else. |
| TaskEdges.OtherStepsKeepEdges | src/exp_scheduler_app/database.py:1294-1317 | No other step writes an edge; deleting a task drops its edges in both directions. |
| TaskEdges.EdgesAreThoseAskedFor | src/exp_scheduler_app/database.py:2989-3157 | Over any run the stored edges are exactly those that an accepted call asked for and no later call replaced, removed or deleted. |
| TaskQueues.SameMembersIsPermutation | src/exp_scheduler_app/database.py:1485-1501 | The length-and-members test of a reorder request is the permutation test on multisets. |
| TaskQueues.ReorderIsExact | src/exp_scheduler_app/database.py:1485-1516 | A reorder is accepted if and only if it is a permutation of the queue; then the queue reads as asked and no other queue changes. |
| TaskQueues.CreateAppends | src/exp_scheduler_app/database.py:400-453 | An accepted create appends the new id to its queue and leaves the other queues alone. |
| TaskQueues.UpdateKeepsOrAppends | src/exp_scheduler_app/database.py:1319-1406 | An edit keeps the place inside the same queue; to another queue it removes and appends. |
| TaskQueues.MoveKeepsOrAppends | src/exp_scheduler_app/database.py:1433-1483 | The same for a move. |
| TaskQueues.RestartPrependsBlock | src/exp_scheduler_app/database.py:2666-2723 | Restart puts the running tasks of each queue, as one block in start order, before the tasks waiting there. |
| TaskLifecycle.RanksRefineSequences | src/exp_scheduler_app/database.py:2756-2781 | For every step of the store and every queue: the list read by (rank, id) after the step is what the step does to a plain sequence (append, keep, remove, permute, prepend, prepend a block). |
| TaskRuns.StepKeepsValid | src/exp_scheduler_app/database.py:2374-2664 | Every step keeps: waiting rows and only they have ranks, ranks distinct per queue, staged status and staged queue coincide, dependencies acyclic and between existing tasks, attempt rows exactly 1..attempt_count and only the last row of a running task running, ids below the next id. |
| TaskRuns.RunKeepsValid | src/exp_scheduler_app/database.py:2374-2832 | The same over any run of any length. |
| TaskRuns.RestartKeepsValid | src/exp_scheduler_app/database.py:2666-2723 | The same for restart recovery, which rewrites many rows at once. |
| TaskColumns.ColumnsAre | src/exp_scheduler_app/database.py:2374-2723 | Column by column, which steps write the status, queue, need, GPU, start time, retry time and attempt count of a row that stays, and with what; the creation time is never written. |
| TaskColumns.NewRowIs | src/exp_scheduler_app/database.py:400-453 | A new row has the next id, the queue and need asked for (of the cloned task for a clone), no attempts, no GPU and no times but its own creation. |
| TaskColumns.RowsAre | src/exp_scheduler_app/database.py:1294-1317 | Which rows there are after a step: deletion takes the named row unless it runs, an accepted create or clone adds the next id (accepted exactly if the dependencies exist, or the cloned task ended otherwise than by success), nothing else adds or removes one. |
| TaskColumns.EditsExactly | src/exp_scheduler_app/database.py:1319-1406 | An edit that names no dependencies is accepted exactly for a waiting task. |
| TaskColumns.AttemptsAre | src/exp_scheduler_app/database.py:2792-2832 | Only the last attempt of a task is ever written, with the outcome of the step; all others keep how they ended. |
| TaskColumns.RowsRemember | src/exp_scheduler_app/database.py:2374-2420 | Over any run: the attempt count is the number of times the launch of the task was tried, and a running task has the start time and the GPU of its last launch. |
| TaskColumns.RestartInLaunchOrder | src/exp_scheduler_app/database.py:2666-2723 | Of two running tasks of one queue that a restart requeues, the one launched earlier stands first afterwards, over any run before the restart. |
| TaskLifecycle.StepRespectsLifecycle | src/exp_scheduler_app/database.py:1294-1516 | One step: an ended row does not change, only deletion removes a row and never a running one, and only its own watcher or a restart takes a row out of running. |
| TaskLifecycle.EndedIsAbsorbing | src/exp_scheduler_app/database.py:2422-2462 | Over any run an ended task is unchanged or deleted, and its id never names another task. |
| TaskLifecycle.RetriesAreBounded | src/exp_scheduler_app/scheduler.py:2625-2636 | Over any run from an empty store a task is retried automatically at most M times, however retries mix with preemptions, interrupts and restarts. |
| TaskLifecycle.NoDependencyDeadlock | src/exp_scheduler_app/database.py:3082-3157 | In any valid store with a queued task, when every task is queued or succeeded, some queued task has all its dependencies satisfied; it is computed from acyclicity and finiteness. |
| TaskStore.Database.NextQueueRank | src/exp_scheduler_app/database.py:2756-2766 | The scan returns one more than the rank of the last task of the queue, 1 for an empty queue. |
| TaskStore.Database.HeadQueueRank | src/exp_scheduler_app/database.py:2768-2781 | The scan returns the rank n places before the head, 1 for an empty queue. |
| TaskStore.Database.ListQueuedTasks | src/exp_scheduler_app/database.py:1232-1245 | The urgent queue in order, then the normal queue in order. |
| TaskStore.Database.AreDependenciesSatisfied | src/exp_scheduler_app/database.py:3082-3096 | The comparison of two counts is true exactly when every stored dependency has succeeded. |
| TaskStore.Database.InsertNewEdges | src/exp_scheduler_app/database.py:3147-3157 | The plain INSERT loop of a replacement never meets a row that is already there, because the request has no repetitions and the old edges are gone. |
| TaskStore.Database.CheckDependencies | src/exp_scheduler_app/database.py:3131-3174 | Which error a dependency request gets (itself, unknown task, missing dependency, cycle, none), and the request without repetitions. |
| TaskStore.Database.AddDependencies | src/exp_scheduler_app/database.py:2989-3015 | Adds exactly the requested edges or changes nothing; an empty request is accepted even for an unknown task. The stored edges are said one by one. |
| TaskStore.Database.ReplaceDependencies | src/exp_scheduler_app/database.py:3131-3157 | Replaces exactly the edges of the task or changes nothing: afterwards an edge is stored if and only if it was and belongs to another task, or was requested. |
| TaskStore.Database.RemoveDependencies | src/exp_scheduler_app/database.py:3017-3034 | Removes the named edges of the task, or all of them when none are named. |
| TaskStore.Database.CreateTask | src/exp_scheduler_app/database.py:400-453 | The new row at the end of its queue with exactly the requested edges, or every table and the id counter unchanged; keeps the invariant. |
| TaskStore.Database.UpdateQueuedTask | src/exp_scheduler_app/database.py:1319-1406 | The edited row and exactly the requested edges together, or nothing; keeps the invariant. |
| TaskStore.Database.MoveTaskToQueue | src/exp_scheduler_app/database.py:1433-1483 | The whole new state of a move, or nothing; keeps the invariant. |
| TaskStore.Database.ReorderQueue | src/exp_scheduler_app/database.py:1485-1516 | The loop that assigns ranks leaves rank i + 1 on row i of an accepted request and every other row alone; keeps the invariant. |
| TaskStore.Database.DeleteTask | src/exp_scheduler_app/database.py:1294-1317 | Removes the row with its edges in both directions and its attempts, refuses a running task; keeps the invariant. |
| TaskStore.Database.CloneTaskForRequeue | src/exp_scheduler_app/database.py:2725-2754 | A new task at the end of the same queue with the same needs and no dependencies, for a failed, cancelled or interrupted task only. |
| TaskStore.Database.MarkTaskRunning | src/exp_scheduler_app/database.py:2374-2420 | A queued row starts its next attempt and loses its rank; the attempt row is written whatever the status was; keeps the invariant for a queued task. |
| TaskStore.Database.FinishTask | src/exp_scheduler_app/database.py:2422-2462 | Writes the final status and closes the attempt, without a status guard; keeps the invariant for a running task. |
| TaskStore.Database.MarkTaskLaunchFailed | src/exp_scheduler_app/database.py:2464-2506 | Fails the row, books the attempt named by the log file; keeps the invariant for a queued task and its next attempt. |
| TaskStore.Database.ScheduleTaskRetry | src/exp_scheduler_app/database.py:2508-2552 | The row goes to the head of its own queue with a retry time; keeps the invariant for a running task. |
| TaskStore.Database.PreemptRunningTask | src/exp_scheduler_app/database.py:2554-2605 | A running row goes to the head of the given queue; keeps the invariant for the normal queue, the only one the service passes. |
| TaskStore.Database.RequeueRunningTask | src/exp_scheduler_app/database.py:2607-2664 | A running row goes to the head of the target queue or of its own, staged included; keeps the invariant. |
| TaskStore.Database.RequeueRunningTasks | src/exp_scheduler_app/database.py:2666-2723 | The nested loops of restart recovery (group by queue, order by start, prepend each block, close attempts) reach exactly the specified state; keeps the invariant. |
| Matching.MatchTasksToGpus | src/exp_scheduler_app/scheduler.py:1965-2008 | The nested matching loops build exactly the plan of the recursive specification. |
| Matching.AssignmentsAreListed | src/exp_scheduler_app/scheduler.py:1965-2008 | Each task is assigned at most once, to a listed GPU that it may use. |
| Matching.AssignedWasReady | src/exp_scheduler_app/scheduler.py:2010-2054 | Every assignment rests on a live reservation or on a full count of good observations of the condition the task needs. |
| Matching.PrefixOfPlan | src/exp_scheduler_app/scheduler.py:1965-2008 | The plan for a prefix of the task list is a prefix of the full plan. |
| Matching.UrgentUnaffected | src/exp_scheduler_app/scheduler.py:1965-2008 | Normal tasks never change what urgent tasks get. |
| MatchingGreedy.PassIsGreedy | src/exp_scheduler_app/scheduler.py:1965-2119 | The whole pass said without its plan: the n-th task goes to the first listed GPU that is enabled, not cooling, the one it asks for, ready for it by a full count or a live reservation, not given whole to an earlier task, and has room (its memory, as reported and as left by earlier tasks, above budget plus 2048 MB; or idle and untouched); and is left out exactly if there is none. |
| Matching.MemoryIsConserved | src/exp_scheduler_app/scheduler.py:2072-2119 | For every GPU, planned free memory is reported free memory plus the reservations of the budgeted tasks assigned there minus their budgets, and above 2048 MB once one is assigned. |
| Matching.ShrinkingIsExclusive | src/exp_scheduler_app/scheduler.py:2056-2119 | If on every GPU reported idle each budget exceeds the task's own reservation there, a task without a budget shares its GPU with no other task of the pass. |
| Matching.PassIsExclusive | src/exp_scheduler_app/scheduler.py:2056-2119 | So it is when a GPU holding a reservation is not reported idle. |
| MatchingExact.ExclusivityIsExact | src/exp_scheduler_app/scheduler.py:2072-2119 | Exact condition: with one reservation held on a usable GPU reported idle, passes are exclusive for every readiness table and every task list if and only if the reservation is smaller than its budget. |
| MatchingExact.LargeHidesClaim | src/exp_scheduler_app/scheduler.py:2093-2100 | For every live reservation at least as large as its budget on a usable GPU reported idle, whatever other GPUs and reservations there are, some pass plans a whole-GPU task beside its holder. |
| Matching.ReservationHidesClaim | src/exp_scheduler_app/scheduler.py:2093-2100 | Without that assumption it is false: on any GPU reported idle, a live reservation equal to its budget leaves planned memory as reported, and a whole-GPU task is planned beside it. |
| Matching.ReservationCanHideAClaim | src/exp_scheduler_app/scheduler.py:2093-2100 | One such pass in numbers. |
| Matching.MatchIsMaximal | src/exp_scheduler_app/scheduler.py:1965-2119 | When no task's reservation exceeds its own budget (in particular when none are held), every task left out is refused by every GPU it may use under the final plan. |
| MatchingExact.MaximalityIsExact | src/exp_scheduler_app/scheduler.py:1965-2119 | Exact condition: with one reservation held on a usable GPU, passes are maximal for every readiness table and every task list if and only if the reservation is no larger than its budget. |
| MatchingExact.OversizedBreaksMaximality | src/exp_scheduler_app/scheduler.py:2113-2117 | For every live reservation larger than its budget on a usable GPU, whatever other GPUs and reservations there are, some pass leaves out a task that its final plan would take. |
| Matching.ReservationBreaksMaximality | src/exp_scheduler_app/scheduler.py:2113-2117 | Where that fails: whenever giving a reservation back frees more than its task takes, a task refused before is left out although the final plan would take it. |
| Matching.ReservationCanBreakMaximality | src/exp_scheduler_app/scheduler.py:2113-2117 | One such pass in numbers. |
| Readiness.Tracker.RefreshGpuReadyCounts | src/exp_scheduler_app/scheduler.py:1927-1963 | The refresh counts exactly the satisfied conditions, boosts recently released GPUs to the required number, drops all other counts, and uses up the flag of GPUs seen free. |
| Readiness.Tracker.ClearGpuReadyCounts | src/exp_scheduler_app/scheduler.py:2999-3006 | Forgets the counts and the flag of one GPU and nothing else. |
| Readiness.FlagMeans | src/exp_scheduler_app/scheduler.py:3008-3009 | Over any history: a GPU is flagged exactly when it was released and not since cleared, reset or seen free at a refresh. |
| Readiness.StreakMeans | src/exp_scheduler_app/scheduler.py:1953-1961 | Over any history: an unboosted count is at least n exactly when the condition has held at every refresh since one n refreshes back. |
| Readiness.FullCountMeans | src/exp_scheduler_app/scheduler.py:1953-1963 | A count reaches the required number N if and only if the condition has held at every refresh since one that is N refreshes back, or one that found the GPU flagged as recently released. |
| Readiness.LaunchGap | src/exp_scheduler_app/scheduler.py:1500-1508 | After a launch on a GPU, a full count there means that every refresh since some later one found the condition satisfied, and that these are N refreshes or a task ended on the GPU in between. |
| SchedulerReadings.CountedIsRead | src/exp_scheduler_app/scheduler.py:1927-1963 | A refresh counts "idle" for a GPU if and only if a reading shows it below the memory threshold and without processes, no scheduler task runs there, it is allowed and not cooling; and a budget if and only if some startable task asks for it and a reading of the allowed, not cooling GPU shows more than the budget plus 2048 MB free. |
| SchedulerReadings.SeenIsRead | src/exp_scheduler_app/scheduler.py:1945-1946 | It uses up the release flag of a flagged GPU if and only if the GPU is read, not cooling, and no scheduler task runs there. |
| SchedulerReadings.EntryMeans | src/exp_scheduler_app/gpu.py:23-55 | The payload entry of each reading, field by field, idle included. |
| SchedulerReadings.CandidatesMean | src/exp_scheduler_app/scheduler.py:1206-1211 | The GPUs a tick matches against are exactly the entries of the allowed readings that are not cooling down. |
| SchedulerReadings.AvailableInOrder | src/exp_scheduler_app/scheduler.py:1206-1211 | They stand in the order of the readings. |
| SchedulerReadiness.HistoryExplainsCounts | src/exp_scheduler_app/scheduler.py:1188-1232 | In every run of the whole scheduler the counts are those of the history of refreshes, launches, releases, kills, settings changes and restarts. |
| SchedulerReadiness.LaunchesAreKeptApart | src/exp_scheduler_app/scheduler.py:2010-2030 | In every run, of two launches on one GPU in different ticks, the second without a live reservation: since some refresh after the first launch every refresh found the second task's own condition satisfied on that GPU, and these are N refreshes or a task ended on the GPU in between. |
| SchedulerGaps.LaunchesNeedGoodReadings | src/exp_scheduler_app/scheduler.py:1927-2030 | The same on the run itself: after the first launch there is a tick from which on every tick read the GPU as good for the second task (idle, or roomy for its budget), and these are N ticks or a task that ran on the GPU ended in between. |
| SchedulerReservations.ReservationsAreReleased | src/exp_scheduler_app/scheduler.py:1500-1507 | In every state of every run no running task holds a memory reservation: it is given up before the task starts. |
| SchedulerReservations.TickLeavesOnlyAskedFor | src/exp_scheduler_app/scheduler.py:2133-2252 | After any tick from any state, every reservation left is alive and held for a task ready in that tick, of the size it asks for and on the GPU it asks for. |
| SchedulerModel.KillsAreRequeuedNotRetried | src/exp_scheduler_app/scheduler.py:1707-1742 | A retry happens only for a non-kill exit whose log shows memory exhaustion: the kill codes of the retry test (3306-3308) are unreachable, because such exits are requeued first. |
| SchedulerOutcomes.CompletionMeans | src/exp_scheduler_app/scheduler.py:1657-1770 | How a task ends, from any safe state: succeeded if and only if nothing was asked of it and it exited with 0; cancelled if and only if that was asked; queued with a retry time, exactly the delay later, if and only if nothing was asked, the exit is neither 0 nor a kill, memory was exhausted and the attempt is within the limit; back in a queue also after preemption, interruption and a kill; failed otherwise. |
| SchedulerOutcomes.CompletionMovesOne | src/exp_scheduler_app/scheduler.py:1663-1742 | A task that comes back stands at the head of the queue named by the request, or of its own; nothing else moves in any queue. |
| SchedulerOutcomes.CompletionLeavesTheRest | src/exp_scheduler_app/scheduler.py:1835-1847 | The handle is gone and the GPU flagged as released; a kill from outside, and nothing else, starts the cooldown of the GPU and drops its counts; all other rows, handles and reservations stay. |
| SchedulerOutcomes.DecisionMeans | src/exp_scheduler_app/scheduler.py:1663-1742 | Each verdict of the watcher with its exact condition on request, exit code, memory exhaustion and attempt. |
| SchedulerRequests.RequestsAreRemembered | src/exp_scheduler_app/scheduler.py:627-712 | In every run each running task has run since a tick launched it, and what is asked of it is the last stop request since then, with the last target queue named. |
| SchedulerRequests.EndsAsRequested | src/exp_scheduler_app/scheduler.py:1657-1770 | So in every run the last stop request since the launch and the exit code decide how a task ends. |
| SchedulerWaits.RetriesWait | src/exp_scheduler_app/scheduler.py:2638-2642 | In every run a task to be retried stays queued with a due time the delay later while ticks come before that time and no user handles it. |
| SchedulerWaits.RetriesAreNotPlannedEarly | src/exp_scheduler_app/scheduler.py:2613-2623 | And no tick before that time plans it. |
| SchedulerWaits.KilledGpusCoolDown | src/exp_scheduler_app/scheduler.py:3011-3080 | In every run, after a task was killed from outside, no tick within the cooldown plans any task on its GPU, as long as there is no restart and the clock does not go back. |
| SchedulerTicks.PreparedMeans | src/exp_scheduler_app/scheduler.py:2133-2158 | What a tick drops first: exactly the reservations whose process is gone or that no startable task asks for in that size and place, the failures of tasks that are not startable, and the cooldowns that have run out. |
| SchedulerTicks.TickDoes | src/exp_scheduler_app/scheduler.py:1210-1232 | The whole tick, task by task: a planned task that wants a reservation it neither holds nor has failed to get there reserves, keeping its row; any other planned task runs on its GPU from now with its next attempt, or failed, as its process started or not; every task not planned keeps row, handle and reservation. |
| SchedulerChoice.ListIsExact | src/exp_scheduler_app/scheduler.py:1195-1199 | The list of a tick holds exactly the queued tasks whose dependencies have all succeeded and whose retry time has come, urgent ones first, then by rank. |
| SchedulerChoice.NormalTasksDisplaceNobody | src/exp_scheduler_app/scheduler.py:1195-1218 | What urgent tasks get in a tick is what they would get if no normal task were listed. |
| SchedulerChoice.TickIsGreedy | src/exp_scheduler_app/scheduler.py:1194-1218 | The n-th task of the list is planned on the first GPU that takes it beside the tasks planned before, and is left out exactly if none does. |
| SchedulerChoice.PausedPlansNothing | src/exp_scheduler_app/scheduler.py:1202-1203 | A paused queue launches nothing. |
| SchedulerChoice.UrgentIsExact | src/exp_scheduler_app/scheduler.py:658-672 | Preemption is refused exactly when no urgent task is startable. |
| SchedulerChoice.EveryLaunchInRuns | src/exp_scheduler_app/scheduler.py:1188-1232 | In every run, whenever a planned task is handled, in the state reached by then: it is queued, every task it depends on is stored and has succeeded, its retry time has come, and without a budget it has its GPU to itself. |
| SchedulerRuns.QueuedJobsAre | src/exp_scheduler_app/scheduler.py:1195-1199 | Every task a tick considers is queued, every task it depends on has succeeded, its retry time is past, and it is listed once; said on the rows. |
| SchedulerRuns.PayloadFacts | src/exp_scheduler_app/scheduler.py:1355-1407 | The payload names each GPU once and calls one idle only when no scheduler task runs there and its reading shows no process and less used memory than the threshold. |
| SchedulerRuns.EveryLaunchIsOk | src/exp_scheduler_app/scheduler.py:1188-1232 | At the moment any planned task of a tick is handled, after all the earlier launches of that tick, its row is queued, the rows of its dependencies are succeeded, its retry time is past, and, if it has no budget, no scheduler task runs on its GPU. |
| SchedulerRuns.TickKeepsSafe | src/exp_scheduler_app/scheduler.py:1188-1232 | A tick keeps the safety invariant: valid store, one handle per running row with its GPU and attempt, at most one running task without a budget on any GPU. |
| SchedulerRuns.CompletionKeepsSafe | src/exp_scheduler_app/scheduler.py:1657-1847 | So does a watcher, for every stop reason, exit code and attempt number. |
| SchedulerRuns.StepKeepsSafe | src/exp_scheduler_app/scheduler.py:1188-1847 | So does every step: tick, watcher, stop request, user call, settings change, restart. |
| SchedulerRuns.EveryStateIsSafe | src/exp_scheduler_app/scheduler.py:1188-2119 | The invariant holds in every state of every run. |
| SchedulerLifecycle.RunsProject | src/exp_scheduler_app/scheduler.py:1500-1847 | Between any two states of a scheduler run the store has made a run of permitted store steps with the same automatic retries, so the store results hold from any state of a run to any later one. |
| SchedulerLifecycle.EndedStaysEnded | src/exp_scheduler_app/scheduler.py:1657-1847 | A task ended at one state of a scheduler run is unchanged or deleted at every later state, and its id names no other task. |
| SchedulerLifecycle.DeletedStaysDeleted | src/exp_scheduler_app/database.py:1294-1317 | A deleted task never comes back in a scheduler run. |
| SchedulerLifecycle.OnlyItsWatcherEndsATask | src/exp_scheduler_app/scheduler.py:1657-1847 | A task running at one state of a scheduler run and not at the next was ended by its own watcher or by a restart of the service. |
| SchedulerLifecycle.AutoRetriesAreBounded | src/exp_scheduler_app/scheduler.py:2625-2636 | In every scheduler run a task is retried automatically at most the configured number of times. |
| SchedulerProgress.TickPlansSomething | src/exp_scheduler_app/scheduler.py:1194-1218 | Progress: at an unpaused tick with queued work, nothing failed and no retry pending, if every task whose dependencies are done has a GPU it may use with a full count of its condition, the plan is not empty. |
| SchedulerProgress.RunsMakeProgress | src/exp_scheduler_app/scheduler.py:1188-1232 | The same in every scheduler run, with the full counts replaced by what they mean: a GPU good at every refresh since one N refreshes back or since a release. |
| Kernel.PlansOnlySchedulable | src/exp_scheduler_app/scheduler.py:1188-1218 | No task is ever planned on a GPU that is switched off or leased: the plan of a whole tick lies within the allowlist after timed entries and auto-restore, minus the active leases. |
| Kernel.KernelRunsProject | src/exp_scheduler_app/scheduler.py:1188-1232 | Every run of scheduler and policy together is, state by state and step by step, a scheduler run that pauses at policy changes. |
| SchedulerPauses.Project | src/exp_scheduler_app/scheduler.py:1188-1847 | Such a run without its pauses is a scheduler run that ends in the same state. |
| SchedulerPauses.Stands | src/exp_scheduler_app/scheduler.py:1188-1847 | Its state at any point, and the step that follows, stand in every longer such run at the position that counts the steps before, so results about two states of a scheduler run carry over. |
| KernelRuns.EndedStaysEnded | src/exp_scheduler_app/scheduler.py:1657-1847 | In runs of scheduler and policy together a task ended at one state is unchanged or deleted at every later one. |
| KernelRuns.DeletedStaysDeleted | src/exp_scheduler_app/database.py:1294-1317 | In such runs a deleted task never comes back. |
| KernelRuns.OnlyItsWatcherEndsATask | src/exp_scheduler_app/scheduler.py:1657-1847 | In such runs no lease, policy change or setting ends a task: only its own watcher or a restart does. |
| KernelRuns.AutoRetriesAreBounded | src/exp_scheduler_app/scheduler.py:2625-2636 | In such runs a task is retried automatically at most the configured number of times. |
| KernelRuns.ReservationsAreReleased | src/exp_scheduler_app/scheduler.py:1500-1507 | In such runs no running task holds a reservation. |
| KernelRuns.LaunchesAreKeptApart | src/exp_scheduler_app/scheduler.py:2010-2030 | In such runs two launches on one GPU are kept apart as in scheduler runs, whatever leases and policy changes come in between. |
| KernelRuns.RunsMakeProgress | src/exp_scheduler_app/scheduler.py:1188-1232 | In such runs an unpaused tick plans a task while work remains and the GPUs it needs have been good for long enough. |
| KernelRuns.EveryLaunchIsRight | src/exp_scheduler_app/scheduler.py:1188-1232 | In such runs every launch is of a queued task with all dependencies succeeded and its retry time past. |
| KernelRuns.RetriesAreNotPlannedEarly | src/exp_scheduler_app/scheduler.py:2613-2642 | In such runs no retry is planned before its time. |
| KernelRuns.KilledGpusCoolDown | src/exp_scheduler_app/scheduler.py:3011-3080 | In such runs no GPU is used during its cooldown. |
| KernelRuns.LaunchesNeedGoodReadings | src/exp_scheduler_app/scheduler.py:1927-2030 | In such runs the readings between two launches on one GPU were good for the second task as in scheduler runs. |
| Kernel.EveryKernelStateIsSafe | src/exp_scheduler_app/scheduler.py:1188-2119 | The safety invariant holds in every state of every run in which ticks, watchers, user calls, settings, leases and policy changes interleave. |
| Kernel.PolicyRunsProject | src/exp_scheduler_app/scheduler.py:1188-1193 | Every such run is a run of the policy, each tick contributing its timed entries, observations and restore in order. |
| Kernel.RestoredGpusHadWaited | src/exp_scheduler_app/scheduler.py:1291-1330 | In every such run a GPU restored by a tick was seen switched off, unleased and idle at every observation since one at least the limit earlier. |
| Kernel.KernelLeasesLeaveNoTrace | src/exp_scheduler_app/scheduler.py:2658-2704 | In every such run without a masked observation the schedulable set is that of the run without leases, less the GPUs leased at the time. |
| Scheduler.Service.Tick | src/exp_scheduler_app/scheduler.py:1188-1232 | The imperative tick, on the service fields, the database object, the tracker and the policy store, from timed entries through payload, auto-restore and second payload to matching and launching, reaches exactly the specified state of all of them and keeps the safety invariant. |
| Scheduler.Service.RefreshGpus | src/exp_scheduler_app/scheduler.py:1189-1193 | Timed entries, payload, auto-restore and the second payload leave the specified policy and the payload the tick matches against. |
| Scheduler.Service.RefreshGpuPayload | src/exp_scheduler_app/scheduler.py:1355-1407 | The payload loop builds the specified entries from the effective GPU set, prunes exactly the expired cooldowns and brings the idle tracking up to date. |
| Scheduler.Service.SyncMemoryReservations | src/exp_scheduler_app/scheduler.py:2133-2158 | The loop keeps exactly the live reservations still asked for with the same size and place, and the failures of listed tasks. |
| Scheduler.Service.StartMemoryReservation | src/exp_scheduler_app/scheduler.py:2160-2252 | A started reservation replaces the old one and clears the failure; a failed one is dropped and remembered with its GPU and size. |
| Scheduler.Service.LaunchTask | src/exp_scheduler_app/scheduler.py:1500-1655 | Releases the reservation, clears the GPU's counts, then books a running attempt and its handle, or a failed launch; keeps the store valid. |
| Scheduler.Service.Judge | src/exp_scheduler_app/scheduler.py:1663-1713 | The branch order of the watcher gives the specified verdict, which `SchedulerOutcomes.DecisionMeans` gives branch by branch with its exact condition. |
| Scheduler.Service.WatchProcess | src/exp_scheduler_app/scheduler.py:1657-1847 | A completed process reaches exactly the specified state, cooldown and release flag included, whose meaning is `SchedulerOutcomes.CompletionMeans`, `CompletionMovesOne` and `CompletionLeavesTheRest`; keeps the safety invariant. |
| Scheduler.Service.CancelTask | src/exp_scheduler_app/scheduler.py:627-643 | Accepted exactly for a running task; marks its handle and changes nothing else. |
| Scheduler.Service.InterruptTaskToStaged | src/exp_scheduler_app/scheduler.py:694-712 | The same, with the staged queue as target. |
| Scheduler.Service.PreemptTask | src/exp_scheduler_app/scheduler.py:658-672 | Preemption is accepted exactly for a running task while some urgent task is ready to run, and marks the handle. |
| GpuPolicy.SchedulableIs | src/exp_scheduler_app/scheduler.py:2691-2704 | The schedulable set is the allowlist (or all) within the known GPUs, minus the union of the active leases. |
| GpuPolicy.ScheduleIsApplied | src/exp_scheduler_app/scheduler.py:1234-1270 | Due entries switch known GPUs on and off in the schedulable set and change nothing else in it. |
| GpuPolicy.RestoreGrowsExactly | src/exp_scheduler_app/scheduler.py:1291-1330 | Auto-restore adds to the schedulable set exactly the restored GPUs, none of which was in it, and touches no lease. |
| GpuPolicy.GrantTakes | src/exp_scheduler_app/database.py:1614-1637 | Granting a lease takes exactly its GPUs out of the schedulable set while it is active, and nothing once it has expired. |
| GpuPolicy.ReleaseGivesBack | src/exp_scheduler_app/database.py:1676-1703 | Releasing an active lease puts back exactly its allowed GPUs that are in no other active lease. |
| GpuPolicy.Store.CreateLease | src/exp_scheduler_app/database.py:1614-1637 | A second lease under one id is refused without a change; otherwise, for every set of known GPUs and every time, the schedulable set shrinks by exactly the GPUs of the lease while it is active. |
| GpuPolicy.Store.ReleaseLease | src/exp_scheduler_app/database.py:1676-1703 | Marks an existing lease released, the first time and every time after, and changes nothing else. |
| GpuPolicy.Store.ApplyDueGpuSchedule | src/exp_scheduler_app/scheduler.py:1234-1270 | The loop over the entries reaches exactly the specified state, and writes nothing when no entry is due. |
| GpuPolicy.Store.SyncAutoRestoreIdleTracking | src/exp_scheduler_app/scheduler.py:1409-1442 | The loop leaves a recorded start exactly for the restorable GPUs seen idle, the old one where there was one. |
| GpuPolicy.Store.ApplyAutoRestoreIdleGpus | src/exp_scheduler_app/scheduler.py:1291-1330 | Restores exactly the GPUs whose wait is long enough and leaves the specified state. |
| GpuLeases.UnmaskedRun | src/exp_scheduler_app/scheduler.py:1409-1442 | If no observation finds a switched-off idle GPU leased while restoring is on, then after any run allowlist, entries, limit and recorded starts are all those of the run without its lease steps. |
| GpuLeases.MaskedLeavesTrace | src/exp_scheduler_app/scheduler.py:1422-1441 | Every masked observation leaves a trace: the stored settings differ at once, or a restore at a stated later time, after all leases have ended, tells the two runs apart. |
| GpuLeases.NoTraceIsExact | src/exp_scheduler_app/scheduler.py:1304-1316 | Exact condition: ending all leases at any point of a run leaves a policy that no later run can tell from the lease-free one, if and only if no observation of the run was masked. |
| GpuLeases.EndedLeasesGiveBackEverything | src/exp_scheduler_app/database.py:1649-1674 | After an unmasked run the schedulable set is that of the run without leases less the GPUs leased now, and exactly that set once every lease has ended. |
| GpuLeases.LeaseDelaysRestore | src/exp_scheduler_app/scheduler.py:1305-1309 | A GPU due for restoring but leased at that moment stays switched off, also after every lease has ended. |
| GpuLeases.LeaseResetsTheWait | src/exp_scheduler_app/scheduler.py:1422-1441 | A lease that comes and goes during the wait: none is active at the restore, yet the GPU, idle for the limit, stays switched off, where without the lease it is switched on. |
| GpuLeases.LeaseExample | src/exp_scheduler_app/scheduler.py:1422-1441 | One such run in numbers: observe at 0, lease, observe at 5, release, restore at 10 with limit 10. |
| GpuPolicy.IdleSinceMeans | src/exp_scheduler_app/scheduler.py:1409-1442 | Over any run a recorded start is the time of an observation since which every observation saw the GPU switched off, unleased and idle. |
| GpuPolicy.RestoreNeedsUnbrokenWait | src/exp_scheduler_app/scheduler.py:1291-1330 | A GPU is restored only if every observation since one at least the limit earlier, and this one, saw it switched off, unleased and idle. |
| GpuEntries.RestoreIsExact | src/exp_scheduler_app/scheduler.py:1291-1330 | A GPU is restored if and only if this observation sees it switched off, unleased and idle with restoring on, and so has every observation since one at least the limit earlier (observations in order of time). |
| GpuEntries.SeenWaitingMeans | src/exp_scheduler_app/scheduler.py:1409-1442 | What such an observation sees, said on limit, allowlist, leases and entry. |
| GpuEntries.EntriesWaitForTheirTime | src/exp_scheduler_app/scheduler.py:1234-1270 | Over any run a timed entry is stored exactly if it was set and since then not replaced, cleared or found due: it fires once, and future entries stay. |
| GpuEntries.DueEntriesSwitch | src/exp_scheduler_app/scheduler.py:1234-1270 | A known GPU with a due entry is allowed afterwards exactly if the entry says so, every other stays as it was; leases, limit and idle times are left alone. |
| GpuEntries.FullListIsNoList | src/exp_scheduler_app/scheduler.py:1264-1268 | A list that would name every known GPU is stored as no list, so that GPUs seen later are allowed too. |
| GpuEntries.FullRestoreIsNoList | src/exp_scheduler_app/scheduler.py:1291-1330 | So it is when GPUs are restored. |
| GpuEntries.ListIsSet | src/exp_scheduler_app/scheduler.py:2691-2704 | Setting the allowlist sets the schedulable set, leases aside; entries, observations and the limit do not touch it. |
| TerminalDecode.Stream.Decode | frontend/src/App.tsx:3581-3634 | The chunk loop, which looks one byte ahead of every CR, equals the byte-at-a-time machine that holds a CR back, in output and in final state. |
| TerminalDecode.ChunkingDoesNotMatter | frontend/src/App.tsx:3581-3634 | For every byte string, every cut of it and every column count, decoding the pieces in order gives the output and state of decoding the whole. |
| TerminalDecode.Stream.PushEraseWrappedLine | frontend/src/App.tsx:3526-3531 | The loop emits the erase sequence of the given number of rows. |
| TerminalErase.LinePrints | frontend/src/App.tsx:3533-3579 | For a line of single-cell characters and complete colour and title sequences, from any column, the tracked width is the cell count, and the screen has wrapped to match. |
| TerminalErase.RowCountIsRows | frontend/src/App.tsx:3520-3524 | The computed row count is the number of rows the line occupies exactly if, begun in its column, it needs no row more than in column 0; otherwise it is one too few. |
| TerminalErase.LoneCrEraseIsRight | frontend/src/App.tsx:3626-3629 | The emitted bytes (CUU and EL, sections 8.3.22 and 8.3.41 of ECMA-48) bring the cursor to column 0 of the line's first row if and only if that row is still visible and the line fits so (always, from column 0), and then clear exactly the rows of the line. |
| TerminalErase.StillVisible | frontend/src/App.tsx:3520-3531 | The first row is still visible exactly when the line has no more rows than the screen. |
| TerminalLines.WithoutCrPasses | frontend/src/App.tsx:3608-3614 | Bytes other than CR pass through the decoder. |
| TerminalLines.CrLfPasses | frontend/src/App.tsx:3620-3625 | CR LF passes through and begins a fresh line. |
| TerminalLines.LoneCrIsReplaced | frontend/src/App.tsx:3626-3630 | A CR that something other than LF follows is replaced by the erase of the line so far. |
| TerminalLines.OverwrittenLinesLeaveNoTrace | frontend/src/App.tsx:3581-3634 | For every stream of lines, some ended by CR LF and some by a lone CR, none taller than the screen: the decoded stream shows the same cells and cursor as if the lines ended by a lone CR had never been sent. |
| TerminalLines.LineBegins | frontend/src/App.tsx:3570-3571 | After CR LF a line begins in column 0, after LF alone in the column of the cursor; the tracked width begins at 0 either way. |
| TerminalLines.EraseAfterLineFeed | frontend/src/App.tsx:3570-3571 | So after a lone LF the erase is right exactly while the first row is visible and the line, begun in that column, needs no row more than in column 0. |
| TerminalLines.WidthIsTracked | frontend/src/App.tsx:3569-3578 | For any line of characters, colour and title sequences, tabs and backspaces the tracked width counts 1, 0, 4 and -1 (never below 0). |
| TerminalLines.AnyEraseIsExact | frontend/src/App.tsx:3526-3531 | The erase of any such line returns to its first row exactly if that row is visible and as many rows are counted as occupied, or more with nothing above. |
| TerminalLines.OneRowErase | frontend/src/App.tsx:3520-3531 | A line that stays in one row is erased rightly exactly if its tracked width is at most the number of columns, or its row is the top one. |
| TerminalLines.TabsEraseTooMuch | frontend/src/App.tsx:3572-3573 | Tabs never leave the row but count four columns each, so on every screen enough of them below the top row make the erase climb too far. |
| Utf8.EncodingIsShortest | frontend/src/App.tsx:7108-7111 | The encoding follows the table of section 3 of RFC 3629: its length and the range of its lead byte for each range of characters, and the value its bytes stand for. |
| Utf8.DecodeInvertsEncode | frontend/src/App.tsx:7111-7126 | Decoding the encoding of a text gives the text back, for every sequence of scalar values. |
| Utf8.EncodeInvertsDecode | frontend/src/App.tsx:7111-7126 | Encoding the decoding of valid UTF-8 gives the bytes back. |
| Utf8.CutPointAhead | frontend/src/App.tsx:6344-6347 | Within 4 bytes after a cut point of valid UTF-8 there is another one, so the fallback branch is not taken. |
| Utf8.CutIsValid | frontend/src/App.tsx:6338-6356 | The bytes between two cut points of valid UTF-8 (section 3 of RFC 3629) are valid UTF-8. |
| Utf8.SplitUtf8Chunks | frontend/src/App.tsx:6338-6356 | Ends for every input; the chunks join to it and each has 1 to limit bytes; for valid UTF-8 and a limit of at least 4 each is valid UTF-8, and all but the last are within 3 bytes of the limit. |
| InputPump.DecodedChunks | frontend/src/App.tsx:7122-7125 | Decoding unsent chunks and joining the texts gives their bytes back if and only if no chunk starts with a byte-order mark. |
| InputPump.FailureIsExact | frontend/src/App.tsx:7120-7128 | Putting unsent chunks back into the pending text conserves the input under that condition and only then. |
| InputPump.FailureCanLoseAMark | frontend/src/App.tsx:7120-7128 | The failing input: a byte-order mark typed on its own whose first post fails is lost. |
| InputPump.ChunksOfText | frontend/src/App.tsx:7111-7126 | The chunks cut from a text decode to characters of that text only, so a text without a byte-order mark gives no chunk that starts with one. |
| InputPump.InputQueue.EnqueueInput | frontend/src/App.tsx:7140-7150 | Typing posts at once, with everything pending, unless a post is in flight; then the text waits behind it. Accepted bytes, then unsent chunks, then pending text stay equal to everything typed, in order, with at most one post outstanding. |
| InputPump.InputQueue.SendSucceeded | frontend/src/App.tsx:7107-7119 | A successful post accepts exactly the first unsent chunk, and the next chunk or the pending text is posted, so a post is outstanding until nothing is left; the input is conserved. |
| InputPump.InputQueue.SendFailed | frontend/src/App.tsx:7120-7137 | A failed post conserves the input if and only if no unsent chunk starts with a byte-order mark. `Valid`, which every method keeps, holds the conservation for every history in which no byte-order mark has been typed, failed posts included, and says that typed text is without a post only after a failed one. |
| InputPump.InputQueue.PumpInput | frontend/src/App.tsx:7097-7138 | With every post succeeding, after at most one post for each byte waiting, everything typed has been accepted and nothing is left. |
| BackupSchedule.DailyIsLeast | src/exp_scheduler_app/backup.py:252-264 | The daily next run is the least instant strictly after now at that hour and minute. |
| BackupSchedule.WeeklyIsLeast | src/exp_scheduler_app/backup.py:265-276 | The weekly next run is the least slot strictly after now, for weekday 0..6 (and -7..-1). |
| BackupSchedule.WeeklyIsExact | src/exp_scheduler_app/backup.py:265-276 | The service's edit takes any weekday: the result is the least slot for every now if and only if the weekday is in -7..6, or is 7 at 00:00. |
| BackupJobs.LastWrite | src/exp_scheduler_app/backup.py:187-207 | Over any history of calls, the next run stored for an automatic job is the one computed for its current schedule by some call, and the job has not fired since. |
| BackupJobs.StoredNextRunIsSlot | src/exp_scheduler_app/backup.py:252-289 | So for a weekday in -7..6 it is the least slot of the current schedule after that call. |
| BackupJobs.SlotBetweenRuns | src/exp_scheduler_app/backup.py:301-324 | Over any history with a clock that never goes back, edits, deletions, manual runs and restarts included: between any two automatic runs of one job lies an instant of the schedule it has at the later one. |
| BackupJobs.SlotsSeparateIsExact | src/exp_scheduler_app/backup.py:265-276 | The bound on the weekday is exact: a slot passes between computing a next run and its coming due, whenever that is, if and only if the schedule is daily or its weekday is at least -7. |
| BackupJobs.RunsTwiceInAMinute | src/exp_scheduler_app/backup.py:301-324 | The failing histories: for every weekday of -8 or less, a job edited to it fires at two checks a minute apart with no slot in between. |
| BackupSettings.SettingsAreThoseGiven | src/exp_scheduler_app/backup.py:110-210 | Over any history each setting of a job is the one given last by a call that was not refused. |
| BackupSettings.StartedAsGiven | src/exp_scheduler_app/backup.py:301-324 | What a check starts is enabled and not manual by the settings given last, and was due at an instant with the hour and minute given last, and on the weekday given last if weekly. |
| BackupSettings.StartedExactlyWhenDue | src/exp_scheduler_app/backup.py:301-324 | A check starts an enabled, not manual job that is not held back if and only if an instant of its schedule lies after the call that last computed its next run and not after the check; it is then marked as run now and gets its next instant, and otherwise stays as it is. |
| BackupJobs.Service.CreateJob | src/exp_scheduler_app/backup.py:110-164 | Which clock, weekday or key error is reported, and otherwise a stored next run that is the least slot after now. |
| BackupJobs.Service.UpdateJob | src/exp_scheduler_app/backup.py:166-210 | Exactly the edited job with the next run of its new schedule, the old one if it is not automatic, or an error and no change. |
| BackupJobs.Service.DeleteJob | src/exp_scheduler_app/backup.py:212-219 | Removes exactly that job, and says whether it was there. |
| BackupJobs.Service.TriggerRun | src/exp_scheduler_app/backup.py:221-226 | A run started by hand leaves every next run alone. |
| BackupJobs.Service.ComputeNextRuns | src/exp_scheduler_app/backup.py:278-289 | The startup loop recomputes exactly the automatic jobs. |
| BackupJobs.Service.ExecuteBackup | src/exp_scheduler_app/backup.py:336-363 | An automatic run moves the next run of the job just read to its next slot; a manual one leaves it alone. |
| BackupJobs.Service.CheckSchedules | src/exp_scheduler_app/backup.py:301-324 | The loop starts exactly the due jobs not held back by a running process and leaves all others as they were. |

## Left out

- Processes, pseudo-terminals, signals, the stop ladder, log files and nvidia-smi parsing: their outcomes are inputs.
- SQLite, JSON columns and schema migration: tables are maps and sets, a failed transaction restores them.
- Columns with no bearing on the properties: names, commands, paths, pids, exit codes, end times, notes, log paths.
- Profiles, operation logs, metadata edits, settings formatting and validation: record keeping.
- asyncio below the steps named under Assumptions, and the sleep and wake-up of the scheduler loop.
- GPU schedule entries and lease rows that do not parse: the model's tables hold parsed values.
- React rendering, event streams, the xterm library and base64: the screen is a cursor-and-rows model.
- Double-width characters and unfinished escape sequences in the erase theorems: the tracker counts a wide character as 1, so the claims are not made for them. The decoder results cover all bytes.
- TextDecoder on malformed bytes: unsent chunks are valid UTF-8, so that branch of `Utf8.Decode` is never observed.
- rsync commands and runs, backup names and paths, backup run records.
- nodes, interactive terminals, file browser, conda inventory, profile discovery, command line, configuration and events modules: plumbing.
- TaskStore.Database.PreemptRunningTask: keeps the invariant only for the normal queue, because the method would write a queued status with the staged queue name; the service never asks for that.
- TaskStore.Database.FinishTask: keeps the invariant only for a running task and a final status, because the method has no status guard; watchers call it in no other way.
- TaskStore.Database.MarkTaskRunning: keeps the invariant only for a queued task, because the method writes an attempt row for any other status too; the launcher calls it in no other way.
- BackupJobs.Service.CheckSchedules: which jobs are held back is an input, because in the source a running backup process of any job holds back every job (backup.py:326-334) and processes may end during the check.
- BackupJobs.SlotBetweenRuns: requires a weekday of at least -7 in the schedule of the later run; `SlotsSeparateIsExact` shows that no smaller weekday will do.
