# Pueue, modelled and verified

Pueue is a daemon that queues shell commands and runs them in groups with a limited number of
slots. This project models its state machine in Dafny and proves what the daemon relies on:
the dependency index it maintains by hand, the cycle check, removal, switching, the scheduler,
the worker pools, and what all of them together keep over whole runs. Three self-contained
parts of the program are modelled beside it: the message framing of the socket protocol, the
backward scan for the last lines of a log file, and the parser for task ids on the command line.

`dafny verify dfyconfig.toml` checks everything.

## How the model is laid out

Everything behind the daemon's mutex is the class `Tasks.InternalState`: the task map, the
groups, the worker pools and the shutdown flag. A command handler or a step of the main loop
is a method that updates its fields the way the program does, proved against a function of the
old state; the lemmas are about those functions. The program holds the mutex for a whole
command and for a whole turn of the loop, so each is one atomic event of the state machine in
`Runs`, and `Daemon.Handle` proves that running the handlers in any orderly state is exactly the
state machine. What the daemon does not decide is a parameter: how and when children end, which
commands fail to spawn, which delays have passed, which children ignore a signal.

| module | content |
|---|---|
| `Lists`, `Tasks` | id lists, records, status predicates, the shared state |
| `DependencyGraph`, `ReverseIndex`, `IndexLists` | edges, index agreement, acyclicity; rebuilding the index; sets against sorted vectors |
| `RemovalCheck`, `Removal`, `Archive` | the recursive removability check; `remove`, `clean`; the client's archive loop |
| `AddTask`, `CycleCheck`, `Edit` | `add`; the depth-first search; locking, editing, restoring |
| `Switch`, `Reverse` | swapping against relabelling; reversal built on it |
| `Scheduler`, `SpawnOrder`, `TaskLoop`, `PoolAgreement`, `FailurePause`, `ResetMark`, `Drain` | picking and starting, what a run of it starts, one turn of the loop, pools against statuses, pausing on failure, reset marks, progress and confluence |
| `Handlers`, `ForcedStart`, `Restore` | the other commands; what starting named tasks comes to; repairing a saved state |
| `Runs`, `Safety`, `Daemon`, `Outcomes` | events and invariants; whole runs; handlers refine events; what each command does to single records |
| `Framing`, `LogSeek`, `Text`, `TaskIdsParser` | the self-contained parts |

Dependency and dependent lists are sets in the records. Beyond searching a list, the daemon uses the order of
`dependencies` only to pick which of several cycles an error message reports, and the order of `dependents`,
which it keeps sorted, in the removability check: that goes through them in ascending order up to the first
refusal, and so does the model. `IndexLists` proves that each vector operation on a `dependents` list is the
set operation used in the model, on the sorted vector of the set.

## Where a promise fails, and exactly when it holds

* **Switch.** The daemon updates the lists of other tasks after both tasks were put back under
  exchanged keys. The result is the intended relabelling if and only if neither task directly
  depends on the other (`Switch.SwapRefinesIff`); across an edge a task ends up depending on
  itself (`Switch.SwapAcrossEdgeBreaks`). For a whole request of disjoint pairs, reversals among
  them, the same holds of the graph before the request (`Reverse.DisjointSwitchIff`).
* **Edit.** Every item of a batch is validated against the graph before the batch. For one item
  that is exact (`Edit.SingleEditAcyclicIff`). Two items can close a cycle together
  (`Edit.MutualEditsAreAccepted`). A batch is harmless if and only if no edited task feeds itself
  in a circle, read off the request and the old graph (`Edit.BatchAcyclicIff`). A batch that names
  a task twice fails half way (`Edit.RepeatedIdEndsBatch`).
* **Add.** The id of a removed last task is reused. The index stays right if and only if no
  survivor depends on the fresh id and only wanted dependencies list it already
  (`AddTask.AddKeepsAgreeIff`), and the graph stays acyclic if and only if no requested dependency
  leads to the fresh id (`AddTask.AddKeepsAcyclicIff`); both can fail
  (`AddTask.ReusedIdBreaksIndex`, `AddTask.ReusedIdClosesCycle`).
* **Remove.** The check of a task recurses through unfinished dependants that are to be deleted too. It
  accepts exactly the tasks of which everyone who waits is listed and from which no circle is in sight
  (`RemovalCheck.AcceptedIffFine`), and it ends for exactly these and for the tasks from which the least
  dependant that is not fine, taken again and again, leads to a refusal (`RemovalCheck.CheckEndsIff`). A request
  is answered if and only if each of its tasks gets an answer against the list of its moment
  (`Removal.RemoveEndsIff`); without a circle all are, and with one it can depend on ids and on the order
  of the request (`Removal.OrderDecidesWhetherItEnds`). Two accepted edits lead to a request that is never
  answered (`Daemon.AcceptedEditsCanHangRemoval`).
* **Archive.** The daemon answers the removal request that ends an archive run and accepts everything
  archived if and only if no source names a copy as a dependant, its index names no other unfinished
  dependant outside of the sources, and no circle of unfinished dependants runs among them
  (`Archive.ArchivedTasksAreRemovableIff`). Two tasks that wait for each other are archived and then hang the
  daemon (`Archive.MutualWaitHangsArchive`).
* **Pause.** Naming a running and a missing task panics, and nothing else does
  (`Handlers.Pause`, `Daemon.Handle`).
* **Restart in place.** A finished task may have lost a dependency; reviving it breaks the
  promise that waiting tasks have all their dependencies, and exactly that does
  (`Safety.RestartKeepsLiveIff`, counterexample `Safety.RestartedTaskMayRunUncovered`).
* **Last lines of a log.** For an amount of zero and a file ending in a newline the cursor is
  not moved to the end; in all other cases it is placed right (`LogSeek.SeekToLastLines`).
* **Reset.** A failure, that is an error code or an i/o error but not a kill, overwrites the status
  of the groups it pauses, and with it a pending reset. A turn empties a group being reset if and
  only if its children have ended and no failure hits it (`FailurePause.ResetEmptiesGroupIff`);
  the mark survives a turn in which children remain if and only if no failure and no failing spawn
  reaches it (`FailurePause.MarkSurvivesTurnIff`). Which commands overwrite it is settled by
  `ResetMark.MarkSurvivesCommandIff`.
* **Stepped id ranges.** The loop is right if and only if the first number beyond the end of the
  range still fits a machine word (`TaskIdsParser.StepThrough`); a release build, which wraps around, then
  never ends or ends with a wrong set (`TaskIdsParser.ReleaseLoopRightIff`).

## Where the code and its documentation differ

The model follows the code.

* The comment above `get_next_task_id` asks for dependencies that are done
  (pueue/src/daemon/process_handler/spawn.rs:26-31); the code asks for success, and treats
  dependencies that no longer exist as satisfied (lines 82-88).
* The comment above `start` speaks of queued and stashed tasks
  (pueue/src/daemon/process_handler/start.rs:13-17); `spawn_process` refuses stashed tasks and
  accepts locked ones (pueue/src/daemon/process_handler/spawn.rs:120-130).
* The framing comments speak of a length of four bytes (pueue_lib/src/network/protocol.rs:62, 98);
  the code writes and reads eight.
* `remove_group` is said to move tasks to the default group
  (pueue/src/daemon/internal_state/state.rs:140-142); it does not, and its caller refuses to
  remove a group that still has tasks.
* The comment in the log reader promises lines; the scan counts newline characters
  (pueue_lib/src/log.rs:135-140), which differs for a last line without one.

## Model

| member | source | states |
|---|---|---|
| `Drain.EveryTaskGetsDone` | pueue/src/daemon/task_handler.rs:41-63 | From any acyclic state of queued, running and done tasks in running groups, with pause-on-failure off and every child eventually ending, some turn finds every task done, and all later turns do too, for any schedule and any slot limits |
| `Drain.ResultsAreScheduleIndependent` | pueue/src/daemon/task_handler.rs:41-63 | Two such runs from the same tasks, with any finish orders, slot limits and worker placements, give every task that both have finished the same record |
| `Drain.DependencyFailedIff` | pueue/src/daemon/task_handler.rs:151-213 | Once such a run has finished everything, an initially queued task ended as DependencyFailed if and only if one of its dependencies that exist failed |
| `Drain.RunStaysSteady` | pueue/src/daemon/task_handler.rs:41-63 | At every turn of every such run each unfinished task can only end in the result fixed in advance by the initial graph and the fates of the commands, and pools keep agreeing with statuses |
| `Drain.EndingIsProgress` | pueue/src/daemon/process_handler/finish.rs:12-132 | A turn in which a running child ends leaves strictly less work (queued plus unfinished tasks) than before |
| `Drain.IdleIsProgress` | pueue/src/daemon/task_handler.rs:56-59 | A turn with no child running and something unfinished still makes strict progress, so nothing can be stuck |
| `Drain.WorkGoesDown` | pueue/src/daemon/task_handler.rs:41-63 | While anything is unfinished under a fair schedule, some later turn has strictly less work before it |
| `SpawnOrder.SpawnNewTakesFirst` | pueue/src/daemon/process_handler/spawn.rs:18-108 | When spawns succeed, one scheduler run starts in each group exactly the first min(ready, free slots) ready tasks by priority descending and id ascending: all of them for limit 0, none unless the group is running |
| `SpawnOrder.TakenIffFits` | pueue/src/daemon/process_handler/spawn.rs:18-237 | When failing spawns pause nothing, a task is taken if and only if it is ready in a running group and those ready before it that spawn leave a slot; it then runs or has failed to spawn, and every other task is unchanged |
| `SpawnOrder.SpawnNewTakesPrefix` | pueue/src/daemon/process_handler/spawn.rs:18-108 | Under any settings and failures, the tasks that left the queue of a group are a first part of its ready tasks, its pool gained as many children as of them spawned, and nothing leaves the queue of a group that does not run; if the group runs afterwards, nothing ready is left or all slots are taken |
| `SpawnOrder.HigherPriorityFirst` | pueue/src/daemon/process_handler/spawn.rs:92-107 | Within a group no run takes a task and leaves in the queue one of higher priority, or of the same priority and lower id, whose existing dependencies have all succeeded |
| `SpawnOrder.FirstReadyUnique` | pueue/src/daemon/process_handler/spawn.rs:92-107 | That description fits only one set of tasks |
| `SpawnOrder.NothingLeftToStart` | pueue/src/daemon/process_handler/spawn.rs:18-24 | The scheduler stops only when no task is startable any more, whether spawns fail or not |
| `SpawnOrder.SpawnedAllFrame` | pueue/src/daemon/process_handler/spawn.rs:18-24 | A scheduler run changes nothing but the status of queued tasks (to Running or FailedToSpawn), and never overwrites a child in a pool |
| `SpawnOrder.NewWorkersBelowLimit` | pueue/src/daemon/internal_state/children.rs:77-114 | Workers started by the scheduler in a limited group get ids below the limit |
| `Scheduler.GetNextTaskId` | pueue/src/daemon/process_handler/spawn.rs:36-108 | None exactly when nothing is startable; otherwise the startable task that comes before all others by priority and id |
| `Scheduler.SortHasLeastHead` | pueue/src/daemon/process_handler/spawn.rs:92-107 | After the sort by priority and id, the first element precedes all others |
| `Scheduler.LeastFree` | pueue/src/daemon/internal_state/children.rs:77-100 | The worker id is the least natural not among the keys of the pool, and at most the size of the pool |
| `Scheduler.GetNextGroupWorker` | pueue/src/daemon/internal_state/children.rs:77-100 | The linear scan over the sorted keys of a pool computes that least free id |
| `Scheduler.SpawnProcess` | pueue/src/daemon/process_handler/spawn.rs:112-237 | Starting a task as written: queued and locked tasks only; on failure FailedToSpawn plus pause-on-failure, otherwise a child under the least free worker id and status Running |
| `Scheduler.StartConsumesQueued` | pueue/src/daemon/process_handler/spawn.rs:18-24 | Each round of the scheduler loop takes exactly the picked task out of the queue, so the loop ends |
| `Scheduler.SpawnNew` | pueue/src/daemon/process_handler/spawn.rs:18-24 | The loop of picks and spawns ends in the state the specification function gives |
| `TaskLoop.HandleFinishedTasks` | pueue/src/daemon/process_handler/finish.rs:12-132 | Clears away the ended children one by one in any order; the result is every one of them done with the result of its exit, its worker freed, and groups paused after failures as configured |
| `TaskLoop.HandleFinished` | pueue/src/daemon/process_handler/finish.rs:21-129 | One ended child: the lookups that would panic succeed, i/o errors become Errored, code 0 Success, other codes Failed, a signal Killed; errors and failures may pause groups, kills do not |
| `FailurePause.ExitDecidesResult` | pueue/src/daemon/process_handler/finish.rs:61-100 | After the finish step a task whose child has ended is Killed, Errored, Success or Failed(c) if and only if the child was ended by a signal, lost to an i/o error, left with code 0, or left with the code c other than 0; nothing else of it changes, and no other task does |
| `TaskLoop.FinishOneMore` | pueue/src/daemon/process_handler/finish.rs:21-129 | Clearing one more child extends the set of cleared ones, whatever was cleared before |
| `TaskLoop.HandleGroupResets` | pueue/src/daemon/task_handler.rs:100-122 | Groups marked for reset without children lose their tasks and run again; all others keep everything |
| `TaskLoop.EnqueueDelayedTasks` | pueue/src/daemon/task_handler.rs:126-147 | Exactly the delayed tasks whose time has come are queued |
| `TaskLoop.CheckFailedDependencies` | pueue/src/daemon/task_handler.rs:151-213 | Exactly the queued tasks with a known failed dependency, outside paused groups, become DependencyFailed |
| `TaskLoop.RunTurn` | pueue/src/daemon/task_handler.rs:41-63 | A turn is the composition of its five steps, and none of their unchecked lookups fails when children are known |
| `FailurePause.FailureStopsItsGroup` | pueue/src/daemon/process_handler/finish.rs:61-118 | Under `pause_group_on_failure`, the turn that notices a failed child leaves its group paused and changes no waiting or finished task of it but for delays that are over: nothing is started, no dependant fails, and a pending reset is forgotten |
| `FailurePause.FailureStopsEveryGroup` | pueue/src/daemon/internal_state/state.rs:243-251 | Under `pause_all_on_failure` alone the same holds for every group |
| `FailurePause.MarkSurvivesFinishIff` | pueue/src/daemon/process_handler/finish.rs:61-118 | The finish step keeps the mark of a group being reset if and only if no failure hits the group: one of its own under `pause_group_on_failure`, one anywhere under `pause_all_on_failure` alone |
| `FailurePause.ResetEmptiesGroupIff` | pueue/src/daemon/task_handler.rs:100-122 | A turn empties a group being reset if and only if its children have all ended and no failure hits it; otherwise all its tasks are still there |
| `FailurePause.MarkSurvivesTurnIff` | pueue/src/daemon/task_handler.rs:41-63 | Over a whole turn the mark stays if and only if the group still has children, no failure hits it, and not, under `pause_all_on_failure` alone, some task fails to spawn that is ready and fits in its group once the other steps are done |
| `FailurePause.SpawnFailureSpreadsIff` | pueue/src/daemon/process_handler/spawn.rs:200-218 | The scheduler overwrites the mark if and only if, under `pause_all_on_failure` alone, some task fails to spawn that is ready in a running group and has fewer ready tasks ahead of it than slots are free |
| `FailurePause.ReadyThisTurnIff` | pueue/src/daemon/task_handler.rs:41-63 | A task is ready for the scheduler of a turn if and only if, before the turn, it is queued or its time has come, the turn does not empty its group, and each of its dependencies succeeded, succeeds in this turn, is gone, or goes with its group |
| `FailurePause.DependencyFailsThisTurnIff` | pueue/src/daemon/task_handler.rs:151-213 | A task that was queued, or whose time has come, ends a turn as DependencyFailed if and only if its group is neither paused nor emptied in that turn, and some dependency outside of emptied groups had failed or has a child that ends otherwise than with code 0 |
| `FailurePause.GroupsBeforeSpawns` | pueue/src/daemon/task_handler.rs:100-122 | The steps before the scheduler pause exactly the groups that a failure hits, let exactly the emptied ones run again, and change no other group |
| `FailurePause.SchedulerLeavesPausedGroup` | pueue/src/daemon/process_handler/spawn.rs:55-58 | A scheduler run neither touches a task of a paused group nor resumes the group |
| `ResetMark.MarkSurvivesCommandIff` | pueue/src/daemon/network/message_handler/reset.rs:8-44 | A command keeps the mark of a group being reset if and only if it does not start, pause or kill with upcoming tasks that group or everything, remove the group, or start named tasks of which one fails to spawn with consequences for it |
| `ResetMark.StartIdsKeepsMarkIff` | pueue/src/daemon/process_handler/spawn.rs:200-218 | Starting named tasks keeps the mark if and only if none of them fails to spawn with consequences for the group |
| `PoolAgreement.TurnKeepsPools` | pueue/src/daemon/task_handler.rs:41-63 | A whole turn keeps pools and statuses in agreement |
| `PoolAgreement.FinishKeepsPools` | pueue/src/daemon/process_handler/finish.rs:12-132 | So does clearing any set of ended children |
| `PoolAgreement.FinishedAreRunning` | pueue/src/daemon/process_handler/finish.rs:136-155 | The tasks found finished are exactly the running or paused ones whose child ended |
| `PoolAgreement.SpawnedKeepsPools` | pueue/src/daemon/process_handler/spawn.rs:112-237 | So does starting any task, by the scheduler or by force |
| `PoolAgreement.OneChildPerTask` | pueue/src/daemon/internal_state/children.rs:11-114 | In agreeing states no task has two children anywhere |
| `PoolAgreement.LookupsSucceed` | pueue/src/daemon/process_handler/finish.rs:21-47 | In agreeing states the lookups of the finish step and of the worker pools succeed |
| `Safety.RunsStaySound` | pueue/src/daemon/task_handler.rs:41-63 | Over any sequence of commands and turns that is careful about fresh ids, batch edits and swaps across edges: ids match keys, the index agrees with the dependencies, there is no cycle, pools agree with statuses |
| `Runs.StepKeepsInvariants` | pueue/src/daemon/task_handler.rs:41-63 | Each of the nineteen kinds of events keeps those invariants; without resets it adds no stale index entry, and without in-place restarts it takes no dependency of an unfinished task away |
| `Runs.CarefulIff` | pueue/src/daemon/network/message_handler/edit.rs:103-196 | For an add, an edit batch and a single swap, being careful is exactly what keeps a sound state sound |
| `Runs.SingleOrSafeEditIsCareful` | pueue/src/daemon/network/message_handler/edit.rs:103-147 | A single edit is always careful, and so is a batch that stays clear of its own tasks |
| `Runs.AnyStepKeepsOrder` | pueue/src/daemon/task_handler.rs:41-63 | Whatever the lists hold, no event files a record under a foreign id or makes pools and statuses disagree |
| `Safety.RunsWithoutResets` | pueue/src/daemon/network/message_handler/remove.rs:27-51 | On runs without resets no index entry goes stale; without in-place restarts either, all dependencies of unfinished tasks keep existing |
| `Safety.IndexEqualsRebuild` | pueue/src/daemon/internal_state/state.rs:399-427 | On runs without resets the hand-maintained index is at all times what a rebuild from scratch would yield |
| `Safety.SchedulerRespectsDependencies` | pueue/src/daemon/process_handler/spawn.rs:82-88 | On runs without resets and in-place restarts, a task leaves the queue through the scheduler only if every dependency it lists exists and has succeeded |
| `Safety.StartsAreCovered` | pueue/src/daemon/process_handler/spawn.rs:82-88 | The same for one scheduler run, including failed spawns, from any state whose unfinished tasks have all their dependencies |
| `Safety.RestartKeepsLiveIff` | pueue/src/daemon/network/message_handler/restart.rs:52-78 | An in-place restart keeps all dependencies of unfinished tasks in existence if and only if no finished task it revives has lost one |
| `Safety.RestartedIffListed` | pueue/src/daemon/network/message_handler/restart.rs:52-78 | After an in-place restart a task is finished exactly if it was and is not named; dependencies stay as they were |
| `Safety.RestartedTaskMayRunUncovered` | pueue/src/daemon/network/message_handler/restart.rs:58-70 | A concrete finished task whose dependency is gone becomes startable by a restart |
| `Safety.ReachablePoolsAgree` | pueue/src/daemon/network/message_handler/group.rs:66-89 | After any sequence of events whatever, also careless adds, edits and swaps, there is one pool per group, a task is running or paused exactly when exactly one child carries its id, in the pool of its own group, all lookups of the finish step succeed, and the emergency branches of group removal cannot be taken |
| `Safety.AnyRunStaysOrderly` | pueue/src/daemon/task_handler.rs:41-63 | Keys and ids, and pools and statuses, agree after any sequence of events |
| `Safety.FreshStateIsSound` | pueue/src/daemon/internal_state/state.rs:89-93 | The state of a new daemon satisfies all invariants |
| `Safety.RestoredStateIsSound` | pueue/src/daemon/internal_state/state.rs:334-393 | However the last daemon ended, a restored state is orderly with no stale index entries; it is sound if the saved graph was free of cycles, and keeps the survival of dependencies and the absence of reset marks if the saved state had them |
| `Daemon.Handle` | pueue/src/daemon/task_handler.rs:41-63 | In any orderly state, sound or not, every handler can be called, triggers no emergency shutdown, and yields exactly the state the event semantics predicts; it panics exactly for a pause request that names a running and a missing task. A removal must be one that is answered at all (`Removal.RemoveEndsIff`), which sound states guarantee |
| `Daemon.HandleGraphRequest` | pueue/src/daemon/network/message_handler/edit.rs:95-200 | The same for the seven requests that rewrite tasks through the dependency graph |
| `Daemon.SoundStatesFinish` | pueue/src/daemon/internal_state/state.rs:199-235 | In a sound state every removal request is answered |
| `Daemon.AcceptedEditsCanHangRemoval` | pueue/src/daemon/internal_state/state.rs:199-235 | After two accepted edits the removal check of their tasks, both to be deleted, is over within no depth |
| `DependencyGraph.AcyclicIffNotCircular` | pueue/src/daemon/network/message_handler/edit.rs:10-11 | A dependency graph can be ranked if and only if no chain of dependencies returns to its start |
| `DependencyGraph.SameGraphKeeps` | pueue/src/daemon/internal_state/state.rs:123-128 | Changing statuses, groups, priorities or details of tasks keeps keys, index agreement and acyclicity |
| `ReverseIndex.BuildReverseDependencyIndex` | pueue/src/daemon/internal_state/state.rs:399-427 | The rebuild clears and refills the lists to exactly the existing dependants of each task |
| `ReverseIndex.BuildIndexExact` | pueue/src/daemon/internal_state/state.rs:399-427 | A rebuilt index is exact and changes nothing else |
| `ReverseIndex.ExactIffRebuildIsIdentity` | pueue/src/daemon/internal_state/state.rs:399-427 | An index is exact if and only if rebuilding it changes nothing |
| `IndexLists.PushIsInsertion` | pueue/src/daemon/network/message_handler/add.rs:84-92 | Pushing an absent id and sorting turns the sorted list of a set into the sorted list of the larger set |
| `IndexLists.RetainIsRemoval` | pueue/src/daemon/network/message_handler/remove.rs:41-45 | Retaining all other ids yields the sorted list of the smaller set |
| `IndexLists.RenameIsImage` | pueue/src/daemon/network/message_handler/switch.rs:88-99 | Exchanging two ids element by element and sorting yields the sorted list of the image of the set |
| `IndexLists.SortDedupIsElements` | pueue/src/daemon/network/message_handler/add.rs:65-67 | Sorting and deduplicating a requested list yields the sorted list of its elements |
| `IndexLists.SortIsElements` | pueue/src/daemon/internal_state/state.rs:423-426 | Sorting a list without repetitions yields the sorted list of its elements |
| `Tasks.FilterTaskIds` | pueue_lib/src/state.rs:148-178 | The ids are split into those naming a task that meets the condition and the rest, both in request order |
| `Tasks.InternalState.UpdateTasks` | pueue/src/daemon/network/message_handler/remove.rs:41-45 | A loop of looked-up in-place updates rewrites exactly the named existing tasks |
| `Tasks.InternalState.constructor` | pueue/src/daemon/internal_state/state.rs:89-93 | A new daemon has no tasks and one default group with one slot |
| `RemovalCheck.CheckRemovable` | pueue/src/daemon/internal_state/state.rs:199-235 | The recursion, dependants in ascending order and up to the first refusal, returns the verdict of the check with bounded depth, for any depth that suffices |
| `RemovalCheck.RemovableIffWaitersDeleted` | pueue/src/daemon/internal_state/state.rs:199-235 | Whenever its recursion ends, the check is true if and only if every task reachable through a chain of unfinished dependants is in the deletion list |
| `RemovalCheck.AcceptedIffFine` | pueue/src/daemon/internal_state/state.rs:199-235 | The check ends with true if and only if everyone who waits is in the list and following listed dependants never comes to some task twice |
| `RemovalCheck.RefusedIff` | pueue/src/daemon/internal_state/state.rs:225-234 | It ends with false if and only if going from each task to its least dependant that is not of that kind comes to a task with an unlisted dependant |
| `RemovalCheck.CheckEndsIff` | pueue/src/daemon/internal_state/state.rs:225-234 | It ends if and only if one of the two holds |
| `RemovalCheck.SoundGraphChecksEnd` | pueue/src/daemon/internal_state/state.rs:199-235 | An agreeing index on an acyclic graph is enough for that |
| `RemovalCheck.MutualWaitNeverEnds` | pueue/src/daemon/internal_state/state.rs:225-234 | For two unfinished tasks that are each other's only unfinished dependant, both to be deleted, no depth suffices |
| `Removal.RemoveEndsIff` | pueue/src/daemon/network/message_handler/remove.rs:29-34 | The shrinking filter comes to its end if and only if each requested task gets an answer against what is left of the request before it, which is everything not yet looked at, and whatever no unfinished task outside of the request waits for |
| `Removal.FilterIsGreatest` | pueue/src/daemon/network/message_handler/remove.rs:29-34 | Whenever it ends, it has kept exactly the largest part of the request that is closed under unfinished dependants, in request order |
| `Removal.AllAcceptedIff` | pueue/src/daemon/network/message_handler/remove.rs:29-34 | A request is answered and accepted as a whole if and only if it is closed under unfinished dependants and no circle of them runs inside |
| `Removal.OrderDecidesWhetherItEnds` | pueue/src/daemon/internal_state/state.rs:225-234 | In a graph with a circle and a refused task, the same three tasks are answered or not depending on which dependant has the lower id and on the order in which they are requested |
| `Removal.SoundGraphRequestsEnd` | pueue/src/daemon/network/message_handler/remove.rs:29-34 | With an agreeing index on an acyclic graph every request is answered |
| `Removal.KeepRemovable` | pueue/src/daemon/network/message_handler/remove.rs:29-34 | The loop of the shrinking one-pass filter, on every request that is answered, keeps exactly that largest part; the others are refused |
| `Removal.CheckDecidesMembership` | pueue/src/daemon/network/message_handler/remove.rs:29-34 | Checking against any list between that largest part and the request gives the final verdict, which is why one pass is enough |
| `Removal.GreatestIsClosed` | pueue/src/daemon/network/message_handler/remove.rs:27-34 | That part is closed under unfinished dependants |
| `Removal.GreatestContainsClosed` | pueue/src/daemon/network/message_handler/remove.rs:27-34 | and contains every closed part of the request |
| `Removal.RemovalIgnoresOrder` | pueue/src/daemon/network/message_handler/remove.rs:29-34 | Of two answered requests for the same tasks, in whatever order and with whatever repetitions, the same tasks go |
| `Removal.Remove` | pueue/src/daemon/network/message_handler/remove.rs:12-56 | On every request that is answered, exactly the accepted tasks disappear, and exactly the index entries they had made |
| `Removal.RemoveOutcome` | pueue/src/daemon/network/message_handler/remove.rs:16-48 | A task is gone after an answered request if and only if it was requested, exists and has no process, and the same holds of every task that waits for it; what stays only loses index entries of what is gone |
| `Removal.CleaningHidesNoWaiter` | pueue/src/daemon/network/message_handler/clean.rs:29-31 | Removing finished tasks does not change the verdict on another one |
| `Removal.Clean` | pueue/src/daemon/network/message_handler/clean.rs:23-70 | Whatever the visiting order, exactly the finished tasks without unfinished dependants that the request selects disappear, with their index entries |
| `Removal.CleanOutcome` | pueue/src/daemon/network/message_handler/clean.rs:27-66 | A task is gone after a clean if and only if it was done, every existing task listed to depend on it was done, its result was Success if only those are to go, and its group is the requested one if one was named; what stays only loses index entries of what is gone |
| `Removal.RemovalKeepsGraph` | pueue/src/daemon/network/message_handler/remove.rs:36-48 | Removal keeps keys, index agreement, freedom from stale entries and acyclicity |
| `Removal.RemovalKeepsLive` | pueue/src/daemon/network/message_handler/remove.rs:27-51 | Removing a closed set takes no dependency of an unfinished task away |
| `Removal.AcceptedIsClosed` | pueue/src/daemon/network/message_handler/remove.rs:25-34 | What `remove` accepts is closed in that sense |
| `Removal.CleanedIsClosed` | pueue/src/daemon/network/message_handler/clean.rs:27-70 | and so is what `clean` removes |
| `Archive.ArchivableTasks` | pueue/src/client/commands/archive.rs:45-87 | The client's loop ends with the largest part of the removable candidates that no unfinished task outside of it depends on, going by the forward lists; all other existing candidates are reported blocked |
| `Archive.ArchivableIsRemovable` | pueue/src/client/commands/archive.rs:62-87 | With an agreeing index that is the largest part the daemon's filter can accept |
| `Archive.BlockingIsActiveDependant` | pueue/src/client/commands/archive.rs:181-187 | The forward test is the daemon's reverse test on a rebuilt index, and on the index at hand if that agrees |
| `Archive.CopiesGrow` | pueue/src/client/commands/archive.rs:122-145 | Adding the stashed copies changes no task of the snapshot |
| `Archive.CopiesCarry` | pueue/src/client/commands/archive.rs:122-145 | The i-th copy gets the i-th id after the last one in use and has command, path, label and priority of its source, stashed in the archive group without edges |
| `Archive.CopiesCount` | pueue/src/client/commands/archive.rs:119-148 | and nothing but one copy per source is added |
| `Archive.ArchivedTasksAreRemovableIff` | pueue/src/client/commands/archive.rs:119-148 | The daemon answers the removal request for the archived tasks and accepts all of them if and only if none of them lists the id of a copy, none lists an unfinished task outside of them, and no circle of unfinished dependants runs among them; the second always holds with an agreeing index |
| `Archive.ArchivedTasksAreRemovable` | pueue/src/client/commands/archive.rs:58-148 | With an agreeing index on an acyclic graph, it does so if and only if no archived task lists a copy, which only a leftover of a reset can cause |
| `Archive.MutualWaitHangsArchive` | pueue/src/client/commands/archive.rs:62-148 | Two queued tasks that wait for each other are both archived from an exact index, and the daemon's check of the request to remove them is over within no depth |
| `AddTask.NextId` | pueue/src/daemon/internal_state/state.rs:112-121 | The next id is above all ids in use |
| `AddTask.Add` | pueue/src/daemon/network/message_handler/add.rs:20-107 | Refused without change if and only if the group or a dependency is missing; otherwise the task is filed under the next id, listed under each dependency, and reported |
| `AddTask.AddOutcome` | pueue/src/daemon/network/message_handler/add.rs:37-92 | The record under the answered id has the requested details, group, priority and dependencies and no dependants; it is queued if and only if neither a stash nor a time was asked for, and stashed with that time otherwise; other records only gain the new id under the requested dependencies |
| `AddTask.AddedStartableIff` | pueue/src/daemon/network/message_handler/add.rs:37-55 | The new task is up for the scheduler at once if and only if neither a stash nor a time was asked for, all its dependencies have succeeded, and its group runs with a free slot |
| `AddTask.AddKeepsAgreeIff` | pueue/src/daemon/network/message_handler/add.rs:65-92 | Adding keeps index agreement if and only if no surviving task depends on the fresh id and only wanted dependencies list it already |
| `AddTask.AddKeepsGraph` | pueue/src/daemon/network/message_handler/add.rs:65-92 | Then it also keeps keys, acyclicity, freedom from stale entries, and the dependencies of unfinished tasks |
| `AddTask.ReusedIdBreaksIndex` | pueue/src/daemon/internal_state/state.rs:112-121 | A concrete state in which the reused id of a removed last task breaks agreement |
| `AddTask.AddKeepsAcyclicIff` | pueue/src/daemon/network/message_handler/add.rs:26-34 | An add keeps the graph acyclic if and only if no requested dependency leads, in the old graph, to the id the new task gets |
| `AddTask.ReusedIdClosesCycle` | pueue/src/daemon/internal_state/state.rs:112-121 | A concrete accepted add that closes a cycle through a reused id |
| `CycleCheck.Dfs` | pueue/src/daemon/network/message_handler/edit.rs:20-48 | The search ends on any graph; a hit extends the path to a real dependency chain to the target, a miss leaves everything visited explored without meeting it |
| `CycleCheck.CheckCircularDependency` | pueue/src/daemon/network/message_handler/edit.rs:12-65 | An error if and only if some new dependency leads to the edited task, and the reported path is a real chain from a new dependency to it |
| `CycleCheck.ExploredShields` | pueue/src/daemon/network/message_handler/edit.rs:31-47 | Nothing reachable from a fully explored visited set is the target |
| `Edit.EditRequest` | pueue/src/daemon/network/message_handler/edit.rs:70-91 | Locks tasks in order and stops at the first that is missing or not editable, leaving earlier locks |
| `Edit.EditRestore` | pueue/src/daemon/network/message_handler/edit.rs:203-233 | Unlocks every named locked task and reports whether all were |
| `Edit.LockOutcome` | pueue/src/daemon/network/message_handler/edit.rs:70-91 | A lock request is granted if and only if it names queued or stashed tasks, each once; it then locks exactly these, with their status remembered |
| `Edit.LockStops` | pueue/src/daemon/network/message_handler/edit.rs:70-91 | A refused one leaves locked exactly what it named before the first id that is missing, not waiting, or named again |
| `Edit.UnlockOutcome` | pueue/src/daemon/network/message_handler/edit.rs:203-233 | A restore gives each named locked task the status it had before, changes nothing else, and reports success if and only if it names locked tasks, each once |
| `Edit.RestoreUndoesRequest` | pueue/src/daemon/network/message_handler/edit.rs:202-217 | A granted edit request followed by a restore of the same ids leaves every task as it was |
| `Edit.ValidateItem` | pueue/src/daemon/network/message_handler/edit.rs:104-147 | Accepts an item if and only if its task is locked, all dependencies exist, none is the task itself, and none leads to it |
| `Edit.EditTasks` | pueue/src/daemon/network/message_handler/edit.rs:95-200 | All items are validated against the unedited graph before any is applied; a refused batch changes nothing |
| `Edit.EditedRecords` | pueue/src/daemon/network/message_handler/edit.rs:160-194 | An edit moves exactly the index entries of the edited task and touches nothing else of other tasks |
| `Edit.EditKeepsGraph` | pueue/src/daemon/network/message_handler/edit.rs:150-196 | An edit keeps agreement, keys, freedom from stale entries, and existing dependencies |
| `Edit.SingleEditAcyclicIff` | pueue/src/daemon/network/message_handler/edit.rs:103-147 | For a single item the two graph tests pass if and only if the edited graph is still acyclic |
| `Edit.BatchAcyclicIff` | pueue/src/daemon/network/message_handler/edit.rs:103-196 | A batch keeps the graph acyclic if and only if no edited task feeds itself in a circle, where one feeds another if a new dependency is it, or leads to it in the old graph past unedited tasks; only the items before a repeated id count |
| `Edit.BatchOutcome` | pueue/src/daemon/network/message_handler/edit.rs:149-196 | A batch of locked tasks with distinct ids goes through; each edited task has the details, priority and dependencies that its item asks for, its old status, id and group; every other record keeps everything but its index |
| `Edit.AnyBatchOutcome` | pueue/src/daemon/network/message_handler/edit.rs:149-196 | Any accepted batch, with repetitions or not, does that for its items up to the first repetition, and succeeds if and only if there is none |
| `Edit.RepeatedIdEndsBatch` | pueue/src/daemon/network/message_handler/edit.rs:151-158 | A validated batch that names a task twice ends with a failure at the second naming, and what was applied before stays |
| `Edit.SafeBatchKeepsAcyclic` | pueue/src/daemon/network/message_handler/edit.rs:103-196 | A batch none of whose new dependencies is, or leads to, a task of the batch keeps the graph acyclic |
| `Edit.SingleAcceptedIsSafe` | pueue/src/daemon/network/message_handler/edit.rs:103-147 | An accepted batch of one meets that condition |
| `Edit.MutualEditsAreAccepted` | pueue/src/daemon/network/message_handler/edit.rs:103-147 | Two edits that make two tasks wait for each other are accepted, applied, and close a cycle |
| `Edit.MutualEditsCloseCycle` | pueue/src/daemon/network/message_handler/edit.rs:149-196 | Whatever else the graph holds, applying two such edits closes a cycle |
| `Edit.BatchKeepsGraph` | pueue/src/daemon/network/message_handler/edit.rs:149-196 | Any batch keeps keys, index agreement and freedom from stale entries |
| `Switch.SwapRefinesIff` | pueue/src/daemon/network/message_handler/switch.rs:56-114 | On an acyclic graph with an agreeing index, the swap over the symmetric difference equals renaming the two ids everywhere if and only if neither task directly depends on the other |
| `Switch.SwapAcrossEdgeBreaks` | pueue/src/daemon/network/message_handler/switch.rs:82-114 | A swap across a direct edge always leaves a task depending on itself |
| `Switch.EveryStepRelabelsIff` | pueue/src/daemon/network/message_handler/switch.rs:49-115 | Throughout a request every swap is a renaming if and only if no pair has a direct edge when it is swapped |
| `Switch.SwitchRefinesRelabelling` | pueue/src/daemon/network/message_handler/switch.rs:49-115 | An edge-free request sends every task to its place under the composed transpositions, with key, id, dependencies and dependents renamed |
| `Switch.PermutedInjective` | pueue/src/daemon/network/message_handler/switch.rs:50-54 | The composed transpositions never send two ids to one |
| `Switch.SwapPairsKeepsGraph` | pueue/src/daemon/network/message_handler/switch.rs:49-115 | An edge-free request keeps the key set, keys, agreement, acyclicity, freedom from stale entries and existing dependencies |
| `Switch.SwapKeepsGraph` | pueue/src/daemon/network/message_handler/switch.rs:56-114 | The same for one swap |
| `Switch.SwapKeepsKeys` | pueue/src/daemon/network/message_handler/switch.rs:56-84 | Key set and keying survive any swap, so the unwrapped removals never fail |
| `Switch.SwitchPair` | pueue/src/daemon/network/message_handler/switch.rs:52-114 | One iteration of the loop: both removals find their task, and the map becomes the swapped one |
| `Switch.SwitchTasks` | pueue/src/daemon/network/message_handler/switch.rs:11-125 | Accepted exactly for equally long non-empty lists of queued or stashed tasks; refusal changes nothing, acceptance performs the swaps in order |
| `Reverse.ReverseRequest` | pueue/src/client/commands/reverse.rs:10-41 | The client pairs position i with position n-1-i, skipping the middle |
| `Reverse.ReverseReverses` | pueue/src/client/commands/reverse.rs:19-30 | For distinct ids without a direct edge inside a pair, the reversal puts the task of position i at position n-1-i, renamed throughout, and leaves all others in place |
| `Reverse.ReverseReversesIff` | pueue/src/client/commands/reverse.rs:19-30 | A reversal of distinct existing ids is the composed renaming if and only if it pairs no task with a direct dependency of it |
| `Reverse.ReverseTwiceRestores` | pueue/src/client/commands/reverse.rs:19-30 | Applied twice it restores every task |
| `Reverse.SwitchTwiceRestores` | pueue/src/daemon/network/message_handler/switch.rs:49-115 | So does any disjoint edge-free switch request |
| `Reverse.DisjointIsEdgeFree` | pueue/src/daemon/network/message_handler/switch.rs:50-115 | For disjoint pairs it is enough that no pair has a direct edge before the first swap |
| `Reverse.DisjointSwitchIff` | pueue/src/daemon/network/message_handler/switch.rs:50-115 | A whole request of disjoint pairs is the composed renaming if and only if the graph before it has no direct edge inside a pair |
| `Reverse.LaterSwapUndoes` | pueue/src/daemon/network/message_handler/switch.rs:50-115 | A concrete request with overlapping pairs whose later swaps undo the damage of the first |
| `Restore.RestoreState` | pueue/src/daemon/internal_state/state.rs:334-393 | The repair loop, in any order, repairs every task and group, and the index is rebuilt |
| `Restore.RestoreRepairs` | pueue/src/daemon/internal_state/state.rs:334-393 | Afterwards nothing is running, paused or locked, every group of a task exists, groups with queued tasks are paused, the index is exact, and the scheduler finds nothing to start |
| `Restore.RestoreOutcome` | pueue/src/daemon/internal_state/state.rs:334-372 | A task that was running or paused comes back as killed, a locked one stashed without a time, any other with its status; one of an unknown group sits in the default group; details, priority, id and dependencies are those saved, and the index is exact |
| `Restore.RestoredGroups` | pueue/src/daemon/internal_state/state.rs:358-385 | Exactly the groups that queued tasks end up in are paused, all other records stay, and the default group is created, with one slot, if and only if it is missing and some task needs it |
| `Restore.InterruptedBlocksDependants` | pueue/src/daemon/internal_state/state.rs:336-353 | A dependant of a task that was running or paused has a failed dependency after a restore and is not ready |
| `Restore.RestoreKeeps` | pueue/src/daemon/internal_state/state.rs:334-386 | Finished, queued and stashed tasks of known groups come back unchanged, and so do all dependencies |
| `Restore.RestoredPoolsAgree` | pueue/src/daemon/task_handler.rs:31-39 | The pools set up before the first turn agree with the restored statuses |
| `Handlers.Start` | pueue/src/daemon/process_handler/start.rs:18-110 | Force-starts or resumes named tasks in order, resumes a group or everything; named tasks only if one of them qualifies |
| `Handlers.StartNamed` | pueue/src/daemon/process_handler/start.rs:18-35 | The same for named tasks without that condition, as a restart or an add with an immediate start does it |
| `ForcedStart.StartIdsOutcome` | pueue/src/daemon/process_handler/start.rs:18-35 | Whatever order and repetitions, a named queued or locked task ends up running or failed to spawn, a paused one resumed if it can be signalled, and nothing else changes |
| `ForcedStart.LockedOnlyDiffers` | pueue/src/daemon/network/message_handler/restart.rs:39-42 | Naming only a locked task: the start command refuses, an immediate start runs it |
| `Handlers.Pause` | pueue/src/daemon/process_handler/pause.rs:13-69 | Pauses named tasks, a group or everything; with `wait` only group statuses change. It panics if and only if, without `wait`, named ids include a running task and a missing one; what was named before the missing one is then paused |
| `Handlers.PauseOfMissingTask` | pueue/src/daemon/process_handler/pause.rs:46-49 | A concrete request that panics, and one with only a missing task that is refused |
| `Handlers.Stash` | pueue/src/daemon/network/message_handler/stash.rs:11-57 | Exactly the selected queued and locked tasks are stashed |
| `Handlers.Enqueue` | pueue/src/daemon/network/message_handler/enqueue.rs:11-68 | Exactly the selected stashed and locked tasks are queued, or get their time |
| `Handlers.Kill` | pueue/src/daemon/process_handler/kill.rs:27-85 | A kill pauses its group if tasks are upcoming there, or all groups if tasks are upcoming anywhere |
| `Handlers.SetParallelTasks` | pueue/src/daemon/network/message_handler/parallel.rs:6-20 | The limit of an existing group is replaced |
| `Handlers.Restart` | pueue/src/daemon/network/message_handler/restart.rs:52-78 | Each named finished task is requeued or stashed with its edited fields; others are left alone |
| `Handlers.RestartOutcome` | pueue/src/daemon/network/message_handler/restart.rs:52-78 | A finished task takes details and priority from the first item that names it and is stashed without a time if the request says so, queued otherwise; its id, group and edges stay; an unfinished task keeps its record |
| `Handlers.RestartLeaves` | pueue/src/daemon/network/message_handler/restart.rs:52-60 | So does every task that is unfinished or not named |
| `Handlers.AddGroup` | pueue/src/daemon/network/message_handler/group.rs:32-51 | A new group and its empty pool appear together, or neither does |
| `Handlers.RemoveGroup` | pueue/src/daemon/network/message_handler/group.rs:52-95 | Group and pool disappear together; the emergency branches are taken exactly when the pool is missing or not empty |
| `Handlers.ResetGroups` | pueue/src/daemon/network/message_handler/reset.rs:8-44 | All requested groups are marked if they all exist; otherwise none is and the request fails |
| `Outcomes.StashOutcome` | pueue/src/daemon/network/message_handler/stash.rs:11-57 | A selected task that is queued or locked is stashed with the given time; nothing else changes |
| `Outcomes.EnqueueOutcome` | pueue/src/daemon/network/message_handler/enqueue.rs:11-68 | A selected task that is stashed or locked is queued, or stashed until the given time; nothing else changes |
| `Outcomes.StartGroupsOutcome` | pueue/src/daemon/process_handler/start.rs:38-69 | Starting a group or everything sets the groups running and resumes their paused tasks that can be signalled; nothing else changes |
| `Outcomes.StartNamedOutcome` | pueue/src/daemon/network/message_handler/start.rs:7-42 | Starting named tasks is refused unless one of them is paused, queued or stashed, or none is named; it then runs the queued and locked ones or fails to, resumes the paused ones that can be signalled, and changes no other task |
| `Outcomes.PauseGroupsOutcome` | pueue/src/daemon/process_handler/pause.rs:16-66 | Pausing a group or everything pauses the groups and, unless it is to wait, their running tasks that can be signalled; nothing else changes |
| `Outcomes.PauseNamedOutcome` | pueue/src/daemon/process_handler/pause.rs:43-66 | Pausing named tasks pauses those before the first unknown name that run and can be signalled, unless it is to wait; nothing else changes |
| `Outcomes.PausePanicsIff` | pueue/src/daemon/process_handler/pause.rs:43-49 | The unchecked lookup fails if and only if, without waiting, one named task runs and another name stands for no task |
| `Outcomes.KillOutcome` | pueue/src/daemon/process_handler/kill.rs:27-85 | A kill of a group with queued or scheduled tasks pauses it, a kill of everything with such tasks in any group pauses all groups; nothing else changes until children end |
| `Outcomes.ResetOutcome` | pueue/src/daemon/network/message_handler/reset.rs:8-44 | Exactly the requested groups are marked for reset if all of them exist, and none otherwise |
| `Outcomes.GroupAddOutcome` | pueue/src/daemon/network/message_handler/group.rs:32-51 | A new group runs, has one slot unless told otherwise and an empty pool; an existing one keeps its record and pool |
| `Outcomes.GroupRemoveOutcome` | pueue/src/daemon/network/message_handler/group.rs:52-95 | A group and its pool go if and only if it is not the default group and holds no task |
| `Outcomes.ParallelOutcome` | pueue/src/daemon/network/message_handler/parallel.rs:6-20 | The limit of the named group is replaced; nothing else changes |
| `Framing.DecodeEncode` | pueue_lib/src/network/protocol.rs:65-68 | Decoding the eight byte big-endian header gives the length back |
| `Framing.EncodeDecode` | pueue_lib/src/network/protocol.rs:111-112 | and every header is the encoding of the length it decodes to |
| `Framing.EncodeDigits` | pueue_lib/src/network/protocol.rs:65-68 | Byte i of an encoding in k bytes is the base 256 digit for the place k - 1 - i: the most significant comes first |
| `Framing.FrameBytes` | pueue_lib/src/network/protocol.rs:64-89 | A frame is eight such bytes for the length and then the payload, byte by byte |
| `Framing.SendBytes` | pueue_lib/src/network/protocol.rs:64-89 | Header and packets together put exactly one frame on the stream |
| `Framing.ReceiveBytes` | pueue_lib/src/network/protocol.rs:101-163 | Whatever pieces the reads return, the result and the bytes left are those of parsing the bytes to come; too big, lost header and lost payload are told apart; the loop ends |
| `Framing.ParseOneFrame` | pueue_lib/src/network/protocol.rs:132-160 | A receive consumes exactly 8 + length bytes and never touches the next message |
| `Framing.ParseTooBig` | pueue_lib/src/network/protocol.rs:114-121 | A payload over the limit is refused after its header, unread |
| `Framing.ParsedMessageIsFrame` | pueue_lib/src/network/protocol.rs:101-163 | Only a frame within the limit is ever received as a message |
| `Framing.SendAll` | pueue_lib/src/network_blocking/protocol.rs:64-87 | Sending a list of payloads puts their frames on the stream in order |
| `Framing.ReceiveAll` | pueue_lib/src/network_blocking/protocol.rs:99-159 | Receiving as often as there were payloads returns exactly that list and stops right behind the last frame |
| `Framing.Stream.ReadExact` | pueue_lib/src/network/protocol.rs:106-110 | Either the buffer is filled exactly, or the stream ended early and is empty |
| `LogSeek.SeekToLastLines` | pueue_lib/src/log.rs:141-204 | For any chunking, true if and only if the file holds at most `amount` newlines, then with the cursor at the start; otherwise the cursor sits right behind the newline whose suffix holds exactly `amount` newlines if and only if `amount` > 0 or the file does not end in a newline |
| `LogSeek.ScanBlock` | pueue_lib/src/log.rs:173-200 | The scan of one block counts its newlines from the back and stops at the one after the requested amount |
| `LogSeek.LastLinesUnique` | pueue_lib/src/log.rs:135-140 | At most one place in a file qualifies |
| `LogSeek.EndNewlineCounts` | pueue_lib/src/log.rs:190-197 | Before the end of a file that ends in a newline there is always a newline ahead, which is why an amount of 0 misses there |
| `TaskIdsParser.ParseTaskIds` | pueue/src/client/task_ids_parser.rs:30-58 | The ids of all comma-separated parts in strictly increasing order, or the first complaint from the left; blank input and empty parts are fine |
| `TaskIdsParser.ParsesTheNotation` | pueue/src/client/task_ids_parser.rs:10-22 | Parsing succeeds if and only if every piece between commas writes a legal part, and then yields the union of what the parts stand for |
| `TaskIdsParser.ReadsWhatIsWritten` | pueue/src/client/task_ids_parser.rs:39-54 | A piece is read as a part if and only if it writes that part (white space anywhere around numbers, optional plus signs) and the part is legal |
| `TaskIdsParser.WriteThenParse` | pueue/src/client/task_ids_parser.rs:19-29 | Writing any legal parts that fit a machine word and parsing the text gives back exactly their union |
| `TaskIdsParser.ParseRange` | pueue/src/client/task_ids_parser.rs:61-125 | `s:e` stands for all ids from s to e and `s:e:k` for exactly the s + i*k up to e; the errors come in the order of the code |
| `TaskIdsParser.RangeComplaints` | pueue/src/client/task_ids_parser.rs:61-108 | Each complaint about a range is drawn if and only if: it has not two or three fields; the first, then the second, then the third is no number; the step is zero; the start is after the end |
| `TaskIdsParser.StepThrough` | pueue/src/client/task_ids_parser.rs:110-117 | The step loop ends with exactly the terms up to the end if and only if the first term beyond the end fits the machine word; otherwise it wraps |
| `TaskIdsParser.ReleaseLoopRightIff` | pueue/src/client/task_ids_parser.rs:110-117 | With additions modulo 2^64 the loop comes to an end with the right set if and only if it does not wrap |
| `TaskIdsParser.ProgressionIsPart` | pueue/src/client/task_ids_parser.rs:110-117 | Those terms are the sorted enumeration of the arithmetic progression |
| `TaskIdsParser.BlankInput` | pueue/src/client/task_ids_parser.rs:31-33 | The early return for blank input agrees with the general rule |
| `Text.TrimIgnoresPadding` | pueue/src/client/task_ids_parser.rs:39-39 | Trimming ignores any white space put around a string |
| `Text.SplitJoin` | pueue/src/client/task_ids_parser.rs:38-38 | Splitting inverts joining for pieces without the separator |
| `Text.JoinSplit` | pueue/src/client/task_ids_parser.rs:38-38 | and joining inverts splitting, whose pieces never contain the separator |
| `Text.ValueByPlace` | pueue/src/client/task_ids_parser.rs:50-52 | Digits count by their place: the value of a numeral is that of any left part, times ten for each digit that follows, plus that of the rest |
| `Text.ParseDecimal` | pueue/src/client/task_ids_parser.rs:50-52 | The decimal notation of a number parses back to it exactly if it fits a machine word |
| `Runs.StashIsCalm` | pueue/src/daemon/network/message_handler/stash.rs:11-57 | Stashing selected queued or locked tasks leaves the graph, running tasks and pools alone and revives nothing |
| `Runs.EnqueueIsCalm` | pueue/src/daemon/network/message_handler/enqueue.rs:11-68 | So does enqueueing selected stashed or locked tasks |
| `Runs.StartIsCalm` | pueue/src/daemon/process_handler/start.rs:18-110 | Starting by force or resuming keeps graph and pool agreement and revives no finished task |
| `Runs.PauseIsCalm` | pueue/src/daemon/process_handler/pause.rs:13-69 | So does pausing |
| `Runs.KillIsCalm` | pueue/src/daemon/process_handler/kill.rs:27-85 | A kill changes nothing but group statuses until children end |
| `Runs.ParallelIsCalm` | pueue/src/daemon/network/message_handler/parallel.rs:6-20 | Changing a slot limit keeps all invariants, even below the number of running children |
| `Runs.GroupAddIsCalm` | pueue/src/daemon/network/message_handler/group.rs:32-51 | Adding a group keeps pools and groups in step |
| `Runs.GroupRemoveIsCalm` | pueue/src/daemon/network/message_handler/group.rs:52-95 | So does removing one |
| `Runs.AddKeepsSound` | pueue/src/daemon/network/message_handler/add.rs:20-107 | An accepted request with a free fresh id keeps every invariant |
| `Runs.EditKeepsSound` | pueue/src/daemon/network/message_handler/edit.rs:95-200 | So does an accepted single edit, or an accepted batch that stays clear of its own tasks |
| `Runs.SwitchKeepsSound` | pueue/src/daemon/network/message_handler/switch.rs:11-125 | So does an edge-free switch request |
| `Runs.TurnKeepsSound` | pueue/src/daemon/task_handler.rs:41-63 | So does a loop turn with any exits, delays and spawn failures |

## Left out

- Removal.Remove: requires that the request is answered at all, which is exactly Removal.RemoveEndsIff; that a recursion that does not end exhausts the stack, with the mutex held, is not modelled.
- Archive.ArchivableTasks: requires records keyed by id, as all reachable states have them (Safety.AnyRunStaysOrderly); requests of other clients between snapshot and removal, the confirmation, the creation of the archive group and error messages are not modelled.
- Handlers.Pause: requires that children belong to existing tasks, which every reachable state has; the state after a panic is the one left under the poisoned mutex, from which the daemon does not recover.
- Scheduler.SpawnProcess: requires a worker pool for the group of the task, because the code panics without one; `Daemon.Handle` shows that it always exists.
- Scheduler.GetNextTaskId: orders by map key where the code orders by the id in the record; the two are equal in every sound state.
- Safety.RunsStaySound: is about careful runs, exactly as far as Runs.CarefulIff shows; what survives careless ones is Safety.ReachablePoolsAgree.
- Runs.StepKeepsInvariants: `add` and `restart` with an immediate start are two events, the second being the immediate start of the named tasks.
- Switch.SwitchRefinesRelabelling: one direction for a whole request with overlapping pairs, where a later swap can undo an earlier mistake (Reverse.LaterSwapUndoes); the equivalence is stated per swap in Switch.EveryStepRelabelsIff and for disjoint pairs in Reverse.DisjointSwitchIff.
- Edit.SafeBatchKeepsAcyclic: one direction, as a simple sufficient test; the exact condition is Edit.BatchAcyclicIff.
- TaskIdsParser.StepThrough: the wrap is an explicit outcome; which wrong set a release build ends with, if it ends, is not stated beyond TaskIdsParser.ReleaseLoopRightIff.
- Edit.EditTasks: an edited dependency list with repetitions is a set in the model; the code keeps the repetitions, which nothing observes.
- Framing.ReceiveBytes: the truncation of the length on 32-bit platforms and the warning about large payloads are not modelled; i/o errors other than an early end are not either.
- LogSeek.SeekToLastLines: the buffering inside the reverse reader is reduced to its contract, a non-empty block of at most 4096 bytes right before the logical position; failing conversions of file positions and i/o errors are not modelled.
- Ids and worker ids are unbounded naturals in the daemon model: the overflow of the last id plus one is out of reach in practice.
- Time stamps in statuses, environment variables, aliases, log files, callbacks and messages to the user: they do not influence the state machine. A delay is a value of which only presence matters.
- Saving the state always succeeds; shutdown, sockets, TLS, serialisation, processes and signals are outside the model.
- The status query language, display, waiting, editor handling, import and export of the client are outside the model.
