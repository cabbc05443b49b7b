/** Left alone, the daemon finishes every task, and with results no schedule can change. */
module Drain {
  import opened Lists
  import opened Tasks
  import opened DependencyGraph
  import opened Scheduler
  import opened SpawnOrder
  import opened TaskLoop
  import opened PoolAgreement

  /** What happens to a task's command, should it ever be started. */
  datatype Fate = SpawnFails | Ends(exit: Exit)

  type Fates = map<TaskId, Fate>

  function FateResult(fate: Fate): TaskResult {
    match fate
    case SpawnFails => FailedToSpawn
    case Ends(IoError) => Errored
    case Ends(Signalled) => Killed
    case Ends(Code(code)) => if code == 0 then Success else Failed(code)
  }

  /** The world of one turn in which the children of the tasks in `ending` end. */
  function WorldOf(fates: Fates, ending: set<TaskId>): World {
    World(map k | k in ending && k in fates && fates[k].Ends? :: fates[k].exit,
          {},
          set k | k in fates && fates[k].SpawnFails?)
  }

  const NO_PAUSING := Settings(false, false)

  ghost predicate AllGroupsRunning(s: State) {
    forall g :: g in s.groups ==> s.groups[g].status == GroupStatus.Running
  }

  ghost predicate PlainStatus(status: TaskStatus) {
    status.Queued? || status == TaskStatus.Running || status.Done?
  }

  /** The starting point: an acyclic graph of queued, running and done tasks in running groups,
      and a fate for every task; a task that is already running will end somehow. */
  ghost predicate Quiet(s: State, fates: Fates) {
    && PoolsAgree(s) && Acyclic(s.tasks) && AllGroupsRunning(s)
    && (forall k :: k in s.tasks ==> PlainStatus(s.tasks[k].status) && k in fates)
    && (forall k :: k in s.tasks && IsRunning(s.tasks[k]) ==> fates[k].Ends?)
  }

  // -- the result every task is bound to --------------------------------------------------------------------

  /** Defined from the initial tasks and the fates alone. */
  ghost function Bound(tasks: TaskMap, fates: Fates, k: TaskId, rank: map<TaskId, int>, bound: int): TaskResult
    requires Ranked(tasks, rank, bound) && k in tasks && forall x :: x in tasks ==> x in fates
    decreases rank[k]
  {
    if tasks[k].status.Done? then tasks[k].status.result
    else if tasks[k].status.Queued? &&
            exists d :: d in tasks[k].dependencies && d in tasks && Bound(tasks, fates, d, rank, bound) != Success
    then DependencyFailed
    else FateResult(fates[k])
  }

  /** Which dependencies fail decides whether a queued task fails with them. */
  lemma BoundDependencyFailedIff(tasks: TaskMap, fates: Fates, k: TaskId, rank: map<TaskId, int>, bound: int)
    requires Ranked(tasks, rank, bound) && k in tasks && forall x :: x in tasks ==> x in fates
    requires tasks[k].status.Queued?
    ensures Bound(tasks, fates, k, rank, bound) == DependencyFailed <==>
            exists d :: d in tasks[k].dependencies && d in tasks && Bound(tasks, fates, d, rank, bound) != Success
  {
  }

  /** A state on the way: each task is as it was but for its status, and the status can only be
      one that leads to the bound result. */
  ghost predicate OnTrack(start: TaskMap, fates: Fates, s: State, rank: map<TaskId, int>, bound: int)
    requires Ranked(start, rank, bound) && forall x :: x in start ==> x in fates
  {
    && s.tasks.Keys == start.Keys
    && (forall k :: k in start ==> TrackedTask(start, fates, k, s.tasks[k], rank, bound))
  }

  ghost predicate TrackedTask(start: TaskMap, fates: Fates, k: TaskId, task: Task, rank: map<TaskId, int>, bound: int)
    requires Ranked(start, rank, bound) && k in start && forall x :: x in start ==> x in fates
  {
    && task == start[k].(status := task.status)
    && PlainStatus(task.status)
    && (task.status.Done? ==> task.status.result == Bound(start, fates, k, rank, bound))
    && (task.status == TaskStatus.Running ==>
          fates[k].Ends? && Bound(start, fates, k, rank, bound) == FateResult(fates[k]))
    && (task.status.Queued? ==> start[k].status.Queued?)
  }

  ghost predicate Steady(start: State, fates: Fates, s: State, rank: map<TaskId, int>, bound: int)
    requires Ranked(start.tasks, rank, bound) && forall x :: x in start.tasks ==> x in fates
  {
    OnTrack(start.tasks, fates, s, rank, bound) && PoolsAgree(s) && s.groups == start.groups
  }

  // -- every part of a turn keeps the track -----------------------------------------------------------------

  lemma FateIsResult(exit: Exit)
    ensures FateResult(Ends(exit)) == ResultOf(exit)
  {
  }

  lemma FinishKeepsTrack(start: State, fates: Fates, s: State, ending: set<TaskId>, rank: map<TaskId, int>, bound: int)
    requires Ranked(start.tasks, rank, bound) && forall x :: x in start.tasks ==> x in fates
    requires Steady(start, fates, s, rank, bound)
    ensures Steady(start, fates, Finish(s, NO_PAUSING, WorldOf(fates, ending).exits), rank, bound)
  {
    hide PoolsAgree, Bound, FateResult, ResultOf, FreeWorkers, TasksInSlots, FinishedSlots;
    var exits := WorldOf(fates, ending).exits;
    var after := Finish(s, NO_PAUSING, exits);
    FinishKeepsPools(s, NO_PAUSING, exits);
    forall k | k in start.tasks ensures TrackedTask(start.tasks, fates, k, after.tasks[k], rank, bound) {
      if k in fates && fates[k].Ends? { FateIsResult(fates[k].exit); }
      FinishedAreRunning(s, exits, k);
      assert TrackedTask(start.tasks, fates, k, s.tasks[k], rank, bound);
    }
  }

  lemma ResetIsIdle(s: State)
    requires AllGroupsRunning(s)
    ensures GroupsReset(s) == s
  {
    assert ResettableGroups(s) == {};
    assert GroupsReset(s).tasks == s.tasks;
    assert GroupsReset(s).groups == s.groups;
  }

  lemma DelayedIsIdle(s: State)
    ensures DelayedEnqueued(s, {}) == s
  {
    assert Updated(s.tasks, {}, EnqueueTask) == s.tasks;
  }

  /** A known failed dependency decides the result of a queued task. */
  lemma FailedDependencyBinds(start: State, fates: Fates, s: State, k: TaskId, rank: map<TaskId, int>, bound: int)
    requires Ranked(start.tasks, rank, bound) && forall x :: x in start.tasks ==> x in fates
    requires OnTrack(start.tasks, fates, s, rank, bound)
    requires k in WithFailedDependencies(s.tasks) && s.tasks[k].status.Queued?
    ensures Bound(start.tasks, fates, k, rank, bound) == DependencyFailed
  {
    assert TrackedTask(start.tasks, fates, k, s.tasks[k], rank, bound);
    var d :| d in s.tasks[k].dependencies && d in s.tasks && HasFailed(s.tasks[d]);
    assert TrackedTask(start.tasks, fates, d, s.tasks[d], rank, bound);
  }

  lemma DependantsKeepTrack(start: State, fates: Fates, s: State, rank: map<TaskId, int>, bound: int)
    requires Ranked(start.tasks, rank, bound) && forall x :: x in start.tasks ==> x in fates
    requires Steady(start, fates, s, rank, bound)
    ensures Steady(start, fates, DependantsFailed(s), rank, bound)
  {
    hide PoolsAgree, Bound, Ranked, HasFailedDependency;
    var after := DependantsFailed(s);
    DependantsKeepPools(s);
    forall k | k in start.tasks ensures TrackedTask(start.tasks, fates, k, after.tasks[k], rank, bound) {
      assert TrackedTask(start.tasks, fates, k, s.tasks[k], rank, bound);
      if k in WithFailedDependencies(s.tasks) {
        FailedDependencyBinds(start, fates, s, k, rank, bound);
      }
    }
  }

  /** A task is only started once all its known dependencies have succeeded, so it gets its fate. */
  lemma StartKeepsTrack(start: State, fates: Fates, s: State, id: TaskId, rank: map<TaskId, int>, bound: int)
    requires Ranked(start.tasks, rank, bound) && forall x :: x in start.tasks ==> x in fates
    requires Steady(start, fates, s, rank, bound) && Startable(s, id)
    ensures Steady(start, fates, Spawned(s, NO_PAUSING, id, WorldOf(fates, {}).spawnFails), rank, bound)
  {
    hide PoolsAgree;
    var after := Spawned(s, NO_PAUSING, id, WorldOf(fates, {}).spawnFails);
    SpawnedKeepsPools(s, NO_PAUSING, id, WorldOf(fates, {}).spawnFails);
    assert TrackedTask(start.tasks, fates, id, s.tasks[id], rank, bound);
    forall d | d in start.tasks[id].dependencies && d in start.tasks
      ensures Bound(start.tasks, fates, d, rank, bound) == Success
    {
      assert TrackedTask(start.tasks, fates, d, s.tasks[d], rank, bound);
    }
    forall k | k in start.tasks ensures TrackedTask(start.tasks, fates, k, after.tasks[k], rank, bound) {
      assert TrackedTask(start.tasks, fates, k, s.tasks[k], rank, bound);
    }
  }

  lemma {:induction false} SpawnKeepsTrack(start: State, fates: Fates, s: State, rank: map<TaskId, int>, bound: int)
    requires Ranked(start.tasks, rank, bound) && forall x :: x in start.tasks ==> x in fates
    requires PoolPerGroup(s) && Steady(start, fates, s, rank, bound)
    ensures Steady(start, fates, SpawnedAll(s, NO_PAUSING, WorldOf(fates, {}).spawnFails), rank, bound)
    decreases |QueuedIds(s.tasks)|
  {
    hide Steady, Spawned;
    var next, fails := GetNextTaskId(s), WorldOf(fates, {}).spawnFails;
    if next != None {
      StartConsumesQueued(s, NO_PAUSING, next.value, fails);
      StartKeepsTrack(start, fates, s, next.value, rank, bound);
      SpawnKeepsTrack(start, fates, Spawned(s, NO_PAUSING, next.value, fails), rank, bound);
    }
  }

  /** The part of a quiet turn before the scheduler: only two of its steps do anything. */
  lemma QuietPrepared(start: State, fates: Fates, s: State, ending: set<TaskId>, rank: map<TaskId, int>, bound: int)
    requires Ranked(start.tasks, rank, bound) && forall x :: x in start.tasks ==> x in fates
    requires Steady(start, fates, s, rank, bound) && AllGroupsRunning(start)
    ensures var world := WorldOf(fates, ending);
      && Prepared(s, NO_PAUSING, world) == DependantsFailed(Finish(s, NO_PAUSING, world.exits))
      && Steady(start, fates, Prepared(s, NO_PAUSING, world), rank, bound)
  {
    var world := WorldOf(fates, ending);
    var finished := Finish(s, NO_PAUSING, world.exits);
    FinishKeepsTrack(start, fates, s, ending, rank, bound);
    ResetIsIdle(finished);
    DelayedIsIdle(finished);
    DependantsKeepTrack(start, fates, finished, rank, bound);
  }

  lemma TurnKeepsTrack(start: State, fates: Fates, s: State, ending: set<TaskId>, rank: map<TaskId, int>, bound: int)
    requires Ranked(start.tasks, rank, bound) && forall x :: x in start.tasks ==> x in fates
    requires Steady(start, fates, s, rank, bound) && AllGroupsRunning(start) && PoolPerGroup(s)
    ensures Steady(start, fates, Turn(s, NO_PAUSING, WorldOf(fates, ending)), rank, bound)
  {
    hide Finish, DependantsFailed, OnTrack, PoolsAgree;
    QuietPrepared(start, fates, s, ending, rank, bound);
    PreparedKeepsPools(s, NO_PAUSING, WorldOf(fates, ending));
    SpawnKeepsTrack(start, fates, Prepared(s, NO_PAUSING, WorldOf(fates, ending)), rank, bound);
  }

  // -- progress ---------------------------------------------------------------------------------------------

  ghost function NotDone(tasks: TaskMap): set<TaskId> {
    set k | k in tasks && !IsDone(tasks[k])
  }

  /** Queued tasks count twice: once until they leave the queue, once until they are done. */
  ghost function Work(s: State): nat {
    |QueuedIds(s.tasks)| + |NotDone(s.tasks)|
  }

  ghost predicate Shrinks(s: State, after: State) {
    QueuedIds(after.tasks) <= QueuedIds(s.tasks) && NotDone(after.tasks) <= NotDone(s.tasks)
  }

  lemma SubsetCard(a: set<TaskId>, b: set<TaskId>)
    requires a <= b
    ensures |a| <= |b| && (|a| == |b| ==> a == b)
  {
    assert b == a + (b - a);
  }

  lemma ShrinkingWork(s: State, after: State)
    requires Shrinks(s, after)
    ensures Work(after) <= Work(s)
    ensures Work(after) == Work(s) ==>
      QueuedIds(after.tasks) == QueuedIds(s.tasks) && NotDone(after.tasks) == NotDone(s.tasks)
  {
    SubsetCard(QueuedIds(after.tasks), QueuedIds(s.tasks));
    SubsetCard(NotDone(after.tasks), NotDone(s.tasks));
  }

  lemma FinishShrinks(s: State, exits: Exits)
    requires PoolsAgree(s)
    ensures var after := Finish(s, NO_PAUSING, exits);
      && after.tasks.Keys == s.tasks.Keys && Shrinks(s, after)
      && (forall k :: k in s.tasks ==>
            if IsRunning(s.tasks[k]) && k in exits then IsDone(after.tasks[k]) else after.tasks[k] == s.tasks[k])
  {
    hide PoolsAgree;
    var after := Finish(s, NO_PAUSING, exits);
    forall k | k in s.tasks
      ensures if IsRunning(s.tasks[k]) && k in exits then IsDone(after.tasks[k]) else after.tasks[k] == s.tasks[k]
    {
      FinishedAreRunning(s, exits, k);
    }
  }

  lemma DependantsShrink(s: State)
    ensures Shrinks(s, DependantsFailed(s))
    ensures forall k :: k in s.tasks && IsDone(s.tasks[k]) ==> DependantsFailed(s).tasks[k] == s.tasks[k]
  {
  }

  lemma StartsShrink(s: State, after: State)
    requires OnlyStarts(s.tasks, after.tasks)
    ensures Shrinks(s, after)
    ensures forall k :: k in s.tasks && IsDone(s.tasks[k]) ==> after.tasks[k] == s.tasks[k]
  {
  }

  /** No turn puts work back: whatever has left the queue or is done stays so. */
  lemma TurnShrinks(start: State, fates: Fates, s: State, ending: set<TaskId>, rank: map<TaskId, int>, bound: int)
    requires Ranked(start.tasks, rank, bound) && forall x :: x in start.tasks ==> x in fates
    requires Steady(start, fates, s, rank, bound) && AllGroupsRunning(start) && PoolPerGroup(s)
    ensures var world := WorldOf(fates, ending);
      && Shrinks(s, Prepared(s, NO_PAUSING, world))
      && Shrinks(Prepared(s, NO_PAUSING, world), Turn(s, NO_PAUSING, world))
      && OnlyStarts(Prepared(s, NO_PAUSING, world).tasks, Turn(s, NO_PAUSING, world).tasks)
  {
    var world := WorldOf(fates, ending);
    hide Finish, OnTrack, PoolsAgree, DependantsFailed;
    QuietPrepared(start, fates, s, ending, rank, bound);
    FinishShrinks(s, world.exits);
    DependantsShrink(Finish(s, NO_PAUSING, world.exits));
    PreparedKeepsPools(s, NO_PAUSING, world);
    SpawnedAllFrame(Prepared(s, NO_PAUSING, world), NO_PAUSING, world.spawnFails);
    StartsShrink(Prepared(s, NO_PAUSING, world), Turn(s, NO_PAUSING, world));
  }

  lemma RunningWillEnd(start: State, fates: Fates, s: State, k: TaskId, rank: map<TaskId, int>, bound: int)
    requires Ranked(start.tasks, rank, bound) && forall x :: x in start.tasks ==> x in fates
    requires OnTrack(start.tasks, fates, s, rank, bound) && k in s.tasks && IsRunning(s.tasks[k])
    ensures k in fates && fates[k].Ends?
  {
    assert TrackedTask(start.tasks, fates, k, s.tasks[k], rank, bound);
  }

  /** A child that ends makes a turn worth something. */
  lemma EndingIsProgress(start: State, fates: Fates, s: State, ending: set<TaskId>, k: TaskId,
                         rank: map<TaskId, int>, bound: int)
    requires Ranked(start.tasks, rank, bound) && forall x :: x in start.tasks ==> x in fates
    requires Steady(start, fates, s, rank, bound) && AllGroupsRunning(start) && PoolPerGroup(s)
    requires k in s.tasks && IsRunning(s.tasks[k]) && k in ending
    ensures Work(Turn(s, NO_PAUSING, WorldOf(fates, ending))) < Work(s)
  {
    hide Finish, OnTrack, PoolsAgree, DependantsFailed, SpawnedAll, OnlyStarts;
    var world := WorldOf(fates, ending);
    var finished, prepared := Finish(s, NO_PAUSING, world.exits), Prepared(s, NO_PAUSING, world);
    RunningWillEnd(start, fates, s, k, rank, bound);
    assert k in world.exits;
    QuietPrepared(start, fates, s, ending, rank, bound);
    FinishShrinks(s, world.exits);
    DependantsShrink(finished);
    assert k in NotDone(s.tasks) && k !in NotDone(prepared.tasks);
    TurnShrinks(start, fates, s, ending, rank, bound);
    ShrinkingWork(s, prepared);
    ShrinkingWork(prepared, Turn(s, NO_PAUSING, world));
  }

  /** Some unfinished task waits for no unfinished task. */
  lemma {:induction false} LeastUnfinished(tasks: TaskMap, rank: map<TaskId, int>, bound: int, k: TaskId)
    returns (least: TaskId)
    requires Ranked(tasks, rank, bound) && k in tasks && !IsDone(tasks[k])
    ensures least in tasks && !IsDone(tasks[least])
    ensures forall d :: d in tasks[least].dependencies && d in tasks ==> IsDone(tasks[d])
    decreases rank[k]
  {
    if d :| d in tasks[k].dependencies && d in tasks && !IsDone(tasks[d]) {
      least := LeastUnfinished(tasks, rank, bound, d);
    } else {
      least := k;
    }
  }

  lemma RankCarries(start: TaskMap, fates: Fates, s: State, rank: map<TaskId, int>, bound: int)
    requires Ranked(start, rank, bound) && forall x :: x in start ==> x in fates
    requires OnTrack(start, fates, s, rank, bound)
    ensures Ranked(s.tasks, rank, bound)
  {
    forall k | k in s.tasks ensures s.tasks[k].dependencies == start[k].dependencies {
      assert TrackedTask(start, fates, k, s.tasks[k], rank, bound);
    }
  }

  /** A queued task whose dependencies are done fails with one of them, or is ready. */
  lemma CheckedIsFailedOrReady(s: State, least: TaskId)
    requires AllGroupsRunning(s) && least in s.tasks && s.tasks[least].status.Queued?
    requires forall d :: d in s.tasks[least].dependencies && d in s.tasks ==> IsDone(s.tasks[d])
    ensures var after := DependantsFailed(s);
      least in after.tasks && (IsDone(after.tasks[least]) || Ready(after.tasks, least))
  {
    var after := DependantsFailed(s);
    DependantsShrink(s);
    if !HasFailedDependency(s.tasks, s.tasks[least]) {
      forall d | d in s.tasks[least].dependencies && d in s.tasks ensures Succeeded(after.tasks[d]) {
        assert !HasFailed(s.tasks[d]);
      }
    }
  }

  lemma IdleLeadsToReady(s: State, exits: Exits, least: TaskId)
    requires PoolsAgree(s) && AllGroupsRunning(s)
    requires least in s.tasks && s.tasks[least].status.Queued?
    requires forall d :: d in s.tasks[least].dependencies && d in s.tasks ==> IsDone(s.tasks[d])
    ensures var after := DependantsFailed(Finish(s, NO_PAUSING, exits));
      least in after.tasks && (IsDone(after.tasks[least]) || Ready(after.tasks, least))
  {
    assert Finish(s, NO_PAUSING, exits).groups == s.groups;
    hide Finish, PoolsAgree, DependantsFailed;
    FinishShrinks(s, exits);
    CheckedIsFailedOrReady(Finish(s, NO_PAUSING, exits), least);
  }

  /** A ready task that is still queued after the scheduler ran shows that a child is running. */
  lemma StuckMeansBusy(prepared: State, after: State, least: TaskId) returns (busy: TaskId)
    requires Ready(prepared.tasks, least) && OnlyStarts(prepared.tasks, after.tasks)
    requires PoolsAgree(after) && AllGroupsRunning(after)
    requires forall id :: id in after.tasks ==> !Startable(after, id)
    requires least in after.tasks && after.tasks[least].status.Queued?
    ensures busy in after.tasks && IsRunning(after.tasks[busy])
  {
    var group := after.tasks[least].group;
    assert Ready(after.tasks, least) by {
      assert after.tasks[least] == prepared.tasks[least];
    }
    assert !Startable(after, least);
    assert !HasFreeSlot(after, group);
    assert |after.pools[group]| > 0;
    var worker :| worker in after.pools[group];
    busy := after.pools[group][worker];
  }

  /** If that task is neither failed nor started, another one has been. */
  lemma LeastMovesOrBusy(start: State, fates: Fates, s: State, prepared: State, after: State, least: TaskId,
                         rank: map<TaskId, int>, bound: int)
    requires Ranked(start.tasks, rank, bound) && forall x :: x in start.tasks ==> x in fates
    requires Steady(start, fates, s, rank, bound) && Steady(start, fates, after, rank, bound)
    requires AllGroupsRunning(start) && Shrinks(s, after) && OnlyStarts(prepared.tasks, after.tasks)
    requires forall k :: k in s.tasks ==> !IsRunning(s.tasks[k])
    requires forall id :: id in after.tasks ==> !Startable(after, id)
    requires least in s.tasks && s.tasks[least].status.Queued?
    requires least in prepared.tasks && (IsDone(prepared.tasks[least]) || Ready(prepared.tasks, least))
    ensures QueuedIds(after.tasks) != QueuedIds(s.tasks)
  {
    hide PoolsAgree, Bound, Startable;
    assert least in QueuedIds(s.tasks);
    if Ready(prepared.tasks, least) && after.tasks[least].status.Queued? {
      var busy := StuckMeansBusy(prepared, after, least);
      assert busy in NotDone(after.tasks) && busy in NotDone(s.tasks);
      assert TrackedTask(start.tasks, fates, busy, s.tasks[busy], rank, bound);
      assert busy in QueuedIds(s.tasks) && busy !in QueuedIds(after.tasks);
    } else {
      assert least !in QueuedIds(after.tasks);
    }
  }

  lemma IdleLeast(start: State, fates: Fates, s: State, rank: map<TaskId, int>, bound: int) returns (least: TaskId)
    requires Ranked(start.tasks, rank, bound) && forall x :: x in start.tasks ==> x in fates
    requires OnTrack(start.tasks, fates, s, rank, bound)
    requires NotDone(s.tasks) != {} && forall k :: k in s.tasks ==> !IsRunning(s.tasks[k])
    ensures least in s.tasks && s.tasks[least].status.Queued?
    ensures forall d :: d in s.tasks[least].dependencies && d in s.tasks ==> IsDone(s.tasks[d])
  {
    RankCarries(start.tasks, fates, s, rank, bound);
    var k :| k in NotDone(s.tasks);
    least := LeastUnfinished(s.tasks, rank, bound, k);
    assert TrackedTask(start.tasks, fates, least, s.tasks[least], rank, bound);
  }

  /** With no child left, a turn still gets something done while anything is unfinished. */
  lemma IdleIsProgress(start: State, fates: Fates, s: State, ending: set<TaskId>, rank: map<TaskId, int>, bound: int)
    requires Ranked(start.tasks, rank, bound) && forall x :: x in start.tasks ==> x in fates
    requires Steady(start, fates, s, rank, bound) && AllGroupsRunning(start) && PoolPerGroup(s)
    requires NotDone(s.tasks) != {} && forall k :: k in s.tasks ==> !IsRunning(s.tasks[k])
    ensures Work(Turn(s, NO_PAUSING, WorldOf(fates, ending))) < Work(s)
  {
    hide Finish, DependantsFailed, SpawnedAll, PoolsAgree, OnTrack, Startable, OnlyStarts;
    var world := WorldOf(fates, ending);
    var prepared, after := Prepared(s, NO_PAUSING, world), Turn(s, NO_PAUSING, world);
    var least := IdleLeast(start, fates, s, rank, bound);
    QuietPrepared(start, fates, s, ending, rank, bound);
    IdleLeadsToReady(s, world.exits, least);
    TurnShrinks(start, fates, s, ending, rank, bound);
    TurnKeepsTrack(start, fates, s, ending, rank, bound);
    PreparedKeepsPools(s, NO_PAUSING, world);
    NothingLeftToStart(prepared, NO_PAUSING, world.spawnFails);
    LeastMovesOrBusy(start, fates, s, prepared, after, least, rank, bound);
    ShrinkingWork(s, after);
  }

  // -- whole runs -------------------------------------------------------------------------------------------

  /** Which children end in which turn. */
  type Schedule = nat -> set<TaskId>

  lemma TurnKeepsPoolPerGroup(s: State, settings: Settings, world: World)
    requires PoolPerGroup(s)
    ensures PoolPerGroup(Turn(s, settings, world))
  {
    hide Prepared;
    PreparedKeepsPools(s, settings, world);
    SpawnedAllFrame(Prepared(s, settings, world), settings, world.spawnFails);
  }

  /** The state before turn `n`. */
  ghost function RunAt(start: State, fates: Fates, schedule: Schedule, n: nat): (s: State)
    requires PoolPerGroup(start)
    ensures PoolPerGroup(s)
  {
    if n == 0 then start
    else
      var s := RunAt(start, fates, schedule, n - 1);
      TurnKeepsPoolPerGroup(s, NO_PAUSING, WorldOf(fates, schedule(n - 1)));
      Turn(s, NO_PAUSING, WorldOf(fates, schedule(n - 1)))
  }

  ghost predicate EndsFrom(schedule: Schedule, n: nat, k: TaskId) {
    exists m: nat :: m >= n && k in schedule(m)
  }

  /** Every child eventually ends. */
  ghost predicate Fair(start: State, fates: Fates, schedule: Schedule)
    requires PoolPerGroup(start)
  {
    forall n: nat, k ::
      k in RunAt(start, fates, schedule, n).tasks && IsRunning(RunAt(start, fates, schedule, n).tasks[k]) ==>
      EndsFrom(schedule, n, k)
  }

  ghost predicate AllDone(s: State) {
    forall k :: k in s.tasks ==> IsDone(s.tasks[k])
  }

  lemma QuietIsSteady(start: State, fates: Fates, rank: map<TaskId, int>, bound: int)
    requires Quiet(start, fates) && Ranked(start.tasks, rank, bound)
    ensures Steady(start, fates, start, rank, bound)
  {
    forall k | k in start.tasks ensures TrackedTask(start.tasks, fates, k, start.tasks[k], rank, bound) {
    }
  }

  /** At every turn of every run, whatever the schedule, tasks are on track to their bound results. */
  lemma {:induction false} RunStaysSteady(start: State, fates: Fates, schedule: Schedule, n: nat,
                                          rank: map<TaskId, int>, bound: int)
    requires Quiet(start, fates) && Ranked(start.tasks, rank, bound) && PoolPerGroup(start)
    ensures Steady(start, fates, RunAt(start, fates, schedule, n), rank, bound)
  {
    hide Turn, Steady;
    if n == 0 {
      QuietIsSteady(start, fates, rank, bound);
    } else {
      RunStaysSteady(start, fates, schedule, n - 1, rank, bound);
      TurnKeepsTrack(start, fates, RunAt(start, fates, schedule, n - 1), schedule(n - 1), rank, bound);
    }
  }

  lemma OneTurnShrinks(start: State, fates: Fates, schedule: Schedule, n: nat, rank: map<TaskId, int>, bound: int)
    requires Quiet(start, fates) && Ranked(start.tasks, rank, bound) && PoolPerGroup(start)
    ensures Shrinks(RunAt(start, fates, schedule, n), RunAt(start, fates, schedule, n + 1))
  {
    hide Steady, OnlyStarts, Prepared, Turn;
    RunStaysSteady(start, fates, schedule, n, rank, bound);
    TurnShrinks(start, fates, RunAt(start, fates, schedule, n), schedule(n), rank, bound);
  }

  lemma {:induction false} RunShrinks(start: State, fates: Fates, schedule: Schedule, n: nat, m: nat,
                                      rank: map<TaskId, int>, bound: int)
    requires Quiet(start, fates) && Ranked(start.tasks, rank, bound) && PoolPerGroup(start) && n <= m
    ensures Shrinks(RunAt(start, fates, schedule, n), RunAt(start, fates, schedule, m))
    decreases m - n
  {
    hide RunAt, Quiet, Ranked;
    if n < m {
      RunShrinks(start, fates, schedule, n, m - 1, rank, bound);
      OneTurnShrinks(start, fates, schedule, m - 1, rank, bound);
    }
  }

  lemma EndingLowersWork(start: State, fates: Fates, schedule: Schedule, n: nat, m: nat, k: TaskId,
                         rank: map<TaskId, int>, bound: int)
    returns (later: nat)
    requires Quiet(start, fates) && Ranked(start.tasks, rank, bound) && PoolPerGroup(start)
    requires m >= n && k in schedule(m) && k in RunAt(start, fates, schedule, n).tasks
    requires IsRunning(RunAt(start, fates, schedule, n).tasks[k])
    ensures later > n && Work(RunAt(start, fates, schedule, later)) < Work(RunAt(start, fates, schedule, n))
  {
    hide Steady, Turn, Work, Shrinks, Ranked;
    var s, t := RunAt(start, fates, schedule, n), RunAt(start, fates, schedule, m);
    RunShrinks(start, fates, schedule, n, m, rank, bound);
    RunStaysSteady(start, fates, schedule, n, rank, bound);
    RunStaysSteady(start, fates, schedule, m, rank, bound);
    ShrinkingWork(s, t);
    if Work(t) < Work(s) {
      later := m;
    } else {
      StillRunning(start, fates, s, t, k, rank, bound);
      EndingIsProgress(start, fates, t, schedule(m), k, rank, bound);
      later := m + 1;
    }
  }

  /** While anything is unfinished, some later turn has less work before it. */
  lemma WorkGoesDown(start: State, fates: Fates, schedule: Schedule, n: nat, rank: map<TaskId, int>, bound: int)
    returns (later: nat)
    requires Quiet(start, fates) && Ranked(start.tasks, rank, bound) && PoolPerGroup(start)
    requires Fair(start, fates, schedule) && !AllDone(RunAt(start, fates, schedule, n))
    ensures later > n && Work(RunAt(start, fates, schedule, later)) < Work(RunAt(start, fates, schedule, n))
  {
    hide Steady, Turn, Work, Shrinks, Ranked;
    var s := RunAt(start, fates, schedule, n);
    RunStaysSteady(start, fates, schedule, n, rank, bound);
    if k :| k in s.tasks && IsRunning(s.tasks[k]) {
      assert EndsFrom(schedule, n, k);
      var m: nat :| m >= n && k in schedule(m);
      later := EndingLowersWork(start, fates, schedule, n, m, k, rank, bound);
    } else {
      var u :| u in s.tasks && !IsDone(s.tasks[u]);
      assert u in NotDone(s.tasks);
      IdleIsProgress(start, fates, s, schedule(n), rank, bound);
      later := n + 1;
    }
  }

  lemma StillRunning(start: State, fates: Fates, s: State, t: State, k: TaskId, rank: map<TaskId, int>, bound: int)
    requires Ranked(start.tasks, rank, bound) && forall x :: x in start.tasks ==> x in fates
    requires Steady(start, fates, s, rank, bound) && Steady(start, fates, t, rank, bound)
    requires QueuedIds(t.tasks) == QueuedIds(s.tasks) && NotDone(t.tasks) == NotDone(s.tasks)
    requires k in s.tasks && IsRunning(s.tasks[k])
    ensures k in t.tasks && IsRunning(t.tasks[k])
  {
    hide PoolsAgree, Bound;
    assert k in NotDone(s.tasks) && k !in QueuedIds(s.tasks);
    assert TrackedTask(start.tasks, fates, k, t.tasks[k], rank, bound);
    assert k in NotDone(t.tasks) && k !in QueuedIds(t.tasks);
  }

  lemma {:induction false} DrainsFrom(start: State, fates: Fates, schedule: Schedule, n: nat,
                                      rank: map<TaskId, int>, bound: int) returns (end: nat)
    requires Quiet(start, fates) && Ranked(start.tasks, rank, bound) && PoolPerGroup(start)
    requires Fair(start, fates, schedule)
    ensures end >= n && AllDone(RunAt(start, fates, schedule, end))
    decreases Work(RunAt(start, fates, schedule, n))
  {
    hide RunAt, Work, Quiet, Ranked;
    if AllDone(RunAt(start, fates, schedule, n)) {
      end := n;
    } else {
      var later := WorkGoesDown(start, fates, schedule, n, rank, bound);
      end := DrainsFrom(start, fates, schedule, later, rank, bound);
    }
  }

  /** From any quiet state, under any fair schedule and any slot limits, the daemon reaches a
      turn before which every task is done, and stays there. */
  lemma EveryTaskGetsDone(start: State, fates: Fates, schedule: Schedule) returns (end: nat)
    requires Quiet(start, fates) && PoolPerGroup(start) && Fair(start, fates, schedule)
    ensures forall n: nat :: n >= end ==> AllDone(RunAt(start, fates, schedule, n))
  {
    var rank: map<TaskId, int>, bound: int :| Ranked(start.tasks, rank, bound);
    hide RunAt, Quiet, Ranked;
    end := DrainsFrom(start, fates, schedule, 0, rank, bound);
    forall n: nat | n >= end ensures AllDone(RunAt(start, fates, schedule, n)) {
      RunShrinks(start, fates, schedule, end, n, rank, bound);
      DoneStaysDone(RunAt(start, fates, schedule, end), RunAt(start, fates, schedule, n));
    }
  }

  lemma DoneStaysDone(s: State, after: State)
    requires AllDone(s) && Shrinks(s, after)
    ensures AllDone(after)
  {
    assert NotDone(s.tasks) == {};
    forall k | k in after.tasks ensures IsDone(after.tasks[k]) {
      assert k !in NotDone(after.tasks);
    }
  }

  /** Results do not depend on when children end, on slot limits, or on where running children
      sit: two runs from states with the same tasks agree on every task both have finished. */
  lemma ResultsAreScheduleIndependent(start: State, start': State, fates: Fates,
                                      schedule: Schedule, schedule': Schedule, n: nat, m: nat, k: TaskId)
    requires Quiet(start, fates) && PoolPerGroup(start)
    requires Quiet(start', fates) && PoolPerGroup(start')
    requires start.tasks == start'.tasks && k in start.tasks
    ensures var s, t := RunAt(start, fates, schedule, n), RunAt(start', fates, schedule', m);
      k in s.tasks && k in t.tasks && (IsDone(s.tasks[k]) && IsDone(t.tasks[k]) ==> s.tasks[k] == t.tasks[k])
  {
    hide RunAt, PoolsAgree, Bound, Acyclic;
    var rank, bound := RankOf(start.tasks);
    RunStaysSteady(start, fates, schedule, n, rank, bound);
    RunStaysSteady(start', fates, schedule', m, rank, bound);
    assert TrackedTask(start.tasks, fates, k, RunAt(start, fates, schedule, n).tasks[k], rank, bound);
    assert TrackedTask(start.tasks, fates, k, RunAt(start', fates, schedule', m).tasks[k], rank, bound);
  }

  lemma RankOf(tasks: TaskMap) returns (rank: map<TaskId, int>, bound: int)
    requires Acyclic(tasks)
    ensures Ranked(tasks, rank, bound)
  {
    rank, bound :| Ranked(tasks, rank, bound);
  }

  /** Once a run has finished everything, the initially queued tasks that failed because of a
      dependency are exactly those with a known dependency that failed. */
  lemma DependencyFailedIff(start: State, fates: Fates, schedule: Schedule, n: nat, k: TaskId)
    requires Quiet(start, fates) && PoolPerGroup(start) && AllDone(RunAt(start, fates, schedule, n))
    requires k in start.tasks && start.tasks[k].status.Queued?
    ensures var s := RunAt(start, fates, schedule, n);
      && k in s.tasks && s.tasks[k].status.Done?
      && (s.tasks[k].status.result == DependencyFailed <==> HasFailedDependency(s.tasks, start.tasks[k]))
  {
    hide RunAt, PoolsAgree, Acyclic;
    var rank, bound := RankOf(start.tasks);
    RunStaysSteady(start, fates, schedule, n, rank, bound);
    var s := RunAt(start, fates, schedule, n);
    assert TrackedTask(start.tasks, fates, k, s.tasks[k], rank, bound);
    BoundDependencyFailedIff(start.tasks, fates, k, rank, bound);
    forall d | d in start.tasks[k].dependencies && d in start.tasks
      ensures d in s.tasks && (HasFailed(s.tasks[d]) <==> Bound(start.tasks, fates, d, rank, bound) != Success)
    {
      assert TrackedTask(start.tasks, fates, d, s.tasks[d], rank, bound);
    }
  }
}
