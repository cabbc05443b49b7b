/** One turn of the daemon's main loop: finished children, resets, delayed tasks, failed
    dependencies, new spawns. */
module TaskLoop {
  import opened Lists
  import opened Tasks
  import opened Scheduler

  /** How a child that no longer runs is found: by an i/o error, with a code, or killed by a signal. */
  datatype Exit = IoError | Code(code: int) | Signalled

  /** The task ids whose child has ended, with the way it ended. */
  type Exits = map<TaskId, Exit>

  function ResultOf(exit: Exit): TaskResult {
    match exit
    case IoError => Errored
    case Code(code) => if code == 0 then Success else Failed(code)
    case Signalled => Killed
  }

  /** Errors and bad exit codes may pause groups; a kill does not. */
  predicate PausesGroup(exit: Exit) {
    exit.IoError? || (exit.Code? && exit.code != 0)
  }

  // -- finished children ------------------------------------------------------------------------------------

  type Slot = (string, nat)

  function FinishedSlots(pools: Pools, exits: Exits): set<Slot> {
    set g, w | g in pools && w in pools[g] && pools[g][w] in exits :: (g, w)
  }

  predicate ValidSlots(pools: Pools, slots: set<Slot>, exits: Exits) {
    forall slot :: slot in slots ==> slot.0 in pools && slot.1 in pools[slot.0] && pools[slot.0][slot.1] in exits
  }

  function TasksInSlots(pools: Pools, slots: set<Slot>): set<TaskId>
    requires forall slot :: slot in slots ==> slot.0 in pools && slot.1 in pools[slot.0]
  {
    set slot | slot in slots :: pools[slot.0][slot.1]
  }

  function FinishTasks(tasks: TaskMap, ids: set<TaskId>, exits: Exits): TaskMap {
    map k | k in tasks ::
      if k in ids && k in exits then tasks[k].(status := Done(ResultOf(exits[k]))) else tasks[k]
  }

  function FreeWorkers(pools: Pools, slots: set<Slot>): Pools {
    map g | g in pools :: map w | w in pools[g] && (g, w) !in slots :: pools[g][w]
  }

  /** The groups of the tasks whose end counts as a failure. */
  function FailedGroups(tasks: TaskMap, ids: set<TaskId>, exits: Exits): set<string> {
    set k | k in ids && k in tasks && k in exits && PausesGroup(exits[k]) :: tasks[k].group
  }

  function PauseAfterFailures(groups: GroupMap, settings: Settings, failed: set<string>): GroupMap {
    if settings.pauseGroupOnFailure then
      map g | g in groups :: if g in failed then groups[g].(status := GroupStatus.Paused) else groups[g]
    else if settings.pauseAllOnFailure && failed != {} then
      map g | g in groups :: groups[g].(status := GroupStatus.Paused)
    else groups
  }

  /** The state once the children in `slots` have been cleared away. */
  function FinishSome(s: State, settings: Settings, exits: Exits, slots: set<Slot>): State
    requires ValidSlots(s.pools, slots, exits)
  {
    var ids := TasksInSlots(s.pools, slots);
    State(FinishTasks(s.tasks, ids, exits),
          PauseAfterFailures(s.groups, settings, FailedGroups(s.tasks, ids, exits)),
          FreeWorkers(s.pools, slots))
  }

  function Finish(s: State, settings: Settings, exits: Exits): State {
    FinishSome(s, settings, exits, FinishedSlots(s.pools, exits))
  }

  /** What the unwrapped lookups of the finish step rely on. */
  ghost predicate ChildrenKnown(s: State) {
    forall g, w :: g in s.pools && w in s.pools[g] ==> s.pools[g][w] in s.tasks
  }

  lemma PauseOneMore(groups: GroupMap, settings: Settings, failed: set<string>, group: string)
    ensures PauseOnFailure(PauseAfterFailures(groups, settings, failed), settings, group) ==
            PauseAfterFailures(groups, settings, failed + {group})
  {
  }

  lemma FinishOneTask(tasks: TaskMap, ids: set<TaskId>, exits: Exits, id: TaskId)
    requires id in tasks && id in exits
    ensures var before := FinishTasks(tasks, ids, exits);
      && id in before && before[id].group == tasks[id].group
      && FinishTasks(tasks, ids + {id}, exits) == before[id := before[id].(status := Done(ResultOf(exits[id])))]
    ensures FailedGroups(tasks, ids + {id}, exits) ==
            FailedGroups(tasks, ids, exits) + if PausesGroup(exits[id]) then {tasks[id].group} else {}
  {
  }

  lemma FreeOneWorker(pools: Pools, slots: set<Slot>, slot: Slot)
    requires slot.0 in pools && slot.1 in pools[slot.0] && slot !in slots
    ensures var before := FreeWorkers(pools, slots);
      && slot.0 in before && slot.1 in before[slot.0] && before[slot.0][slot.1] == pools[slot.0][slot.1]
      && FreeWorkers(pools, slots + {slot}) == before[slot.0 := before[slot.0] - {slot.1}]
  {
    var x := FreeWorkers(pools, slots + {slot});
    var before := FreeWorkers(pools, slots);
    var y := before[slot.0 := before[slot.0] - {slot.1}];
    forall g | g in pools ensures x[g] == y[g] {
      assert x[g].Keys == y[g].Keys;
    }
  }

  /** Clears one child away. Worker and task are found, or the daemon would panic. */
  method HandleFinished(state: InternalState, settings: Settings, exits: Exits, slot: Slot)
    requires slot.0 in state.children && slot.1 in state.children[slot.0]
    requires state.children[slot.0][slot.1] in state.tasks && state.children[slot.0][slot.1] in exits
    modifies state`tasks, state`groups, state`children
    ensures var id := old(state.children)[slot.0][slot.1];
      && state.children == old(state.children)[slot.0 := old(state.children)[slot.0] - {slot.1}]
      && state.tasks == old(state.tasks)[id := old(state.tasks)[id].(status := Done(ResultOf(exits[id])))]
      && state.groups == if PausesGroup(exits[id])
                         then PauseOnFailure(old(state.groups), settings, old(state.tasks)[id].group)
                         else old(state.groups)
  {
    var (group, worker) := slot;
    var id := state.children[group][worker];
    state.children := state.children[group := state.children[group] - {worker}];
    var task := state.tasks[id].(status := Done(ResultOf(exits[id])));
    state.tasks := state.tasks[id := task];
    if exits[id].IoError? {
      state.groups := PauseOnFailure(state.groups, settings, task.group);
    } else if ResultOf(exits[id]).Failed? {
      state.groups := PauseOnFailure(state.groups, settings, task.group);
    }
  }

  lemma FinishOneMore(s: State, settings: Settings, exits: Exits, slots: set<Slot>, slot: Slot)
    requires ValidSlots(s.pools, slots + {slot}, exits) && slot !in slots && ChildrenKnown(s)
    ensures var before, after := FinishSome(s, settings, exits, slots), FinishSome(s, settings, exits, slots + {slot});
      var id := s.pools[slot.0][slot.1];
      && slot.0 in before.pools && slot.1 in before.pools[slot.0] && before.pools[slot.0][slot.1] == id
      && id in before.tasks && id in exits
      && after.pools == before.pools[slot.0 := before.pools[slot.0] - {slot.1}]
      && after.tasks == before.tasks[id := before.tasks[id].(status := Done(ResultOf(exits[id])))]
      && after.groups == if PausesGroup(exits[id])
                         then PauseOnFailure(before.groups, settings, before.tasks[id].group) else before.groups
  {
    assert slot in slots + {slot};
    var ids, id := TasksInSlots(s.pools, slots), s.pools[slot.0][slot.1];
    assert TasksInSlots(s.pools, slots + {slot}) == ids + {id};
    FreeOneWorker(s.pools, slots, slot);
    FinishOneTask(s.tasks, ids, exits, id);
    PauseOneMore(s.groups, settings, FailedGroups(s.tasks, ids, exits), s.tasks[id].group);
    var failed := FailedGroups(s.tasks, ids, exits);
    assert failed + {} == failed;
  }

  /** `handle_finished_tasks`: the ended children are collected first and cleared away one by one. */
  method HandleFinishedTasks(state: InternalState, settings: Settings, exits: Exits)
    requires ChildrenKnown(state.Value())
    modifies state`tasks, state`groups, state`children
    ensures state.Value() == Finish(old(state.Value()), settings, exits)
  {
    ghost var before := state.Value();
    var finished := FinishedSlots(state.children, exits);
    var remaining := finished;
    FinishNone(before, settings, exits);
    assert finished - remaining == {};
    while remaining != {}
      invariant remaining <= finished
      invariant state.Value() == FinishSome(before, settings, exits, finished - remaining)
    {
      var slot :| slot in remaining;
      FinishOneMore(before, settings, exits, finished - remaining, slot);
      assert finished - (remaining - {slot}) == finished - remaining + {slot};
      remaining := remaining - {slot};
      HandleFinished(state, settings, exits, slot);
    }
    assert finished - remaining == finished;
  }

  lemma FinishNone(s: State, settings: Settings, exits: Exits)
    ensures FinishSome(s, settings, exits, {}) == s
  {
    var after := FinishSome(s, settings, exits, {});
    assert TasksInSlots(s.pools, {}) == {};
    assert FailedGroups(s.tasks, {}, exits) == {};
    assert after.tasks == s.tasks;
    assert after.groups == s.groups;
    forall g | g in s.pools ensures after.pools[g] == s.pools[g] {
      assert after.pools[g].Keys == s.pools[g].Keys;
    }
  }

  // -- group resets -----------------------------------------------------------------------------------------

  predicate HasActiveTasks(pools: Pools, group: string) {
    group in pools && pools[group] != map[]
  }

  function ResettableGroups(s: State): set<string> {
    set g | g in s.groups && s.groups[g].status == GroupStatus.Reset && !HasActiveTasks(s.pools, g)
  }

  /** Groups being reset are emptied and run again as soon as their last child is gone. */
  function ResetSome(s: State, names: set<string>): State {
    State(map k | k in s.tasks && s.tasks[k].group !in names :: s.tasks[k],
          map g | g in s.groups ::
            if g in names then s.groups[g].(status := GroupStatus.Running) else s.groups[g],
          s.pools)
  }

  function GroupsReset(s: State): State {
    ResetSome(s, ResettableGroups(s))
  }

  method HandleGroupResets(state: InternalState)
    modifies state`tasks, state`groups
    ensures state.Value() == GroupsReset(old(state.Value()))
  {
    hide HasActiveTasks;
    ghost var before := state.Value();
    var resetting := set g | g in state.groups && state.groups[g].status == GroupStatus.Reset;
    var remaining := resetting;
    ghost var done := ResettableGroups(before) * (resetting - remaining);
    assert done == {};
    assert ResetSome(before, {}) == before;
    while remaining != {}
      invariant remaining <= resetting && state.children == before.pools
      invariant done == ResettableGroups(before) * (resetting - remaining)
      invariant state.Value() == ResetSome(before, done)
    {
      var name :| name in remaining;
      remaining := remaining - {name};
      if !HasActiveTasks(state.children, name) {
        ResetOneMore(before, done, name);
        state.tasks := map k | k in state.tasks && state.tasks[k].group != name :: state.tasks[k];
        state.groups := state.groups[name := state.groups[name].(status := GroupStatus.Running)];
        done := done + {name};
      }
    }
    assert done == ResettableGroups(before);
  }

  lemma ResetOneMore(s: State, names: set<string>, name: string)
    requires name in s.groups
    ensures var before, after := ResetSome(s, names), ResetSome(s, names + {name});
      && after.tasks == (map k | k in before.tasks && before.tasks[k].group != name :: before.tasks[k])
      && after.groups == before.groups[name := before.groups[name].(status := GroupStatus.Running)]
  {
  }

  // -- delayed tasks ----------------------------------------------------------------------------------------

  function EnqueueTask(task: Task): Task {
    if task.status.Stashed? && task.status.enqueueAt.Some? then task.(status := Queued) else task
  }

  /** `elapsed` are the tasks whose time has come, should they be waiting for one. */
  function DelayedEnqueued(s: State, elapsed: set<TaskId>): State {
    s.(tasks := Updated(s.tasks, elapsed, EnqueueTask))
  }

  method EnqueueDelayedTasks(state: InternalState, elapsed: set<TaskId>)
    modifies state`tasks
    ensures state.Value() == DelayedEnqueued(old(state.Value()), elapsed)
  {
    state.UpdateTasks(elapsed, EnqueueTask);
  }

  // -- failed dependencies ----------------------------------------------------------------------------------

  predicate HasFailedDependency(tasks: TaskMap, task: Task) {
    exists d :: d in task.dependencies && d in tasks && HasFailed(tasks[d])
  }

  function WithFailedDependencies(tasks: TaskMap): set<TaskId> {
    set k | k in tasks && tasks[k].status.Queued? && HasFailedDependency(tasks, tasks[k])
  }

  predicate GroupPaused(groups: GroupMap, group: string) {
    group in groups && groups[group].status == GroupStatus.Paused
  }

  /** Queued tasks with a failed dependency fail themselves, unless their group is paused. */
  function DependantsFailed(s: State): State {
    s.(tasks := map k | k in s.tasks ::
      if k in WithFailedDependencies(s.tasks) && !GroupPaused(s.groups, s.tasks[k].group)
      then s.tasks[k].(status := Done(DependencyFailed)) else s.tasks[k])
  }

  method CheckFailedDependencies(state: InternalState)
    modifies state`tasks
    ensures state.Value() == DependantsFailed(old(state.Value()))
  {
    hide HasFailedDependency, GroupPaused;
    ghost var before := state.tasks;
    var failed := WithFailedDependencies(state.tasks);
    var remaining := failed;
    while remaining != {}
      invariant remaining <= failed && state.tasks.Keys == before.Keys
      invariant forall k :: k in before ==>
        (state.tasks[k] == if k in failed && k !in remaining && !GroupPaused(state.groups, before[k].group)
                           then before[k].(status := Done(DependencyFailed)) else before[k])
    {
      var id :| id in remaining;
      remaining := remaining - {id};
      if !GroupPaused(state.groups, state.tasks[id].group) {
        state.tasks := state.tasks[id := state.tasks[id].(status := Done(DependencyFailed))];
      }
    }
  }

  // -- one turn ---------------------------------------------------------------------------------------------

  /** Everything the daemon does not decide: which children ended and how, whose delay is
      over, and which commands cannot be spawned. */
  datatype World = World(exits: Exits, elapsed: set<TaskId>, spawnFails: set<TaskId>)

  /** The first four parts of a turn. */
  function Prepared(s: State, settings: Settings, world: World): State {
    DependantsFailed(DelayedEnqueued(GroupsReset(Finish(s, settings, world.exits)), world.elapsed))
  }

  lemma PreparedKeepsPools(s: State, settings: Settings, world: World)
    requires PoolPerGroup(s)
    ensures PoolPerGroup(Prepared(s, settings, world))
  {
  }

  function Turn(s: State, settings: Settings, world: World): State
    requires PoolPerGroup(s)
  {
    PreparedKeepsPools(s, settings, world);
    SpawnedAll(Prepared(s, settings, world), settings, world.spawnFails)
  }

  method RunTurn(state: InternalState, settings: Settings, world: World)
    requires PoolPerGroup(state.Value()) && ChildrenKnown(state.Value())
    modifies state`tasks, state`groups, state`children
    ensures state.Value() == Turn(old(state.Value()), settings, world)
  {
    PreparedKeepsPools(state.Value(), settings, world);
    HandleFinishedTasks(state, settings, world.exits);
    HandleGroupResets(state);
    EnqueueDelayedTasks(state, world.elapsed);
    CheckFailedDependencies(state);
    SpawnNew(state, settings, world.spawnFails);
  }
}
