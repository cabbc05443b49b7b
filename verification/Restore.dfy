/** Restoring a saved state: whatever the last daemon left behind is repaired before anything runs. */
module Restore {
  import opened Lists
  import opened Tasks
  import opened DependencyGraph
  import opened ReverseIndex
  import opened Scheduler
  import opened TaskLoop
  import opened PoolAgreement

  function RepairedStatus(status: TaskStatus): TaskStatus {
    match status
    case Running => Done(Killed)
    case Paused => Done(Killed)
    case Locked(_) => Stashed(None)
    case _ => status
  }

  /** Tasks of groups that are no longer configured move to the default group. */
  function RepairedGroup(groups: GroupMap, group: string): string {
    if group in groups then group else DEFAULT_GROUP
  }

  function RepairedTask(groups: GroupMap, task: Task): Task {
    task.(status := RepairedStatus(task.status), group := RepairedGroup(groups, task.group))
  }

  ghost predicate Homeless(tasks: TaskMap, groups: GroupMap, done: set<TaskId>) {
    exists k :: k in done && k in tasks && tasks[k].group !in groups
  }

  ghost predicate HoldsQueued(tasks: TaskMap, groups: GroupMap, done: set<TaskId>, group: string) {
    exists k :: k in done && k in tasks && tasks[k].status.Queued? && RepairedGroup(groups, tasks[k].group) == group
  }

  /** The tasks and groups once the tasks in `done` have been repaired. */
  ghost predicate PartlyRepaired(tasks: TaskMap, groups: GroupMap, done: set<TaskId>,
                                 tasks': TaskMap, groups': GroupMap)
  {
    && tasks'.Keys == tasks.Keys
    && (forall k :: k in tasks ==> tasks'[k] == if k in done then RepairedTask(groups, tasks[k]) else tasks[k])
    && groups'.Keys == groups.Keys + (if Homeless(tasks, groups, done) then {DEFAULT_GROUP} else {})
    && (forall g :: g in groups' ==>
          groups'[g] == RepairedGroupRecord(groups, g, HoldsQueued(tasks, groups, done, g)))
  }

  function RepairedGroupRecord(groups: GroupMap, group: string, holdsQueued: bool): Group {
    var record := if group in groups then groups[group] else Group(GroupStatus.Running, 1);
    if holdsQueued then record.(status := GroupStatus.Paused) else record
  }

  /** The group map once one more task has been looked at. */
  function GroupsAfter(groups: GroupMap, current: GroupMap, task: Task): GroupMap {
    var group := RepairedGroup(groups, task.group);
    var present := if group in current then current else current[group := Group(GroupStatus.Running, 1)];
    if task.status.Queued? then present[group := present[group].(status := GroupStatus.Paused)] else present
  }

  /** The repair of one task and its group. */
  method RepairOne(state: InternalState, id: TaskId, ghost groups: GroupMap)
    requires id in state.tasks && groups.Keys <= state.groups.Keys <= groups.Keys + {DEFAULT_GROUP}
    modifies state`tasks, state`groups
    ensures state.tasks == old(state.tasks)[id := RepairedTask(groups, old(state.tasks)[id])]
    ensures state.groups == GroupsAfter(groups, old(state.groups), old(state.tasks)[id])
  {
    var task := state.tasks[id];
    if IsRunning(task) {
      task := task.(status := Done(Killed));
    }
    if task.status.Locked? {
      task := task.(status := Stashed(None));
    }
    if task.group !in state.groups {
      task := task.(group := DEFAULT_GROUP);
      if DEFAULT_GROUP !in state.groups {
        state.groups := state.groups[DEFAULT_GROUP := Group(GroupStatus.Running, 1)];
      }
    }
    if task.status.Queued? {
      state.groups := state.groups[task.group := state.groups[task.group].(status := GroupStatus.Paused)];
    }
    state.tasks := state.tasks[id := task];
  }

  lemma RepairOneMore(tasks: TaskMap, groups: GroupMap, done: set<TaskId>, id: TaskId,
                      tasks': TaskMap, groups': GroupMap)
    requires id in tasks && id !in done && PartlyRepaired(tasks, groups, done, tasks', groups')
    ensures PartlyRepaired(tasks, groups, done + {id}, tasks'[id := RepairedTask(groups, tasks'[id])],
                           GroupsAfter(groups, groups', tasks'[id]))
  {
    RepairStep(tasks, groups, done, id);
    hide Homeless, HoldsQueued;
    var after := GroupsAfter(groups, groups', tasks'[id]);
    var group := RepairedGroup(groups, tasks[id].group);
    forall g | g in after
      ensures after[g] == RepairedGroupRecord(groups, g, HoldsQueued(tasks, groups, done + {id}, g))
    {
      if g !in groups' {
        assert g == group;
        assert !HoldsQueued(tasks, groups, done, g) by { FreshGroupHoldsNothing(tasks, groups, done, g); }
      }
    }
  }

  lemma FreshGroupHoldsNothing(tasks: TaskMap, groups: GroupMap, done: set<TaskId>, g: string)
    requires g !in groups && (g == DEFAULT_GROUP ==> !Homeless(tasks, groups, done))
    ensures !HoldsQueued(tasks, groups, done, g)
  {
  }

  /** What one more repaired task adds to the two group conditions. */
  lemma RepairStep(tasks: TaskMap, groups: GroupMap, done: set<TaskId>, id: TaskId)
    requires id in tasks
    ensures Homeless(tasks, groups, done + {id}) <==> Homeless(tasks, groups, done) || tasks[id].group !in groups
    ensures forall g :: HoldsQueued(tasks, groups, done + {id}, g) <==>
              HoldsQueued(tasks, groups, done, g) ||
              (tasks[id].status.Queued? && RepairedGroup(groups, tasks[id].group) == g)
  {
    if tasks[id].group !in groups { assert id in done + {id}; }
    if Homeless(tasks, groups, done) {
      var k :| k in done && k in tasks && tasks[k].group !in groups;
      assert k in done + {id};
    }
    forall g ensures HoldsQueued(tasks, groups, done + {id}, g) <==>
              HoldsQueued(tasks, groups, done, g) ||
              (tasks[id].status.Queued? && RepairedGroup(groups, tasks[id].group) == g)
    {
      if HoldsQueued(tasks, groups, done, g) {
        var k :| k in done && k in tasks && tasks[k].status.Queued? && RepairedGroup(groups, tasks[k].group) == g;
        assert k in done + {id};
      }
      if tasks[id].status.Queued? && RepairedGroup(groups, tasks[id].group) == g { assert id in done + {id}; }
    }
  }

  /** The repair loop and the index rebuild, on a freshly loaded state. */
  method RestoreState(state: InternalState)
    modifies state`tasks, state`groups
    ensures Repaired(old(state.tasks), old(state.groups), state.tasks, state.groups)
  {
    ghost var tasks, groups := state.tasks, state.groups;
    var remaining := state.tasks.Keys;
    ghost var done: set<TaskId> := {};
    while remaining != {}
      invariant done + remaining == tasks.Keys && done !! remaining
      invariant PartlyRepaired(tasks, groups, done, state.tasks, state.groups)
    {
      var id :| id in remaining;
      remaining := remaining - {id};
      RepairOneMore(tasks, groups, done, id, state.tasks, state.groups);
      RepairOne(state, id, groups);
      done := done + {id};
    }
    assert done == tasks.Keys;
    BuildReverseDependencyIndex(state);
  }

  /** The restored tasks and groups: repaired throughout, with the index rebuilt. */
  ghost predicate Repaired(tasks: TaskMap, groups: GroupMap, tasks': TaskMap, groups': GroupMap) {
    exists forward :: PartlyRepaired(tasks, groups, tasks.Keys, forward, groups') && tasks' == BuildIndex(forward)
  }

  /** Pools as the main loop sets them up before its first turn. */
  function InitialPools(groups: GroupMap): Pools {
    map g | g in groups :: map[]
  }

  lemma RepairedGroupsExist(tasks: TaskMap, groups: GroupMap, tasks': TaskMap, groups': GroupMap)
    requires Repaired(tasks, groups, tasks', groups')
    ensures tasks'.Keys == tasks.Keys
    ensures forall k :: k in tasks' ==>
      && tasks'[k].status == RepairedStatus(tasks[k].status)
      && tasks'[k].group == RepairedGroup(groups, tasks[k].group)
      && tasks'[k].group in groups'
      && tasks'[k].dependencies == tasks[k].dependencies
      && tasks'[k].id == tasks[k].id
    ensures forall k :: k in tasks' && tasks'[k].status.Queued? ==>
      groups'[tasks'[k].group].status == GroupStatus.Paused
  {
    var forward :| PartlyRepaired(tasks, groups, tasks.Keys, forward, groups') && tasks' == BuildIndex(forward);
    forall k | k in tasks ensures RepairedGroup(groups, tasks[k].group) in groups' {
      if tasks[k].group !in groups { assert Homeless(tasks, groups, tasks.Keys); }
    }
    forall k | k in tasks' && tasks'[k].status.Queued?
      ensures groups'[tasks'[k].group].status == GroupStatus.Paused
    {
      assert HoldsQueued(tasks, groups, tasks.Keys, tasks'[k].group);
    }
  }

  lemma RestoredIndexIsExact(tasks: TaskMap, groups: GroupMap, tasks': TaskMap, groups': GroupMap)
    requires Repaired(tasks, groups, tasks', groups')
    ensures ExactIndex(tasks')
  {
    hide PartlyRepaired, ExactIndex, BuildIndex;
    var forward :| PartlyRepaired(tasks, groups, tasks.Keys, forward, groups') && tasks' == BuildIndex(forward);
    BuildIndexExact(forward);
  }

  /** With every group of a queued task paused, the scheduler finds nothing. */
  lemma PausedStartsNothing(s: State)
    requires forall k :: k in s.tasks && s.tasks[k].status.Queued? ==>
      s.tasks[k].group in s.groups && s.groups[s.tasks[k].group].status == GroupStatus.Paused
    ensures GetNextTaskId(s) == None
  {
    hide SortByOrder;
    forall id | id in s.tasks ensures !Startable(s, id) {
    }
  }

  /** After a restore nothing runs, is paused or is locked; every task's group exists; every group
      with queued tasks is paused; the index is exact; and the scheduler finds nothing to start,
      whatever the pools hold. */
  lemma RestoreRepairs(tasks: TaskMap, groups: GroupMap, tasks': TaskMap, groups': GroupMap, pools: Pools)
    requires Repaired(tasks, groups, tasks', groups')
    ensures forall k :: k in tasks' ==> !IsRunning(tasks'[k]) && !tasks'[k].status.Locked? && tasks'[k].group in groups'
    ensures forall k :: k in tasks' && tasks'[k].status.Queued? ==>
      groups'[tasks'[k].group].status == GroupStatus.Paused
    ensures ExactIndex(tasks')
    ensures GetNextTaskId(State(tasks', groups', pools)) == None
  {
    hide Repaired, ExactIndex, GetNextTaskId;
    RepairedGroupsExist(tasks, groups, tasks', groups');
    RestoredIndexIsExact(tasks, groups, tasks', groups');
    PausedStartsNothing(State(tasks', groups', pools));
  }

  /** Finished, queued and stashed tasks of configured groups come back as they were, and the
      dependencies, hence the absence of cycles, are those of the saved state. */
  lemma RestoreKeeps(tasks: TaskMap, groups: GroupMap, tasks': TaskMap, groups': GroupMap)
    requires Repaired(tasks, groups, tasks', groups')
    ensures forall k :: k in tasks && !IsRunning(tasks[k]) && !tasks[k].status.Locked? && tasks[k].group in groups ==>
      k in tasks' && tasks'[k] == tasks[k].(dependents := tasks'[k].dependents)
    ensures KeyedById(tasks) ==> KeyedById(tasks')
    ensures Acyclic(tasks) ==> Acyclic(tasks')
  {
    RepairedGroupsExist(tasks, groups, tasks', groups');
    var forward :| PartlyRepaired(tasks, groups, tasks.Keys, forward, groups') && tasks' == BuildIndex(forward);
    forall k | k in tasks && !IsRunning(tasks[k]) && !tasks[k].status.Locked? && tasks[k].group in groups
      ensures tasks'[k] == tasks[k].(dependents := tasks'[k].dependents)
    {
      assert forward[k] == RepairedTask(groups, tasks[k]);
    }
    if Acyclic(tasks) {
      var rank: map<TaskId, int>, bound: int :| Ranked(tasks, rank, bound);
      assert Ranked(tasks', rank, bound);
    }
  }

  /** The first turn starts from pools and statuses that agree. */
  lemma RestoredPoolsAgree(tasks: TaskMap, groups: GroupMap, tasks': TaskMap, groups': GroupMap)
    requires Repaired(tasks, groups, tasks', groups')
    ensures PoolsAgree(State(tasks', groups', InitialPools(groups')))
  {
    hide Repaired, RepairedGroup;
    RepairedGroupsExist(tasks, groups, tasks', groups');
  }

  /** What becomes of each saved task: one with a process counts as killed, a locked one is stashed, one
      without a group moves to the default group, and nothing else about it changes. */
  lemma RestoreOutcome(tasks: TaskMap, groups: GroupMap, tasks': TaskMap, groups': GroupMap, k: TaskId)
    requires Repaired(tasks, groups, tasks', groups') && k in tasks
    ensures k in tasks' && tasks'.Keys == tasks.Keys
    ensures tasks'[k].status ==
            match tasks[k].status
            case Running => Done(Killed)
            case Paused => Done(Killed)
            case Locked(_) => Stashed(None)
            case Queued => Queued
            case Stashed(at) => Stashed(at)
            case Done(result) => Done(result)
    ensures tasks'[k].group == if tasks[k].group in groups then tasks[k].group else DEFAULT_GROUP
    ensures tasks'[k].details == tasks[k].details && tasks'[k].priority == tasks[k].priority
    ensures tasks'[k].id == tasks[k].id && tasks'[k].dependencies == tasks[k].dependencies
    ensures forall b :: b in tasks'[k].dependents <==> b in tasks && k in tasks[b].dependencies
  {
    var forward: TaskMap :|
      PartlyRepaired(tasks, groups, tasks.Keys, forward, groups') && tasks' == BuildIndex(forward);
    assert forward[k] == RepairedTask(groups, tasks[k]);
    forall b | b in tasks ensures b in forward && forward[b].dependencies == tasks[b].dependencies {
      assert forward[b] == RepairedTask(groups, tasks[b]);
    }
  }

  /** A queued task that ends up in the group, its own or the default one. */
  ghost predicate QueuedFor(tasks: TaskMap, groups: GroupMap, k: TaskId, group: string) {
    && k in tasks && tasks[k].status == Queued
    && (tasks[k].group == group || (tasks[k].group !in groups && group == DEFAULT_GROUP))
  }

  /** What becomes of the groups: those that queued tasks end up in are paused, the others keep their
      records, and the default group comes into being, with one slot, exactly when it is missing and needed. */
  lemma RestoredGroups(tasks: TaskMap, groups: GroupMap, tasks': TaskMap, groups': GroupMap, group: string)
    requires Repaired(tasks, groups, tasks', groups')
    ensures group in groups' <==>
            group in groups || (group == DEFAULT_GROUP && exists k :: k in tasks && tasks[k].group !in groups)
    ensures group in groups' && (forall k :: !QueuedFor(tasks, groups, k, group)) ==>
            groups'[group] == if group in groups then groups[group] else Group(GroupStatus.Running, 1)
    ensures group in groups' && (exists k :: QueuedFor(tasks, groups, k, group)) ==>
            groups'[group] == Group(GroupStatus.Paused, if group in groups then groups[group].parallelTasks else 1)
  {
    hide QueuedFor, HoldsQueued, RepairedTask, BuildIndex;
    var forward: TaskMap :|
      PartlyRepaired(tasks, groups, tasks.Keys, forward, groups') && tasks' == BuildIndex(forward);
    if group in groups' { HoldsQueuedIff(tasks, groups, group); }
    HomelessIff(tasks, groups);
  }

  lemma HoldsQueuedIff(tasks: TaskMap, groups: GroupMap, group: string)
    requires group in groups || group == DEFAULT_GROUP
    ensures HoldsQueued(tasks, groups, tasks.Keys, group) <==> exists k :: QueuedFor(tasks, groups, k, group)
  {
    if k :| QueuedFor(tasks, groups, k, group) {
      assert k in tasks.Keys && RepairedGroup(groups, tasks[k].group) == group;
    }
    if HoldsQueued(tasks, groups, tasks.Keys, group) {
      var k :| k in tasks && tasks[k].status.Queued? && RepairedGroup(groups, tasks[k].group) == group;
      assert QueuedFor(tasks, groups, k, group);
    }
  }

  lemma HomelessIff(tasks: TaskMap, groups: GroupMap)
    ensures Homeless(tasks, groups, tasks.Keys) <==> exists k :: k in tasks && tasks[k].group !in groups
  {
    if k :| k in tasks && tasks[k].group !in groups {
      assert k in tasks.Keys;
    }
  }

  /** A task whose process was lost with the daemon holds its dependants back for good. */
  lemma InterruptedBlocksDependants(tasks: TaskMap, groups: GroupMap, tasks': TaskMap, groups': GroupMap,
                                    k: TaskId, j: TaskId)
    requires Repaired(tasks, groups, tasks', groups') && k in tasks && j in tasks && k in tasks[j].dependencies
    requires tasks[k].status == TaskStatus.Running || tasks[k].status == TaskStatus.Paused
    ensures j in tasks' && HasFailedDependency(tasks', tasks'[j]) && !Ready(tasks', j)
  {
    RestoreOutcome(tasks, groups, tasks', groups', k);
    RestoreOutcome(tasks, groups, tasks', groups', j);
    assert HasFailed(tasks'[k]);
  }
}
