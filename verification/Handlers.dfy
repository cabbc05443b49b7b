/** The remaining commands: starting, pausing, restarting, groups, resets, and plain status changes. */
module Handlers {
  import opened Lists
  import opened Tasks
  import opened Scheduler
  import opened TaskLoop

  datatype Selection = TaskIds(ids: seq<TaskId>) | InGroup(name: string) | Everything

  /** A request on single tasks goes ahead unless none of the named ones qualifies. */
  predicate SomeMatch(tasks: TaskMap, condition: Task -> bool, ids: seq<TaskId>) {
    ids == [] || Matching(tasks, condition, ids) != []
  }

  function SetAllGroups(groups: GroupMap, status: GroupStatus): GroupMap {
    map g | g in groups :: groups[g].(status := status)
  }

  function SetGroup(groups: GroupMap, name: string, status: GroupStatus): GroupMap {
    if name in groups then groups[name := groups[name].(status := status)] else groups
  }

  function ChildIds(pools: Pools): set<TaskId> {
    set g, w | g in pools && w in pools[g] :: pools[g][w]
  }

  function PausedIn(tasks: TaskMap, group: string): set<TaskId> {
    set k | k in tasks && tasks[k].group == group && tasks[k].status.Paused?
  }

  function RunningIn(tasks: TaskMap, group: string): set<TaskId> {
    set k | k in tasks && tasks[k].group == group && tasks[k].status.Running?
  }

  // -- start ------------------------------------------------------------------------------------------------

  predicate IsStartable(task: Task) {
    task.status.Paused? || task.status.Queued? || task.status.Stashed?
  }

  function ResumeTask(task: Task): Task {
    if task.status.Paused? then task.(status := TaskStatus.Running) else task
  }

  /** Paused tasks that have a child which can be signalled run again. */
  function Resumed(s: State, ids: set<TaskId>, deaf: set<TaskId>): State {
    s.(tasks := Updated(s.tasks, ids * ChildIds(s.pools) - deaf, ResumeTask))
  }

  /** Named tasks are resumed if they have a child, and started by force otherwise. */
  function StartIds(s: State, settings: Settings, ids: seq<TaskId>, spawnFails: set<TaskId>, deaf: set<TaskId>): State
    decreases |ids|
  {
    if ids == [] then s
    else
      var next := if ids[0] in ChildIds(s.pools) then Resumed(s, {ids[0]}, deaf)
                  else Spawned(s, settings, ids[0], spawnFails);
      StartIds(next, settings, ids[1..], spawnFails, deaf)
  }

  function Started(s: State, settings: Settings, selection: Selection,
                   spawnFails: set<TaskId>, deaf: set<TaskId>): State
  {
    match selection
    case TaskIds(ids) =>
      if SomeMatch(s.tasks, IsStartable, ids) then StartIds(s, settings, ids, spawnFails, deaf) else s
    case InGroup(name) =>
      if name in s.groups then
        Resumed(s.(groups := SetGroup(s.groups, name, GroupStatus.Running)),
                PausedIn(s.tasks, name), deaf)
      else s
    case Everything =>
      Resumed(s.(groups := SetAllGroups(s.groups, GroupStatus.Running)), ChildIds(s.pools), deaf)
  }

  lemma {:induction false} StartIdsKeepsPoolNames(s: State, settings: Settings, id: TaskId, spawnFails: set<TaskId>)
    ensures Spawned(s, settings, id, spawnFails).pools.Keys == s.pools.Keys
    ensures Spawned(s, settings, id, spawnFails).tasks.Keys == s.tasks.Keys
    ensures forall k :: k in s.tasks ==> Spawned(s, settings, id, spawnFails).tasks[k].group == s.tasks[k].group
  {
  }

  ghost predicate TaskGroupsHavePools(s: State) {
    forall k :: k in s.tasks ==> s.tasks[k].group in s.pools
  }

  /** Named tasks as the process handler starts them, without asking what qualifies: a restart with
      an immediate start comes here directly. */
  method StartNamed(state: InternalState, settings: Settings, ids: seq<TaskId>,
                    spawnFails: set<TaskId>, deaf: set<TaskId>)
    requires TaskGroupsHavePools(state.Value())
    modifies state`tasks, state`groups, state`children
    ensures state.Value() == StartIds(old(state.Value()), settings, ids, spawnFails, deaf)
  {
    ghost var before := state.Value();
    for i := 0 to |ids|
      invariant TaskGroupsHavePools(state.Value())
      invariant StartIds(before, settings, ids, spawnFails, deaf) ==
                StartIds(state.Value(), settings, ids[i..], spawnFails, deaf)
    {
      assert ids[i..][0] == ids[i] && ids[i..][1..] == ids[i + 1..];
      StartIdsKeepsPoolNames(state.Value(), settings, ids[i], spawnFails);
      if ids[i] in ChildIds(state.children) {
        state.UpdateTasks({ids[i]} * ChildIds(state.children) - deaf, ResumeTask);
      } else {
        SpawnProcess(state, settings, ids[i], spawnFails);
      }
    }
  }

  /** `pueue start`. */
  method Start(state: InternalState, settings: Settings, selection: Selection,
               spawnFails: set<TaskId>, deaf: set<TaskId>)
    requires TaskGroupsHavePools(state.Value())
    modifies state`tasks, state`groups, state`children
    ensures state.Value() == Started(old(state.Value()), settings, selection, spawnFails, deaf)
  {
    var paused: set<TaskId> := {};
    match selection {
      case TaskIds(ids) =>
        if SomeMatch(state.tasks, IsStartable, ids) {
          StartNamed(state, settings, ids, spawnFails, deaf);
        }
        return;
      case InGroup(name) =>
        if name !in state.groups {
          return;
        }
        state.groups := SetGroup(state.groups, name, GroupStatus.Running);
        paused := PausedIn(state.tasks, name);
      case Everything =>
        state.groups := SetAllGroups(state.groups, GroupStatus.Running);
        paused := ChildIds(state.children);
    }
    state.UpdateTasks(paused * ChildIds(state.children) - deaf, ResumeTask);
  }

  // -- pause ------------------------------------------------------------------------------------------------

  predicate IsUnpaused(task: Task) { task.status.Running? }

  function PauseTask(task: Task): Task {
    if IsRunning(task) then task.(status := TaskStatus.Paused) else task
  }

  function PausedTasks(s: State, ids: set<TaskId>, wait: bool, deaf: set<TaskId>): State {
    if wait then s else s.(tasks := Updated(s.tasks, ids * ChildIds(s.pools) - deaf, PauseTask))
  }

  /** The ids before the first that names no task. */
  function KnownPrefix(tasks: TaskMap, ids: seq<TaskId>): seq<TaskId> {
    if ids == [] || ids[0] !in tasks then [] else [ids[0]] + KnownPrefix(tasks, ids[1..])
  }

  lemma {:induction false} KnownPrefixIs(tasks: TaskMap, ids: seq<TaskId>, i: nat)
    requires i <= |ids| && (forall id :: id in ids[..i] ==> id in tasks) && (i < |ids| ==> ids[i] !in tasks)
    ensures KnownPrefix(tasks, ids) == ids[..i]
  {
    if i > 0 {
      assert ids[0] == ids[..i][0];
      assert ids[1..][..i - 1] == ids[..i][1..];
      KnownPrefixIs(tasks, ids[1..], i - 1);
      assert ids[..i] == [ids[0]] + ids[1..][..i - 1];
    }
  }

  /** Pausing named tasks looks each of them up without a check: a request with some running and
      some missing task panics, one without any running task is refused before that. */
  predicate PausePanics(s: State, selection: Selection, wait: bool) {
    && !wait && selection.TaskIds? && SomeMatch(s.tasks, IsUnpaused, selection.ids)
    && exists id :: id in selection.ids && id !in s.tasks
  }

  /** What the request leaves behind; a panic leaves the tasks named before the missing one paused. */
  function PausedSelection(s: State, selection: Selection, wait: bool, deaf: set<TaskId>): State {
    match selection
    case TaskIds(ids) =>
      if SomeMatch(s.tasks, IsUnpaused, ids) then PausedTasks(s, Elems(KnownPrefix(s.tasks, ids)), wait, deaf) else s
    case InGroup(name) =>
      if name in s.groups then
        PausedTasks(s.(groups := SetGroup(s.groups, name, GroupStatus.Paused)),
                    RunningIn(s.tasks, name), wait, deaf)
      else s
    case Everything =>
      PausedTasks(s.(groups := SetAllGroups(s.groups, GroupStatus.Paused)), ChildIds(s.pools), wait, deaf)
  }

  lemma PauseOneMore(tasks: TaskMap, ids: set<TaskId>, id: TaskId)
    requires id in tasks
    ensures var step := Updated(tasks, ids, PauseTask);
      && id in step
      && Updated(tasks, ids + {id}, PauseTask) == step[id := PauseTask(step[id])]
  {
  }

  /** Pauses one task after the other; a missing one is the end of the daemon. */
  method PauseKeys(state: InternalState, keys: seq<TaskId>, deaf: set<TaskId>) returns (panics: bool)
    modifies state`tasks
    ensures state.tasks == Updated(old(state.tasks),
      Elems(KnownPrefix(old(state.tasks), keys)) * ChildIds(state.children) - deaf, PauseTask)
    ensures panics <==> exists id :: id in keys && id !in old(state.tasks)
  {
    hide ChildIds;
    ghost var before := state.tasks;
    var reachable := ChildIds(state.children) - deaf;
    assert Updated(before, {}, PauseTask) == before;
    assert Elems(keys[..0]) * reachable == {};
    for i := 0 to |keys|
      invariant state.tasks == Updated(before, Elems(keys[..i]) * reachable, PauseTask)
      invariant forall id :: id in keys[..i] ==> id in before
    {
      var id := keys[i];
      if id !in state.tasks {
        KnownPrefixIs(before, keys, i);
        assert Elems(keys[..i]) * reachable == Elems(keys[..i]) * ChildIds(state.children) - deaf;
        return true;
      }
      PauseOneMore(before, Elems(keys[..i]) * reachable, id);
      assert Elems(keys[..i + 1]) * reachable ==
             Elems(keys[..i]) * reachable + if id in reachable then {id} else {} by {
        assert keys[..i + 1] == keys[..i] + [id];
      }
      if IsRunning(state.tasks[id]) && id in reachable {
        state.tasks := state.tasks[id := state.tasks[id].(status := TaskStatus.Paused)];
      }
    }
    assert keys[..|keys|] == keys;
    KnownPrefixIs(before, keys, |keys|);
    assert Elems(keys) * reachable == Elems(keys) * ChildIds(state.children) - deaf;
    return false;
  }

  lemma AllKnown(tasks: TaskMap, ids: set<TaskId>)
    requires ids <= tasks.Keys
    ensures Elems(KnownPrefix(tasks, SortedSeq(ids))) == ids
  {
    var list := SortedSeq(ids);
    assert list[..|list|] == list;
    KnownPrefixIs(tasks, list, |list|);
  }

  /** `pueue pause`, with the panic as an outcome. For groups and for everything the lookups succeed
      because children belong to existing tasks. */
  method Pause(state: InternalState, selection: Selection, wait: bool, deaf: set<TaskId>) returns (panics: bool)
    requires ChildrenKnown(state.Value())
    modifies state`tasks, state`groups
    ensures panics <==> PausePanics(old(state.Value()), selection, wait)
    ensures state.Value() == PausedSelection(old(state.Value()), selection, wait, deaf)
  {
    var keys: seq<TaskId> := [];
    match selection {
      case TaskIds(named) =>
        if !SomeMatch(state.tasks, IsUnpaused, named) {
          return false;
        }
        keys := named;
      case InGroup(name) =>
        if name !in state.groups {
          return false;
        }
        state.groups := SetGroup(state.groups, name, GroupStatus.Paused);
        keys := SortedSeq(RunningIn(state.tasks, name));
        AllKnown(state.tasks, RunningIn(state.tasks, name));
      case Everything =>
        state.groups := SetAllGroups(state.groups, GroupStatus.Paused);
        keys := SortedSeq(ChildIds(state.children));
        AllKnown(state.tasks, ChildIds(state.children));
    }
    if wait {
      return false;
    }
    panics := PauseKeys(state, keys, deaf);
  }

  /** A concrete request of each kind: one panics, one is refused. */
  lemma PauseOfMissingTask(details: Details)
    ensures var running := map[0 := Task(0, details, DEFAULT_GROUP, {}, {}, 0, TaskStatus.Running)];
      var s := State(running, map[DEFAULT_GROUP := Group(GroupStatus.Running, 1)], map[DEFAULT_GROUP := map[0 := 0]]);
      && PausePanics(s, TaskIds([0, 7]), false)
      && !PausePanics(s, TaskIds([7]), false) && PausedSelection(s, TaskIds([7]), false, {}) == s
  {
    var running := map[0 := Task(0, details, DEFAULT_GROUP, {}, {}, 0, TaskStatus.Running)];
    assert 0 in Matching(running, IsUnpaused, [0, 7]);
    assert 7 in [0, 7];
    var none := Matching(running, IsUnpaused, [7]);
    FirstIsMember(none);
  }

  // -- restart in place -------------------------------------------------------------------------------------

  datatype RestartItem = RestartItem(id: TaskId, details: Details, priority: int)

  function RestartedTask(task: Task, item: RestartItem, stashed: bool): Task {
    task.(status := if stashed then Stashed(None) else Queued, details := item.details, priority := item.priority)
  }

  function Restarted(tasks: TaskMap, items: seq<RestartItem>, stashed: bool): TaskMap {
    if items == [] then tasks
    else if items[0].id in tasks && IsDone(tasks[items[0].id]) then
      Restarted(tasks[items[0].id := RestartedTask(tasks[items[0].id], items[0], stashed)], items[1..], stashed)
    else Restarted(tasks, items[1..], stashed)
  }

  method Restart(state: InternalState, items: seq<RestartItem>, stashed: bool)
    modifies state`tasks
    ensures state.tasks == Restarted(old(state.tasks), items, stashed)
  {
    ghost var before := state.tasks;
    for i := 0 to |items|
      invariant Restarted(before, items, stashed) == Restarted(state.tasks, items[i..], stashed)
    {
      var item := items[i];
      assert items[i..][0] == item && items[i..][1..] == items[i + 1..];
      if item.id in state.tasks && IsDone(state.tasks[item.id]) {
        state.tasks := state.tasks[item.id := RestartedTask(state.tasks[item.id], item, stashed)];
      }
    }
  }

  /** The first item that names the task. */
  ghost predicate FirstNaming(items: seq<RestartItem>, i: nat, k: TaskId) {
    i < |items| && items[i].id == k && forall j :: 0 <= j < i ==> items[j].id != k
  }

  lemma {:induction false} RestartLeaves(tasks: TaskMap, items: seq<RestartItem>, stashed: bool, k: TaskId)
    requires k in tasks && (!tasks[k].status.Done? || forall i :: 0 <= i < |items| ==> items[i].id != k)
    ensures var after := Restarted(tasks, items, stashed);
      after.Keys == tasks.Keys && after[k] == tasks[k]
  {
    if items != [] {
      var item := items[0];
      var next := if item.id in tasks && IsDone(tasks[item.id])
                  then tasks[item.id := RestartedTask(tasks[item.id], item, stashed)] else tasks;
      forall i | 0 <= i < |items[1..]| ensures items[1..][i] == items[i + 1] {
      }
      RestartLeaves(next, items[1..], stashed, k);
    }
  }

  /** A finished task takes over what the first item that names it says and waits again, stashed or in
      the queue; what else names it finds it unfinished. Every other record stays. */
  lemma {:induction false} RestartOutcome(tasks: TaskMap, items: seq<RestartItem>, stashed: bool, k: TaskId, i: nat)
    requires k in tasks && FirstNaming(items, i, k)
    ensures var before, after := tasks[k], Restarted(tasks, items, stashed);
      && after.Keys == tasks.Keys
      && (!before.status.Done? ==> after[k] == before)
      && (before.status.Done? ==>
            && (after[k].status == Stashed(None) <==> stashed) && (after[k].status == Queued <==> !stashed)
            && after[k].details == items[i].details && after[k].priority == items[i].priority
            && after[k].id == before.id && after[k].group == before.group
            && after[k].dependencies == before.dependencies && after[k].dependents == before.dependents)
    decreases |items|
  {
    var item, rest := items[0], items[1..];
    var next := if item.id in tasks && IsDone(tasks[item.id])
                then tasks[item.id := RestartedTask(tasks[item.id], item, stashed)] else tasks;
    if !tasks[k].status.Done? {
      RestartLeaves(tasks, items, stashed, k);
    } else if i == 0 {
      RestartLeaves(next, rest, stashed, k);
    } else {
      assert items[0].id != k;
      assert FirstNaming(rest, i - 1, k) by {
        assert forall j :: 0 <= j < |rest| ==> rest[j] == items[j + 1];
      }
      RestartOutcome(next, rest, stashed, k, i - 1);
      assert rest[i - 1] == items[i];
    }
  }

  // -- groups -----------------------------------------------------------------------------------------------

  function GroupAdded(s: State, name: string, parallelTasks: Option<nat>): State {
    if name in s.groups then s
    else
      var limit := if parallelTasks.Some? then parallelTasks.value else 1;
      s.(groups := s.groups[name := Group(GroupStatus.Running, limit)], pools := s.pools[name := map[]])
  }

  method AddGroup(state: InternalState, name: string, parallelTasks: Option<nat>) returns (response: Response)
    modifies state`groups, state`children
    ensures state.Value() == GroupAdded(old(state.Value()), name, parallelTasks)
    ensures response == if name in old(state.groups) then Rejected else Accepted
  {
    if name in state.groups {
      return Rejected;
    }
    var limit := if parallelTasks.Some? then parallelTasks.value else 1;
    state.groups := state.groups[name := Group(GroupStatus.Running, limit)];
    state.children := state.children[name := map[]];
    return Accepted;
  }

  predicate GroupRemovable(s: State, name: string) {
    && name in s.groups && name != DEFAULT_GROUP
    && forall k :: k in s.tasks ==> s.tasks[k].group != name
  }

  function GroupRemoved(s: State, name: string): State {
    if GroupRemovable(s, name) then s.(groups := s.groups - {name}, pools := s.pools - {name}) else s
  }

  /** The two emergency branches shut the daemon down. */
  method RemoveGroup(state: InternalState, name: string) returns (response: Response)
    modifies state
    ensures response == Critical <==> GroupRemovable(old(state.Value()), name) &&
                                      (name !in old(state.children) || old(state.children)[name] != map[])
    ensures response == Critical ==> state.shutdown && state.Value() == old(state.Value())
    ensures response != Critical ==> state.shutdown == old(state.shutdown) &&
                                     state.Value() == GroupRemoved(old(state.Value()), name)
    ensures response == Accepted ==> GroupRemovable(old(state.Value()), name)
  {
    if name !in state.groups {
      return Rejected;
    }
    if name == DEFAULT_GROUP {
      return Rejected;
    }
    if exists k :: k in state.tasks && state.tasks[k].group == name {
      return Rejected;
    }
    if name in state.children {
      if state.children[name] != map[] {
        state.shutdown := true;
        return Critical;
      }
    } else {
      state.shutdown := true;
      return Critical;
    }
    state.groups := state.groups - {name};
    state.children := state.children - {name};
    return Accepted;
  }

  // -- resets -----------------------------------------------------------------------------------------------

  function MarkedForReset(groups: GroupMap, names: set<string>): GroupMap {
    map g | g in groups :: if g in names then groups[g].(status := GroupStatus.Reset) else groups[g]
  }

  datatype ResetTarget = AllGroups | SomeGroups(names: seq<string>)

  function ResetMarked(s: State, target: ResetTarget): State {
    match target
    case AllGroups => s.(groups := MarkedForReset(s.groups, s.groups.Keys))
    case SomeGroups(names) =>
      if forall name :: name in names ==> name in s.groups
      then s.(groups := MarkedForReset(s.groups, set name | name in names)) else s
  }

  /** Groups are marked; their children are killed and end on their own. */
  method ResetGroups(state: InternalState, target: ResetTarget) returns (ok: bool)
    modifies state`groups
    ensures state.Value() == ResetMarked(old(state.Value()), target)
    ensures ok <==> target.AllGroups? || forall name :: name in target.names ==> name in old(state.groups)
    ensures !ok ==> state.groups == old(state.groups)
  {
    match target {
      case AllGroups =>
        state.groups := map g | g in state.groups :: state.groups[g].(status := GroupStatus.Reset);
        return true;
      case SomeGroups(names) =>
        if exists name :: name in names && name !in state.groups {
          return false;
        }
        ghost var before := state.groups;
        for i := 0 to |names|
          invariant state.groups == MarkedForReset(before, set name | name in names[..i])
        {
          assert names[..i + 1] == names[..i] + [names[i]];
          assert names[i] in names;
          state.groups := state.groups[names[i] := state.groups[names[i]].(status := GroupStatus.Reset)];
        }
        assert names[..|names|] == names;
        return true;
    }
  }

  // -- plain status and group changes -----------------------------------------------------------------------

  predicate Selected(s: State, selection: Selection, k: TaskId) {
    k in s.tasks &&
    match selection
    case TaskIds(ids) => k in ids
    case InGroup(name) => s.tasks[k].group == name
    case Everything => true
  }

  predicate Stashable(task: Task) { task.status.Queued? || task.status.Locked? }

  predicate Enqueueable(task: Task) { task.status.Stashed? || task.status.Locked? }

  function ToStatus(status: TaskStatus): Task -> Task {
    (task: Task) => task.(status := status)
  }

  function StashedSelection(s: State, selection: Selection, enqueueAt: Option<int>): State {
    s.(tasks := map k | k in s.tasks ::
      if Selected(s, selection, k) && Stashable(s.tasks[k])
      then s.tasks[k].(status := Stashed(enqueueAt)) else s.tasks[k])
  }

  function EnqueuedSelection(s: State, selection: Selection, enqueueAt: Option<int>): State {
    s.(tasks := map k | k in s.tasks ::
      if Selected(s, selection, k) && Enqueueable(s.tasks[k])
      then s.tasks[k].(status := if enqueueAt.Some? then Stashed(enqueueAt) else Queued) else s.tasks[k])
  }

  method Stash(state: InternalState, selection: Selection, enqueueAt: Option<int>)
    modifies state`tasks
    ensures state.Value() == StashedSelection(old(state.Value()), selection, enqueueAt)
  {
    hide Selected;
    var s := State(state.tasks, state.groups, state.children);
    var ids := set k | k in s.tasks && Selected(s, selection, k) && Stashable(s.tasks[k]);
    state.UpdateTasks(ids, ToStatus(Stashed(enqueueAt)));
  }

  method Enqueue(state: InternalState, selection: Selection, enqueueAt: Option<int>)
    modifies state`tasks
    ensures state.Value() == EnqueuedSelection(old(state.Value()), selection, enqueueAt)
  {
    hide Selected;
    var s := State(state.tasks, state.groups, state.children);
    var ids := set k | k in s.tasks && Selected(s, selection, k) && Enqueueable(s.tasks[k]);
    state.UpdateTasks(ids, ToStatus(if enqueueAt.Some? then Stashed(enqueueAt) else Queued));
  }

  predicate HasUpcoming(s: State, group: string) {
    exists k :: k in s.tasks && s.tasks[k].group == group && IsQueued(s.tasks[k])
  }

  /** A kill by the user pauses a group that still has tasks to come; the children end later. */
  function KillRequested(s: State, selection: Selection): State {
    match selection
    case TaskIds(_) => s
    case InGroup(name) =>
      if name in s.groups && HasUpcoming(s, name) then s.(groups := SetGroup(s.groups, name, GroupStatus.Paused)) else s
    case Everything =>
      if exists g :: g in s.groups && HasUpcoming(s, g)
      then s.(groups := SetAllGroups(s.groups, GroupStatus.Paused)) else s
  }

  function ParallelSet(s: State, group: string, parallelTasks: nat): State {
    if group in s.groups then s.(groups := s.groups[group := s.groups[group].(parallelTasks := parallelTasks)]) else s
  }

  /** `pueue kill`: the signals are sent, the children end when they do. */
  method Kill(state: InternalState, selection: Selection)
    modifies state`groups
    ensures state.Value() == KillRequested(old(state.Value()), selection)
  {
    hide HasUpcoming;
    ghost var before := state.Value();
    match selection {
      case TaskIds(_) =>
      case InGroup(name) =>
        if name in state.groups {
          if HasUpcoming(State(state.tasks, state.groups, state.children), name) {
            state.groups := SetGroup(state.groups, name, GroupStatus.Paused);
          }
        }
      case Everything =>
        var remaining := state.groups.Keys;
        while remaining != {}
          invariant remaining <= before.groups.Keys
          invariant state.groups == if exists g :: g in before.groups.Keys - remaining && HasUpcoming(before, g)
                                    then SetAllGroups(before.groups, GroupStatus.Paused) else before.groups
        {
          var name :| name in remaining;
          remaining := remaining - {name};
          UpcomingIsAboutTasks(before, State(state.tasks, state.groups, state.children), name);
          if HasUpcoming(State(state.tasks, state.groups, state.children), name) {
            state.groups := SetAllGroups(state.groups, GroupStatus.Paused);
          }
        }
    }
  }

  lemma UpcomingIsAboutTasks(s: State, s': State, group: string)
    requires s.tasks == s'.tasks
    ensures HasUpcoming(s, group) <==> HasUpcoming(s', group)
  {
  }

  method SetParallelTasks(state: InternalState, group: string, parallelTasks: nat) returns (ok: bool)
    modifies state`groups
    ensures ok <==> group in old(state.groups)
    ensures state.Value() == ParallelSet(old(state.Value()), group, parallelTasks)
  {
    if group !in state.groups {
      return false;
    }
    state.groups := state.groups[group := state.groups[group].(parallelTasks := parallelTasks)];
    return true;
  }
}
