/** Picking and starting tasks: the worker pools and the daemon's greedy scheduler. */
module Scheduler {
  import opened Lists
  import opened Tasks

  // -- worker ids -------------------------------------------------------------------------------------------

  /** The smallest number from `start` on that is not taken. */
  function LeastFree(taken: set<nat>, start: nat): (r: nat)
    ensures r >= start && r !in taken
    ensures forall w :: start <= w < r ==> w in taken
    ensures r <= start + |taken|
    decreases |taken|
  {
    if start in taken then
      var r := LeastFree(taken - {start}, start + 1);
      assert r !in taken - {start};
      assert forall w :: start <= w < r ==> w in taken by {
        forall w | start <= w < r ensures w in taken {
          assert w == start || w in taken - {start};
        }
      }
      assert |taken - {start}| == |taken| - 1;
      r
    else start
  }

  lemma LeastFreeIs(taken: set<nat>, w: nat)
    requires w !in taken && forall v :: 0 <= v < w ==> v in taken
    ensures LeastFree(taken, 0) == w
  {
  }

  /** The linear scan over the pool's sorted keys finds the least free slot. */
  method GetNextGroupWorker(pool: map<nat, TaskId>) returns (worker: nat)
    ensures worker == LeastFree(pool.Keys, 0)
  {
    var keys := SortedSeq(pool.Keys);
    worker := 0;
    while worker < |keys| && keys[worker] == worker
      invariant worker <= |keys|
      invariant forall i :: 0 <= i < worker ==> keys[i] == i
      decreases |keys| - worker
    {
      worker := worker + 1;
    }
    forall v | 0 <= v < worker ensures v in pool.Keys {
      assert keys[v] in keys;
    }
    ScanStops(keys, worker);
    LeastFreeIs(pool.Keys, worker);
  }

  lemma ScanStops(keys: seq<nat>, worker: nat)
    requires StrictlySorted(keys) && worker <= |keys|
    requires forall j :: 0 <= j < worker ==> keys[j] == j
    requires worker < |keys| ==> keys[worker] != worker
    ensures worker !in keys
  {
    if worker < |keys| {
      IndexBelowValue(keys, worker);
    }
    forall i | 0 <= i < |keys| ensures keys[i] != worker {
      assert worker < i ==> keys[worker] < keys[i];
    }
  }

  lemma {:induction false} IndexBelowValue(keys: seq<nat>, i: nat)
    requires StrictlySorted(keys) && i < |keys|
    ensures i <= keys[i]
  {
    if i > 0 { IndexBelowValue(keys, i - 1); }
  }

  // -- failures ---------------------------------------------------------------------------------------------

  /** `pause_on_failure` for a task of the group. */
  function PauseOnFailure(groups: GroupMap, settings: Settings, group: string): GroupMap {
    if settings.pauseGroupOnFailure then
      if group in groups then groups[group := groups[group].(status := GroupStatus.Paused)] else groups
    else if settings.pauseAllOnFailure then
      map g | g in groups :: groups[g].(status := GroupStatus.Paused)
    else groups
  }

  // -- starting one task ------------------------------------------------------------------------------------

  /** Locked tasks are accepted, stashed ones are not. */
  predicate Spawnable(task: Task) { task.status.Queued? || task.status.Locked? }

  function SetStatus(tasks: TaskMap, id: TaskId, status: TaskStatus): TaskMap
    requires id in tasks
  {
    tasks[id := tasks[id].(status := status)]
  }

  function PutChild(pools: Pools, group: string, worker: nat, id: TaskId): Pools
    requires group in pools
  {
    var pool: map<nat, TaskId> := pools[group];
    pools[group := pool[worker := id]]
  }

  function AddChild(pools: Pools, group: string, id: TaskId): Pools
    requires group in pools
  {
    PutChild(pools, group, LeastFree(pools[group].Keys, 0), id)
  }

  /** Starting a task whose command spawns, or fails to. `Locked` and `Queued` tasks need a pool
      for their group; the daemon panics without one. */
  function Spawned(s: State, settings: Settings, id: TaskId, spawnFails: set<TaskId>): State {
    if id !in s.tasks || !Spawnable(s.tasks[id]) || s.tasks[id].group !in s.pools then s
    else if id in spawnFails then
      State(SetStatus(s.tasks, id, Done(FailedToSpawn)),
            PauseOnFailure(s.groups, settings, s.tasks[id].group), s.pools)
    else
      State(SetStatus(s.tasks, id, TaskStatus.Running), s.groups, AddChild(s.pools, s.tasks[id].group, id))
  }

  method SpawnProcess(state: InternalState, settings: Settings, id: TaskId, spawnFails: set<TaskId>)
    requires id in state.tasks && Spawnable(state.tasks[id]) ==> state.tasks[id].group in state.children
    modifies state`tasks, state`groups, state`children
    ensures state.Value() == Spawned(old(state.Value()), settings, id, spawnFails)
  {
    if id !in state.tasks {
      return;
    }
    var task := state.tasks[id];
    match task.status {
      case Stashed(_) => return;
      case Paused => return;
      case Running => return;
      case Done(_) => return;
      case Queued =>
      case Locked(_) =>
    }
    var worker := GetNextGroupWorker(state.children[task.group]);
    if id in spawnFails {
      state.tasks := state.tasks[id := task.(status := Done(FailedToSpawn))];
      state.groups := PauseOnFailure(state.groups, settings, task.group);
      return;
    }
    state.children := PutChild(state.children, task.group, worker, id);
    state.tasks := state.tasks[id := task.(status := TaskStatus.Running)];
  }

  // -- picking the next task --------------------------------------------------------------------------------

  predicate HasFreeSlot(s: State, group: string) {
    && group in s.groups && s.groups[group].status == GroupStatus.Running
    && (s.groups[group].parallelTasks == 0
        || (group in s.pools && |s.pools[group]| < s.groups[group].parallelTasks))
  }

  /** Every dependency that still exists has succeeded. */
  predicate DependenciesMet(tasks: TaskMap, task: Task) {
    forall d :: d in task.dependencies ==> d in tasks ==> Succeeded(tasks[d])
  }

  predicate Ready(tasks: TaskMap, id: TaskId) {
    id in tasks && tasks[id].status.Queued? && DependenciesMet(tasks, tasks[id])
  }

  predicate Startable(s: State, id: TaskId) {
    Ready(s.tasks, id) && HasFreeSlot(s, s.tasks[id].group)
  }

  /** Higher priority first, then lower id. */
  predicate Before(tasks: TaskMap, a: TaskId, b: TaskId)
    requires a in tasks && b in tasks
  {
    tasks[a].priority > tasks[b].priority || (tasks[a].priority == tasks[b].priority && a < b)
  }

  function InsertByOrder(tasks: TaskMap, id: TaskId, ids: seq<TaskId>): (r: seq<TaskId>)
    requires id in tasks && forall x :: x in ids ==> x in tasks
    ensures forall x :: x in r <==> x == id || x in ids
  {
    if ids == [] || Before(tasks, id, ids[0]) then [id] + ids
    else [ids[0]] + InsertByOrder(tasks, id, ids[1..])
  }

  function SortByOrder(tasks: TaskMap, ids: seq<TaskId>): (r: seq<TaskId>)
    requires forall x :: x in ids ==> x in tasks
    ensures forall x :: x in r <==> x in ids
  {
    if ids == [] then [] else InsertByOrder(tasks, ids[0], SortByOrder(tasks, ids[1..]))
  }

  ghost predicate Heads(tasks: TaskMap, ids: seq<TaskId>)
    requires forall x :: x in ids ==> x in tasks
  {
    ids != [] ==> forall x :: x in ids && x != ids[0] ==> Before(tasks, ids[0], x)
  }

  lemma InsertKeepsHead(tasks: TaskMap, id: TaskId, ids: seq<TaskId>)
    requires id in tasks && forall x :: x in ids ==> x in tasks
    requires Heads(tasks, ids)
    ensures Heads(tasks, InsertByOrder(tasks, id, ids))
  {
    if ids != [] && !Before(tasks, id, ids[0]) {
      var rest := InsertByOrder(tasks, id, ids[1..]);
      assert forall x :: x in rest ==> x == id || x in ids;
    }
  }

  lemma {:induction false} SortHasLeastHead(tasks: TaskMap, ids: seq<TaskId>)
    requires forall x :: x in ids ==> x in tasks
    ensures Heads(tasks, SortByOrder(tasks, ids))
  {
    if ids != [] {
      SortHasLeastHead(tasks, ids[1..]);
      InsertKeepsHead(tasks, ids[0], SortByOrder(tasks, ids[1..]));
    }
  }

  /** Filter, sort, take the first: the startable task that comes before all others. */
  function GetNextTaskId(s: State): (next: Option<TaskId>)
    ensures next == None ==> forall id :: id in s.tasks ==> !Startable(s, id)
    ensures next.Some? ==> Startable(s, next.value)
    ensures next.Some? ==> forall id :: id in s.tasks && Startable(s, id) && id != next.value ==>
      Before(s.tasks, next.value, id)
  {
    var candidates := Keep(SortedSeq(s.tasks.Keys), set id | id in s.tasks && Startable(s, id));
    SortHasLeastHead(s.tasks, candidates);
    var sorted := SortByOrder(s.tasks, candidates);
    if sorted == [] then
      assert forall id :: id in s.tasks && Startable(s, id) ==> id in sorted;
      None
    else
      assert sorted[0] in sorted;
      Some(sorted[0])
  }

  // -- the scheduler loop -----------------------------------------------------------------------------------

  ghost predicate PoolPerGroup(s: State) {
    s.groups.Keys <= s.pools.Keys
  }

  function QueuedIds(tasks: TaskMap): set<TaskId> {
    set k | k in tasks && tasks[k].status.Queued?
  }

  lemma StartConsumesQueued(s: State, settings: Settings, id: TaskId, spawnFails: set<TaskId>)
    requires PoolPerGroup(s) && Startable(s, id)
    ensures var after := Spawned(s, settings, id, spawnFails);
      && PoolPerGroup(after)
      && QueuedIds(after.tasks) == QueuedIds(s.tasks) - {id}
      && |QueuedIds(after.tasks)| < |QueuedIds(s.tasks)|
  {
    var after := Spawned(s, settings, id, spawnFails);
    assert QueuedIds(after.tasks) == QueuedIds(s.tasks) - {id};
    assert id in QueuedIds(s.tasks);
  }

  /** Start tasks until none is left that may start. */
  function SpawnedAll(s: State, settings: Settings, spawnFails: set<TaskId>): State
    requires PoolPerGroup(s)
    decreases |QueuedIds(s.tasks)|
  {
    var next := GetNextTaskId(s);
    if next == None then s
    else
      StartConsumesQueued(s, settings, next.value, spawnFails);
      SpawnedAll(Spawned(s, settings, next.value, spawnFails), settings, spawnFails)
  }

  method SpawnNew(state: InternalState, settings: Settings, spawnFails: set<TaskId>)
    requires PoolPerGroup(state.Value())
    modifies state`tasks, state`groups, state`children
    ensures state.Value() == SpawnedAll(old(state.Value()), settings, spawnFails)
  {
    ghost var before := state.Value();
    var next := GetNextTaskId(state.Value());
    while next != None
      invariant PoolPerGroup(state.Value()) && next == GetNextTaskId(state.Value())
      invariant SpawnedAll(before, settings, spawnFails) == SpawnedAll(state.Value(), settings, spawnFails)
      decreases |QueuedIds(state.tasks)|
    {
      StartConsumesQueued(state.Value(), settings, next.value, spawnFails);
      SpawnProcess(state, settings, next.value, spawnFails);
      next := GetNextTaskId(state.Value());
    }
  }
}
