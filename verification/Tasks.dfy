/** The daemon's task and group records, and the status predicates of tasks. */
module Tasks {
  import opened Lists

  datatype TaskResult = Success | Failed(code: int) | FailedToSpawn | Killed | Errored | DependencyFailed

  datatype TaskStatus =
    | Locked(previous: TaskStatus)
    | Stashed(enqueueAt: Option<int>)
    | Queued
    | Running
    | Paused
    | Done(result: TaskResult)

  /** What a client may edit on a task without touching the scheduler's view of it. */
  datatype Details = Details(command: string, path: string, caption: Option<string>)

  /** The two id lists are kept as sets: the daemon searches them, and keeps `dependents`
      strictly sorted, so a list is the sorted sequence of its set (see module IndexLists). */
  datatype Task = Task(
    id: TaskId,
    details: Details,
    group: string,
    dependencies: set<TaskId>,
    dependents: set<TaskId>,
    priority: int,
    status: TaskStatus)

  datatype GroupStatus = Running | Paused | Reset

  datatype Group = Group(status: GroupStatus, parallelTasks: nat)

  type TaskMap = map<TaskId, Task>
  type GroupMap = map<string, Group>
  /** Worker pools: group name, then worker id, then the id of the task the child belongs to. */
  type Pools = map<string, map<nat, TaskId>>

  /** Everything the daemon's mutex protects, as one value. */
  datatype State = State(tasks: TaskMap, groups: GroupMap, pools: Pools)

  datatype Settings = Settings(pauseGroupOnFailure: bool, pauseAllOnFailure: bool)

  datatype Response = Accepted | Rejected | Critical

  const DEFAULT_GROUP := "default"

  predicate IsDone(task: Task) { task.status.Done? }

  predicate IsRunning(task: Task) { task.status.Running? || task.status.Paused? }

  predicate HasFailed(task: Task) { task.status.Done? && task.status.result != Success }

  predicate Succeeded(task: Task) { task.status == Done(Success) }

  predicate IsStashed(task: Task) { task.status.Stashed? }

  /** Queued, or stashed with a time at which it will be enqueued. */
  predicate IsQueued(task: Task) {
    task.status.Queued? || (task.status.Stashed? && task.status.enqueueAt.Some?)
  }

  /** Only tasks without a process may be removed (or archived). */
  predicate IsRemovableStatus(task: Task) {
    task.status.Queued? || task.status.Stashed? || task.status.Done? || task.status.Locked?
  }

  predicate IsSwitchable(task: Task) { task.status.Queued? || task.status.Stashed? }

  /** The listed ids that name a task meeting the condition, in request order. */
  function Matching(tasks: TaskMap, condition: Task -> bool, ids: seq<TaskId>): (r: seq<TaskId>)
    ensures forall id :: id in r <==> id in ids && id in tasks && condition(tasks[id])
  {
    Keep(ids, set id | id in tasks && condition(tasks[id]))
  }

  lemma MatchingAll(tasks: TaskMap, condition: Task -> bool, ids: seq<TaskId>)
    requires forall id :: id in ids ==> id in tasks && condition(tasks[id])
    ensures Matching(tasks, condition, ids) == ids
  {
    KeepAllOf(ids, set id | id in tasks && condition(tasks[id]));
  }

  datatype FilteredTasks = FilteredTasks(matching: seq<TaskId>, nonMatching: seq<TaskId>)

  /** Splits the requested ids: a missing task never matches. */
  method FilterTaskIds(tasks: TaskMap, condition: Task -> bool, ids: seq<TaskId>) returns (f: FilteredTasks)
    ensures f.matching == Matching(tasks, condition, ids)
    ensures f.nonMatching == Keep(ids, Elems(ids) - Elems(f.matching))
    ensures forall id :: id in f.nonMatching <==> id in ids && id !in f.matching
  {
    var matching, nonMatching := [], [];
    ghost var all := set id | id in tasks && condition(tasks[id]);
    for i := 0 to |ids|
      invariant matching == Keep(ids[..i], all)
      invariant nonMatching == Keep(ids[..i], Elems(ids) - all)
    {
      KeepSnoc(ids[..i], ids[i], all);
      KeepSnoc(ids[..i], ids[i], Elems(ids) - all);
      assert ids[..i + 1] == ids[..i] + [ids[i]];
      if ids[i] !in tasks {
        nonMatching := nonMatching + [ids[i]];
      } else if condition(tasks[ids[i]]) {
        matching := matching + [ids[i]];
      } else {
        nonMatching := nonMatching + [ids[i]];
      }
    }
    assert ids[..|ids|] == ids;
    assert Elems(ids) - all == Elems(ids) - Elems(matching);
    f := FilteredTasks(matching, nonMatching);
  }

  /** Every named task that exists is rewritten by `change`; the others stay. */
  function Updated(tasks: TaskMap, ids: set<TaskId>, change: Task -> Task): TaskMap {
    map k | k in tasks :: if k in ids then change(tasks[k]) else tasks[k]
  }

  lemma UpdatedOne(tasks: TaskMap, ids: set<TaskId>, change: Task -> Task, id: TaskId)
    requires id !in ids
    ensures var step := Updated(tasks, ids, change);
      Updated(tasks, ids + {id}, change) == if id in step then step[id := change(step[id])] else step
  {
  }

  /** The state behind the daemon's mutex. `shutdown` is only ever set by a critical error. */
  class InternalState {
    var tasks: TaskMap
    var groups: GroupMap
    var children: Pools
    var shutdown: bool

    function Value(): State
      reads this
    {
      State(tasks, groups, children)
    }

    /** A fresh daemon: only the default group, with one slot, and its empty pool. */
    constructor ()
      ensures Value() == FreshState() && !shutdown
      ensures tasks == map[] && groups == map["default" := Group(GroupStatus.Running, 1)]
      ensures children == map["default" := map[]]
    {
      tasks := map[];
      groups := map[DEFAULT_GROUP := Group(GroupStatus.Running, 1)];
      children := map[DEFAULT_GROUP := map[]];
      shutdown := false;
    }

    /** `for id in ids { if let Some(task) = tasks.get_mut(&id) { change(task) } }`,
        for ids that are listed once. */
    method UpdateTasks(ids: set<TaskId>, change: Task -> Task)
      modifies this`tasks
      ensures tasks == Updated(old(tasks), ids, change)
    {
      ghost var before := tasks;
      var remaining := ids;
      assert ids - remaining == {};
      while remaining != {}
        invariant remaining <= ids
        invariant tasks == Updated(before, ids - remaining, change)
      {
        var id :| id in remaining;
        UpdatedOne(before, ids - remaining, change, id);
        assert ids - (remaining - {id}) == ids - remaining + {id};
        remaining := remaining - {id};
        if id in tasks {
          tasks := tasks[id := change(tasks[id])];
        }
      }
      assert ids - remaining == ids;
    }
  }

  function FreshState(): State {
    State(map[], map[DEFAULT_GROUP := Group(GroupStatus.Running, 1)], map[DEFAULT_GROUP := map[]])
  }
}
