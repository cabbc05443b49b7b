/** What starting named tasks comes to, whatever their order and however often they are named. */
module ForcedStart {
  import opened Lists
  import opened Tasks
  import opened Scheduler
  import opened PoolAgreement
  import opened Handlers

  /** Queued and locked tasks are spawned, paused ones resumed if they listen, all others ignored. */
  function StartedStatus(status: TaskStatus, spawnFails: bool, deaf: bool): TaskStatus {
    match status
    case Queued => if spawnFails then Done(FailedToSpawn) else TaskStatus.Running
    case Locked(_) => if spawnFails then Done(FailedToSpawn) else TaskStatus.Running
    case Paused => if deaf then TaskStatus.Paused else TaskStatus.Running
    case _ => status
  }

  function StartedTask(task: Task, spawnFails: bool, deaf: bool): Task {
    task.(status := StartedStatus(task.status, spawnFails, deaf))
  }

  lemma ResumedKeepsPools(s: State, ids: set<TaskId>, deaf: set<TaskId>)
    requires PoolsAgree(s)
    ensures PoolsAgree(Resumed(s, ids, deaf))
  {
    SameRunningKeepsPools(s, Resumed(s, ids, deaf));
  }

  lemma ChildMeansRunning(s: State, k: TaskId)
    requires PoolsAgree(s)
    ensures k in ChildIds(s.pools) <==> k in s.tasks && IsRunning(s.tasks[k])
    ensures k in s.tasks ==> s.tasks[k].group in s.pools
  {
    if k in s.tasks && IsRunning(s.tasks[k]) {
      assert HasWorker(s, k);
      var w :| w in s.pools[s.tasks[k].group] && s.pools[s.tasks[k].group][w] == k;
    }
  }

  function StartOne(s: State, settings: Settings, id: TaskId, spawnFails: set<TaskId>, deaf: set<TaskId>): State {
    if id in ChildIds(s.pools) then Resumed(s, {id}, deaf) else Spawned(s, settings, id, spawnFails)
  }

  lemma StartOneOutcome(s: State, settings: Settings, id: TaskId, spawnFails: set<TaskId>, deaf: set<TaskId>, k: TaskId)
    requires PoolsAgree(s) && k in s.tasks
    ensures var next := StartOne(s, settings, id, spawnFails, deaf);
      && PoolsAgree(next) && k in next.tasks
      && next.tasks[k] == if k == id then StartedTask(s.tasks[k], k in spawnFails, k in deaf) else s.tasks[k]
  {
    hide PoolsAgree, ChildIds;
    ChildMeansRunning(s, id);
    ChildMeansRunning(s, k);
    ResumedKeepsPools(s, {id}, deaf);
    SpawnedKeepsPools(s, settings, id, spawnFails);
  }

  /** A named task ends up as its own status says, and every other one stays: neither the order of the
      names, nor repetitions, nor what happens to the others matters. */
  lemma {:induction false} StartIdsOutcome(s: State, settings: Settings, ids: seq<TaskId>,
                                           spawnFails: set<TaskId>, deaf: set<TaskId>, k: TaskId)
    requires PoolsAgree(s) && k in s.tasks
    ensures var after := StartIds(s, settings, ids, spawnFails, deaf);
      && k in after.tasks
      && after.tasks[k] == if k in ids then StartedTask(s.tasks[k], k in spawnFails, k in deaf) else s.tasks[k]
    decreases |ids|
  {
    hide PoolsAgree, ChildIds, Spawned, Resumed;
    if ids != [] {
      StartOneOutcome(s, settings, ids[0], spawnFails, deaf, k);
      StartIdsOutcome(StartOne(s, settings, ids[0], spawnFails, deaf), settings, ids[1..], spawnFails, deaf, k);
      assert ids == [ids[0]] + ids[1..];
    }
  }

  /** Naming only locked tasks shows where the two ways in differ: the command refuses, a restart with
      an immediate start runs them. */
  lemma LockedOnlyDiffers(s: State, settings: Settings, k: TaskId)
    requires PoolsAgree(s) && k in s.tasks && s.tasks[k].status.Locked?
    ensures Started(s, settings, TaskIds([k]), {}, {}) == s
    ensures var after := StartIds(s, settings, [k], {}, {});
      k in after.tasks && after.tasks[k].status == TaskStatus.Running
  {
    FirstIsMember(Matching(s.tasks, IsStartable, [k]));
    StartIdsOutcome(s, settings, [k], {}, {}, k);
  }
}
