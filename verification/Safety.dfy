/** What holds after any sequence of events. */
module Safety {
  import opened Lists
  import opened Tasks
  import opened DependencyGraph
  import opened ReverseIndex
  import opened Scheduler
  import opened SpawnOrder
  import opened TaskLoop
  import opened PoolAgreement
  import opened Handlers
  import opened Restore
  import opened Runs

  /** The state after a run, of careful events or not. */
  ghost function After(s: State, settings: Settings, events: seq<Event>): State
    requires Orderly(s)
    decreases |events|
  {
    if events == [] then s
    else
      AnyStepKeepsOrder(s, settings, events[0]);
      After(Apply(s, settings, events[0]), settings, events[1..])
  }

  /** Each event is careful in the state it meets. */
  ghost predicate CarefulRun(s: State, settings: Settings, events: seq<Event>)
    requires Sound(s)
    decreases |events|
  {
    events != [] ==>
      Careful(s, events[0]) &&
      (StepKeepsInvariants(s, settings, events[0]);
       CarefulRun(Apply(s, settings, events[0]), settings, events[1..]))
  }

  predicate WithoutResets(events: seq<Event>) {
    forall i :: 0 <= i < |events| ==> !events[i].ResetRequested?
  }

  predicate WithoutRestarts(events: seq<Event>) {
    forall i :: 0 <= i < |events| ==> !events[i].RestartRequested?
  }

  /** Over every careful run: keys and ids match, the reverse index agrees with the dependencies
      of the existing tasks, there is no cycle, and pools agree with statuses. */
  lemma {:induction false} RunsStaySound(s: State, settings: Settings, events: seq<Event>)
    requires Sound(s) && CarefulRun(s, settings, events)
    ensures Sound(After(s, settings, events))
    decreases |events|
  {
    hide GraphSound, Orderly, Apply, Careful;
    if events != [] {
      StepKeepsInvariants(s, settings, events[0]);
      RunsStaySound(Apply(s, settings, events[0]), settings, events[1..]);
    }
  }

  lemma {:induction false} RunsWithoutResets(s: State, settings: Settings, events: seq<Event>)
    requires Sound(s) && CarefulRun(s, settings, events) && WithoutResets(events) && NothingResetting(s)
    ensures var end := After(s, settings, events);
      && NothingResetting(end)
      && (NoStaleDependents(s.tasks) ==> NoStaleDependents(end.tasks))
      && (Live(s.tasks) && WithoutRestarts(events) ==> Live(end.tasks))
    decreases |events|
  {
    hide GraphSound, Orderly, Apply, Careful, NothingResetting, NoStaleDependents, Live;
    if events != [] {
      StepKeepsInvariants(s, settings, events[0]);
      assert forall i :: 0 <= i < |events[1..]| ==> events[1..][i] == events[i + 1];
      RunsWithoutResets(Apply(s, settings, events[0]), settings, events[1..]);
    }
  }

  /** Without resets, the hand-maintained lists are at all times what a full rebuild yields. */
  lemma IndexEqualsRebuild(s: State, settings: Settings, events: seq<Event>)
    requires Sound(s) && CarefulRun(s, settings, events) && WithoutResets(events) && NothingResetting(s)
    requires NoStaleDependents(s.tasks)
    ensures BuildIndex(After(s, settings, events).tasks) == After(s, settings, events).tasks
  {
    hide After, CarefulRun;
    RunsStaySound(s, settings, events);
    RunsWithoutResets(s, settings, events);
    ExactIffRebuildIsIdentity(After(s, settings, events).tasks);
  }

  // -- dependency safety ------------------------------------------------------------------------------------

  /** In a state whose unfinished tasks have all their dependencies, the scheduler only starts
      tasks all of whose listed dependencies exist and have succeeded. */
  lemma {:induction false} StartsAreCovered(s: State, settings: Settings, spawnFails: set<TaskId>, k: TaskId)
    requires Live(s.tasks) && PoolPerGroup(s)
    requires k in s.tasks && s.tasks[k].status.Queued?
    ensures var after := SpawnedAll(s, settings, spawnFails);
      k in after.tasks && (after.tasks[k].status.Queued? ||
                           forall d :: d in s.tasks[k].dependencies ==> d in s.tasks && Succeeded(s.tasks[d]))
    decreases |QueuedIds(s.tasks)|
  {
    SpawnedAllFrame(s, settings, spawnFails);
    var next := GetNextTaskId(s);
    if next != None && next.value != k {
      var mid := Spawned(s, settings, next.value, spawnFails);
      StartConsumesQueued(s, settings, next.value, spawnFails);
      SpawnedTouchesOne(s, settings, next.value, spawnFails);
      hide SpawnedAll, Spawned, GetNextTaskId;
      StartsAreCovered(mid, settings, spawnFails, k);
      SpawnedAllUnfolds(s, settings, spawnFails);
    }
  }

  lemma SpawnedAllUnfolds(s: State, settings: Settings, spawnFails: set<TaskId>)
    requires PoolPerGroup(s) && GetNextTaskId(s).Some?
    ensures PoolPerGroup(Spawned(s, settings, GetNextTaskId(s).value, spawnFails))
    ensures SpawnedAll(s, settings, spawnFails) ==
            SpawnedAll(Spawned(s, settings, GetNextTaskId(s).value, spawnFails), settings, spawnFails)
  {
    StartConsumesQueued(s, settings, GetNextTaskId(s).value, spawnFails);
  }

  lemma SpawnedTouchesOne(s: State, settings: Settings, id: TaskId, spawnFails: set<TaskId>)
    requires Live(s.tasks) && id in s.tasks && s.tasks[id].status.Queued?
    ensures var mid := Spawned(s, settings, id, spawnFails);
      && Live(mid.tasks) && mid.tasks.Keys == s.tasks.Keys
      && (forall d :: d in s.tasks && d != id ==> mid.tasks[d] == s.tasks[d])
      && (forall d :: d in s.tasks && Succeeded(mid.tasks[d]) ==> Succeeded(s.tasks[d]))
  {
  }

  /** The state in which a loop turn hands over to the scheduler. */
  lemma PreparedStaysLive(s: State, settings: Settings, world: World)
    requires Sound(s) && NothingResetting(s) && Live(s.tasks) && PoolPerGroup(s)
    ensures PoolPerGroup(Prepared(s, settings, world)) && Live(Prepared(s, settings, world).tasks)
  {
    hide GraphSound, Fit, NothingResetting, Live, Finish, GroupsReset, DelayedEnqueued, DependantsFailed;
    var finished := Finish(s, settings, world.exits);
    FinishIsCalm(s, settings, world.exits);
    CalmKeepsSound(s, finished);
    CalmKeepsResetting(s, finished);
    CalmLive(s, finished);
    ResetKeepsSound(finished);
    DelayedIsCalm(finished, world.elapsed);
    var delayed := DelayedEnqueued(finished, world.elapsed);
    CalmKeepsSound(finished, delayed);
    CalmLive(finished, delayed);
    DependantsAreCalm(delayed);
    CalmKeepsSound(delayed, DependantsFailed(delayed));
    CalmLive(delayed, DependantsFailed(delayed));
    PreparedKeepsPools(s, settings, world);
  }

  lemma CalmLive(s: State, after: State)
    requires Sound(s) && Calm(s, after) && Live(s.tasks)
    ensures Live(after.tasks)
  {
    CalmKeepsSound(s, after);
  }

  /** Over every careful run without resets and in-place restarts: whenever the loop turns, a task
      leaves the queue through the scheduler only if every dependency it lists exists and has succeeded. */
  lemma SchedulerRespectsDependencies(s: State, settings: Settings, events: seq<Event>, world: World, k: TaskId)
    requires Sound(s) && CarefulRun(s, settings, events) && WithoutResets(events) && WithoutRestarts(events)
    requires NothingResetting(s) && Live(s.tasks)
    ensures var here := After(s, settings, events);
      && PoolPerGroup(here) && Live(here.tasks)
      && var prepared, after := Prepared(here, settings, world), Turn(here, settings, world);
      (k in prepared.tasks && prepared.tasks[k].status.Queued? ==>
         k in after.tasks && (after.tasks[k].status.Queued? ||
           forall d :: d in prepared.tasks[k].dependencies ==> d in prepared.tasks && Succeeded(prepared.tasks[d])))
  {
    hide After, CarefulRun, GraphSound, Orderly, Prepared, SpawnedAll;
    RunsStaySound(s, settings, events);
    RunsWithoutResets(s, settings, events);
    var here := After(s, settings, events);
    SoundHasPools(here);
    PreparedStaysLive(here, settings, world);
    var prepared := Prepared(here, settings, world);
    if k in prepared.tasks && prepared.tasks[k].status.Queued? {
      StartsAreCovered(prepared, settings, world.spawnFails, k);
    }
  }

  // -- in-place restarts ------------------------------------------------------------------------------------

  ghost predicate Revives(tasks: TaskMap, items: seq<RestartItem>, k: TaskId) {
    k in tasks && IsDone(tasks[k]) && exists i :: 0 <= i < |items| && items[i].id == k
  }

  lemma {:induction false} RestartedIffListed(tasks: TaskMap, items: seq<RestartItem>, stashed: bool, k: TaskId)
    requires k in tasks
    ensures var after := Restarted(tasks, items, stashed);
      && after.Keys == tasks.Keys && after[k].dependencies == tasks[k].dependencies
      && (IsDone(after[k]) <==> IsDone(tasks[k]) && !Revives(tasks, items, k))
    decreases |items|
  {
    if items != [] {
      var item, rest := items[0], items[1..];
      assert forall i :: 0 <= i < |rest| ==> rest[i] == items[i + 1];
      assert forall i :: 0 < i < |items| ==> items[i] == rest[i - 1];
      if item.id in tasks && IsDone(tasks[item.id]) {
        var next := tasks[item.id := RestartedTask(tasks[item.id], item, stashed)];
        RestartedIffListed(next, rest, stashed, k);
        assert k == item.id ==> Revives(tasks, items, k);
      } else {
        RestartedIffListed(tasks, rest, stashed, k);
      }
    }
  }

  /** A restart in place keeps all dependencies of unfinished tasks in existence exactly when
      no finished task it revives has lost one. */
  lemma RestartKeepsLiveIff(tasks: TaskMap, items: seq<RestartItem>, stashed: bool)
    requires Live(tasks)
    ensures Live(Restarted(tasks, items, stashed)) <==>
            forall k, d :: Revives(tasks, items, k) && d in tasks[k].dependencies ==> d in tasks
  {
    var after := Restarted(tasks, items, stashed);
    forall k | k in tasks
      ensures after.Keys == tasks.Keys && after[k].dependencies == tasks[k].dependencies
      ensures IsDone(after[k]) <==> IsDone(tasks[k]) && !Revives(tasks, items, k)
    {
      RestartedIffListed(tasks, items, stashed, k);
    }
    RestartedRecords(tasks, items, stashed);
  }

  /** A finished task whose only dependency was removed, once restarted, is started at once. */
  lemma RestartedTaskMayRunUncovered(details: Details)
    ensures var tasks := map[0 := Task(0, details, DEFAULT_GROUP, {1}, {}, 0, Done(Killed))];
      var after := State(Restarted(tasks, [RestartItem(0, details, 0)], false),
                         map[DEFAULT_GROUP := Group(GroupStatus.Running, 1)], map[DEFAULT_GROUP := map[]]);
      Live(tasks) && Startable(after, 0) && !Live(after.tasks)
  {
    var tasks := map[0 := Task(0, details, DEFAULT_GROUP, {1}, {}, 0, Done(Killed))];
    var item := RestartItem(0, details, 0);
    assert Restarted(tasks, [item], false) == Restarted(tasks[0 := RestartedTask(tasks[0], item, false)], [], false);
    assert 1 in tasks[0].dependencies;
  }

  // -- pools ------------------------------------------------------------------------------------------------

  /** Over every run, careful or not. */
  lemma {:induction false} AnyRunStaysOrderly(s: State, settings: Settings, events: seq<Event>)
    requires Orderly(s)
    ensures Orderly(After(s, settings, events))
    decreases |events|
  {
    hide Orderly, Apply;
    if events != [] {
      AnyStepKeepsOrder(s, settings, events[0]);
      AnyRunStaysOrderly(Apply(s, settings, events[0]), settings, events[1..]);
    }
  }

  /** One child, in the pool of the task's own group, and no other anywhere. */
  ghost predicate HasExactlyOneWorker(s: State, k: TaskId)
    requires k in s.tasks
  {
    exists w :: IsOnlyWorker(s, k, w)
  }

  ghost predicate IsOnlyWorker(s: State, k: TaskId, w: nat)
    requires k in s.tasks
  {
    && s.tasks[k].group in s.pools && w in s.pools[s.tasks[k].group] && s.pools[s.tasks[k].group][w] == k
    && forall g, v :: g in s.pools && v in s.pools[g] && s.pools[g][v] == k ==> g == s.tasks[k].group && v == w
  }

  /** In every state that any sequence of events leads to: there is one pool per group, a task is
      running or paused exactly when exactly one child carries its id, in the pool of its own group,
      the finish step finds every task and worker it looks up, and removing a group is never critical. */
  lemma ReachablePoolsAgree(s: State, settings: Settings, events: seq<Event>)
    requires Orderly(s)
    ensures var end := After(s, settings, events);
      && end.pools.Keys == end.groups.Keys && ChildrenKnown(end)
      && (forall k :: k in end.tasks ==> end.tasks[k].group in end.groups)
      && (forall k :: k in end.tasks ==> (IsRunning(end.tasks[k]) <==> HasExactlyOneWorker(end, k)))
      && (forall name :: GroupRemovable(end, name) ==> name in end.pools && end.pools[name] == map[])
  {
    hide After, KeyedById;
    AnyRunStaysOrderly(s, settings, events);
    var end := After(s, settings, events);
    LookupsSucceed(end);
    forall k | k in end.tasks ensures IsRunning(end.tasks[k]) <==> HasExactlyOneWorker(end, k) {
      WorkerMeansRunning(end, k);
    }
    GroupsExist(end);
    forall name | GroupRemovable(end, name) ensures name in end.pools && end.pools[name] == map[] {
      EmptyGroupHasEmptyPool(end, name);
    }
  }

  lemma WorkerMeansRunning(s: State, k: TaskId)
    requires PoolsAgree(s) && k in s.tasks
    ensures IsRunning(s.tasks[k]) <==> HasExactlyOneWorker(s, k)
  {
    if IsRunning(s.tasks[k]) {
      assert HasWorker(s, k);
      var w :| w in s.pools[s.tasks[k].group] && s.pools[s.tasks[k].group][w] == k;
      assert IsOnlyWorker(s, k, w);
    }
    if HasExactlyOneWorker(s, k) {
      var w :| IsOnlyWorker(s, k, w);
      assert IsRunning(s.tasks[s.pools[s.tasks[k].group][w]]);
    }
  }

  // -- where runs begin -------------------------------------------------------------------------------------

  lemma FreshStateIsSound()
    ensures var s := FreshState();
      Sound(s) && NothingResetting(s) && NoStaleDependents(s.tasks) && Live(s.tasks)
  {
    assert Ranked(FreshState().tasks, map[], 0);
  }

  /** A restored state is a sound place to start from whenever the saved tasks were keyed by id
      and free of cycles, however the last daemon ended. Nothing is lost for the theorems on runs
      without resets and restarts: dependencies still exist, and no group is being reset, if that
      was so when the state was saved. */
  lemma RestoredStateIsSound(tasks: TaskMap, groups: GroupMap, tasks': TaskMap, groups': GroupMap)
    requires Repaired(tasks, groups, tasks', groups') && KeyedById(tasks)
    ensures Orderly(State(tasks', groups', InitialPools(groups'))) && NoStaleDependents(tasks')
    ensures Acyclic(tasks) ==> Sound(State(tasks', groups', InitialPools(groups')))
    ensures Live(tasks) ==> Live(tasks')
    ensures (forall g :: g in groups ==> groups[g].status != GroupStatus.Reset) ==>
      NothingResetting(State(tasks', groups', InitialPools(groups')))
  {
    hide Repaired, KeyedById, Acyclic, PoolsAgree;
    RestoreKeepsPromises(tasks, groups, tasks', groups');
    RestoreKeeps(tasks, groups, tasks', groups');
    RestoreRepairs(tasks, groups, tasks', groups', InitialPools(groups'));
    RestoredPoolsAgree(tasks, groups, tasks', groups');
  }

  lemma RestoreKeepsPromises(tasks: TaskMap, groups: GroupMap, tasks': TaskMap, groups': GroupMap)
    requires Repaired(tasks, groups, tasks', groups')
    ensures Live(tasks) ==> Live(tasks')
    ensures (forall g :: g in groups ==> groups[g].status != GroupStatus.Reset) ==>
      forall g :: g in groups' ==> groups'[g].status != GroupStatus.Reset
  {
    hide RepairedGroup, Homeless, HoldsQueued, BuildIndex;
    RepairedGroupsExist(tasks, groups, tasks', groups');
    var forward :| PartlyRepaired(tasks, groups, tasks.Keys, forward, groups') && tasks' == BuildIndex(forward);
  }
}
