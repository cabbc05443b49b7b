/** Worker pools and task statuses tell the same story. */
module PoolAgreement {
  import opened Lists
  import opened Tasks
  import opened Scheduler
  import opened TaskLoop

  ghost predicate HasWorker(s: State, k: TaskId)
    requires k in s.tasks
  {
    s.tasks[k].group in s.pools && exists w :: w in s.pools[s.tasks[k].group] && s.pools[s.tasks[k].group][w] == k
  }

  ghost predicate GroupsMatch(s: State) {
    s.pools.Keys == s.groups.Keys && forall k :: k in s.tasks ==> s.tasks[k].group in s.groups
  }

  ghost predicate ChildrenRun(s: State) {
    forall g, w :: g in s.pools && w in s.pools[g] ==>
      s.pools[g][w] in s.tasks && s.tasks[s.pools[g][w]].group == g && IsRunning(s.tasks[s.pools[g][w]])
  }

  ghost predicate RunningHaveWorkers(s: State) {
    forall k :: k in s.tasks && IsRunning(s.tasks[k]) ==> HasWorker(s, k)
  }

  ghost predicate OneWorkerEach(s: State) {
    forall g, v, w :: g in s.pools && v in s.pools[g] && w in s.pools[g] && s.pools[g][v] == s.pools[g][w] ==> v == w
  }

  /** There is one pool per group and every task's group exists; a task runs (or is paused)
      exactly when one child carries its id, and that child sits in the pool of its own group. */
  ghost predicate PoolsAgree(s: State) {
    GroupsMatch(s) && ChildrenRun(s) && RunningHaveWorkers(s) && OneWorkerEach(s)
  }

  /** No task has two children anywhere. */
  lemma OneChildPerTask(s: State, g: string, v: nat, h: string, w: nat)
    requires PoolsAgree(s)
    requires g in s.pools && v in s.pools[g] && h in s.pools && w in s.pools[h] && s.pools[g][v] == s.pools[h][w]
    ensures g == h && v == w
  {
  }

  /** The finish step finds every task it looks up, and running tasks are those with a child. */
  lemma LookupsSucceed(s: State)
    requires PoolsAgree(s)
    ensures ChildrenKnown(s) && PoolPerGroup(s)
  {
  }

  lemma FinishedAreRunning(s: State, exits: Exits, k: TaskId)
    requires PoolsAgree(s)
    ensures k in TasksInSlots(s.pools, FinishedSlots(s.pools, exits)) <==>
            k in s.tasks && k in exits && IsRunning(s.tasks[k])
  {
    var slots := FinishedSlots(s.pools, exits);
    if k in s.tasks && k in exits && IsRunning(s.tasks[k]) {
      var g := s.tasks[k].group;
      assert HasWorker(s, k);
      var w :| w in s.pools[g] && s.pools[g][w] == k;
      assert (g, w) in slots;
      assert s.pools[(g, w).0][(g, w).1] == k;
    }
  }

  lemma FinishKeepsPools(s: State, settings: Settings, exits: Exits)
    requires PoolsAgree(s)
    ensures PoolsAgree(Finish(s, settings, exits))
  {
    var after := Finish(s, settings, exits);
    var slots := FinishedSlots(s.pools, exits);
    forall k | k in s.tasks
      ensures after.tasks[k].group == s.tasks[k].group
      ensures IsRunning(after.tasks[k]) <==> IsRunning(s.tasks[k]) && k !in exits
    {
      FinishedAreRunning(s, exits, k);
    }
    forall k | k in after.tasks && IsRunning(after.tasks[k]) ensures HasWorker(after, k) {
      assert HasWorker(s, k);
      var g := s.tasks[k].group;
      var w :| w in s.pools[g] && s.pools[g][w] == k;
      assert w in after.pools[g] && after.pools[g][w] == k;
    }
  }

  /** Steps that touch neither pools nor the set of groups, nor which tasks run and where. */
  ghost predicate SameRunning(s: State, after: State) {
    && after.pools == s.pools && after.groups.Keys == s.groups.Keys
    && (forall k :: k in after.tasks ==> after.tasks[k].group in s.groups)
    && (forall k :: k in s.tasks && IsRunning(s.tasks[k]) ==>
          k in after.tasks && IsRunning(after.tasks[k]) && after.tasks[k].group == s.tasks[k].group)
    && (forall k :: k in after.tasks && IsRunning(after.tasks[k]) ==> k in s.tasks && IsRunning(s.tasks[k]))
  }

  lemma SameRunningKeepsPools(s: State, after: State)
    requires PoolsAgree(s) && SameRunning(s, after)
    ensures PoolsAgree(after)
  {
    forall k | k in after.tasks && IsRunning(after.tasks[k]) ensures HasWorker(after, k) {
      assert HasWorker(s, k);
    }
  }

  lemma ResetKeepsPools(s: State)
    requires PoolsAgree(s)
    ensures PoolsAgree(GroupsReset(s))
  {
    var after := GroupsReset(s);
    forall k | k in s.tasks && IsRunning(s.tasks[k]) ensures k in after.tasks {
      assert HasWorker(s, k);
    }
    SameRunningKeepsPools(s, after);
  }

  /** `after` is `s` with a new child for `id` under a free worker id. */
  ghost predicate ChildAdded(s: State, after: State, id: TaskId, worker: nat) {
    && id in s.tasks && !IsRunning(s.tasks[id]) && s.tasks[id].group in s.pools
    && worker !in s.pools[s.tasks[id].group]
    && after.groups == s.groups
    && after.tasks == SetStatus(s.tasks, id, TaskStatus.Running)
    && after.pools == PutChild(s.pools, s.tasks[id].group, worker, id)
  }

  lemma AddedChildrenRun(s: State, after: State, id: TaskId, worker: nat)
    requires ChildAdded(s, after, id, worker) && ChildrenRun(s)
    ensures ChildrenRun(after)
  {
    forall g, w | g in after.pools && w in after.pools[g]
      ensures after.pools[g][w] in after.tasks && after.tasks[after.pools[g][w]].group == g
      ensures IsRunning(after.tasks[after.pools[g][w]])
    {
      if after.pools[g][w] != id {
        assert w in s.pools[g] && s.pools[g][w] == after.pools[g][w];
      }
    }
  }

  lemma AddedRunningHaveWorkers(s: State, after: State, id: TaskId, worker: nat)
    requires ChildAdded(s, after, id, worker) && RunningHaveWorkers(s)
    ensures RunningHaveWorkers(after)
  {
    forall k | k in after.tasks && IsRunning(after.tasks[k]) ensures HasWorker(after, k) {
      var g := s.tasks[k].group;
      if k == id {
        assert after.pools[g][worker] == id;
      } else {
        assert HasWorker(s, k);
        var w :| w in s.pools[g] && s.pools[g][w] == k;
        assert w in after.pools[g] && after.pools[g][w] == k;
      }
    }
  }

  lemma AddedOneWorkerEach(s: State, after: State, id: TaskId, worker: nat)
    requires ChildAdded(s, after, id, worker) && OneWorkerEach(s) && ChildrenRun(s)
    ensures OneWorkerEach(after)
  {
    var group := s.tasks[id].group;
    assert forall w :: w in s.pools[group] ==> s.pools[group][w] != id;
    forall g, v, w | g in after.pools && v in after.pools[g] && w in after.pools[g] &&
                     after.pools[g][v] == after.pools[g][w]
      ensures v == w
    {
      if g == group && (v == worker || w == worker) {
        assert after.pools[g][v] == id;
      }
    }
  }

  lemma ChildAddedKeepsPools(s: State, after: State, id: TaskId, worker: nat)
    requires PoolsAgree(s) && ChildAdded(s, after, id, worker)
    ensures PoolsAgree(after)
  {
    hide ChildrenRun, RunningHaveWorkers, OneWorkerEach;
    AddedChildrenRun(s, after, id, worker);
    AddedRunningHaveWorkers(s, after, id, worker);
    AddedOneWorkerEach(s, after, id, worker);
  }

  lemma SpawnedKeepsPools(s: State, settings: Settings, id: TaskId, spawnFails: set<TaskId>)
    requires PoolsAgree(s)
    ensures PoolsAgree(Spawned(s, settings, id, spawnFails))
  {
    hide ChildrenRun, RunningHaveWorkers, OneWorkerEach;
    var after := Spawned(s, settings, id, spawnFails);
    if id in s.tasks && Spawnable(s.tasks[id]) {
      if id in spawnFails {
        SameRunningKeepsPools(s, after);
      } else {
        ChildAddedKeepsPools(s, after, id, LeastFree(s.pools[s.tasks[id].group].Keys, 0));
      }
    }
  }

  lemma {:induction false} SpawnedAllKeepsPools(s: State, settings: Settings, spawnFails: set<TaskId>)
    requires PoolsAgree(s)
    ensures PoolsAgree(SpawnedAll(s, settings, spawnFails))
    decreases |QueuedIds(s.tasks)|
  {
    hide PoolsAgree, Spawned;
    LookupsSucceed(s);
    var next := GetNextTaskId(s);
    if next != None {
      StartConsumesQueued(s, settings, next.value, spawnFails);
      SpawnedKeepsPools(s, settings, next.value, spawnFails);
      SpawnedAllKeepsPools(Spawned(s, settings, next.value, spawnFails), settings, spawnFails);
    }
  }

  lemma DelayedKeepsPools(s: State, elapsed: set<TaskId>)
    requires PoolsAgree(s)
    ensures PoolsAgree(DelayedEnqueued(s, elapsed))
  {
    SameRunningKeepsPools(s, DelayedEnqueued(s, elapsed));
  }

  lemma DependantsKeepPools(s: State)
    requires PoolsAgree(s)
    ensures PoolsAgree(DependantsFailed(s))
  {
    SameRunningKeepsPools(s, DependantsFailed(s));
  }

  /** A whole turn of the loop keeps the agreement. */
  lemma TurnKeepsPools(s: State, settings: Settings, world: World)
    requires PoolsAgree(s)
    ensures PoolPerGroup(s) && PoolsAgree(Turn(s, settings, world))
  {
    hide PoolsAgree, Finish, GroupsReset, DelayedEnqueued, DependantsFailed, SpawnedAll;
    LookupsSucceed(s);
    FinishKeepsPools(s, settings, world.exits);
    var finished := Finish(s, settings, world.exits);
    ResetKeepsPools(finished);
    DelayedKeepsPools(GroupsReset(finished), world.elapsed);
    DependantsKeepPools(DelayedEnqueued(GroupsReset(finished), world.elapsed));
    SpawnedAllKeepsPools(Prepared(s, settings, world), settings, world.spawnFails);
  }
}
