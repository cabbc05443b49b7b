/** Pausing on failure: the turn that notices a failure does not let the group go on. */
module FailurePause {
  import opened Lists
  import opened Tasks
  import opened Scheduler
  import opened SpawnOrder
  import opened TaskLoop
  import opened PoolAgreement

  ghost predicate IsPaused(s: State, group: string) {
    group in s.groups && s.groups[group].status == GroupStatus.Paused
  }

  lemma SpawnLeavesPausedGroup(s: State, settings: Settings, id: TaskId, spawnFails: set<TaskId>, group: string)
    requires IsPaused(s, group) && Startable(s, id)
    ensures var after := Spawned(s, settings, id, spawnFails);
      && IsPaused(after, group) && after.tasks.Keys == s.tasks.Keys
      && forall j :: j in s.tasks && s.tasks[j].group == group ==> after.tasks[j] == s.tasks[j]
  {
  }

  /** The scheduler does not touch a paused group, and nothing it does resumes one. */
  lemma {:induction false} SchedulerLeavesPausedGroup(s: State, settings: Settings, spawnFails: set<TaskId>,
                                                      group: string)
    requires PoolPerGroup(s) && IsPaused(s, group)
    ensures var after := SpawnedAll(s, settings, spawnFails);
      && IsPaused(after, group) && after.tasks.Keys == s.tasks.Keys
      && forall j :: j in s.tasks && s.tasks[j].group == group ==> after.tasks[j] == s.tasks[j]
    decreases |QueuedIds(s.tasks)|
  {
    hide Spawned, Startable, QueuedIds, IsPaused;
    var next := GetNextTaskId(s);
    if next != None {
      StartConsumesQueued(s, settings, next.value, spawnFails);
      SpawnLeavesPausedGroup(s, settings, next.value, spawnFails, group);
      SchedulerLeavesPausedGroup(Spawned(s, settings, next.value, spawnFails), settings, spawnFails, group);
    }
  }

  /** Once the finish step has paused a group, the rest of the turn leaves its waiting and finished
      tasks as they are, but for delays that are over. */
  lemma PausedForTheTurn(s: State, settings: Settings, world: World, group: string, j: TaskId)
    requires PoolsAgree(s) && IsPaused(Finish(s, settings, world.exits), group)
    requires j in s.tasks && s.tasks[j].group == group && !IsRunning(s.tasks[j])
    ensures PoolPerGroup(s)
    ensures var after := Turn(s, settings, world);
      && IsPaused(after, group) && j in after.tasks
      && after.tasks[j] == if j in world.elapsed then EnqueueTask(s.tasks[j]) else s.tasks[j]
  {
    LookupsSucceed(s);
    FinishedAreRunning(s, world.exits, j);
    var finished := Finish(s, settings, world.exits);
    assert finished.tasks[j] == s.tasks[j];
    PreparedLeavesPausedGroup(finished, settings, world, group, j);
    PreparedKeepsPools(s, settings, world);
    hide Finish, PoolsAgree;
    SchedulerLeavesPausedGroup(Prepared(s, settings, world), settings, world.spawnFails, group);
  }

  lemma PreparedLeavesPausedGroup(finished: State, settings: Settings, world: World, group: string, j: TaskId)
    requires IsPaused(finished, group) && j in finished.tasks && finished.tasks[j].group == group
    ensures var after := DependantsFailed(DelayedEnqueued(GroupsReset(finished), world.elapsed));
      && IsPaused(after, group) && j in after.tasks && after.tasks[j].group == group
      && after.tasks[j] == if j in world.elapsed then EnqueueTask(finished.tasks[j]) else finished.tasks[j]
  {
  }

  ghost predicate FailsNow(s: State, world: World, k: TaskId) {
    && k in s.tasks && IsRunning(s.tasks[k]) && k in world.exits
    && (world.exits[k] == IoError || (world.exits[k].Code? && world.exits[k] != Code(0)))
  }

  /** Under `pause_group_on_failure` a failed child pauses its group within the same turn: no task of
      it is started or fails with a dependency, and a pending reset of the group is forgotten. */
  lemma FailureStopsItsGroup(s: State, settings: Settings, world: World, k: TaskId, j: TaskId)
    requires PoolsAgree(s) && settings.pauseGroupOnFailure && FailsNow(s, world, k)
    requires j in s.tasks && s.tasks[j].group == s.tasks[k].group && !IsRunning(s.tasks[j])
    ensures PoolPerGroup(s)
    ensures var after := Turn(s, settings, world);
      && IsPaused(after, s.tasks[k].group) && j in after.tasks
      && after.tasks[j] == if j in world.elapsed then EnqueueTask(s.tasks[j]) else s.tasks[j]
  {
    FailureIsNoticed(s, settings, world, k);
    PausedForTheTurn(s, settings, world, s.tasks[k].group, j);
  }

  /** Under `pause_all_on_failure` alone, the same goes for every group. */
  lemma FailureStopsEveryGroup(s: State, settings: Settings, world: World, k: TaskId, j: TaskId)
    requires PoolsAgree(s) && !settings.pauseGroupOnFailure && settings.pauseAllOnFailure && FailsNow(s, world, k)
    requires j in s.tasks && !IsRunning(s.tasks[j])
    ensures PoolPerGroup(s)
    ensures var after := Turn(s, settings, world);
      && IsPaused(after, s.tasks[j].group) && j in after.tasks
      && after.tasks[j] == if j in world.elapsed then EnqueueTask(s.tasks[j]) else s.tasks[j]
  {
    FailureIsNoticed(s, settings, world, k);
    PausedForTheTurn(s, settings, world, s.tasks[j].group, j);
  }

  lemma FailureIsNoticed(s: State, settings: Settings, world: World, k: TaskId)
    requires PoolsAgree(s) && FailsNow(s, world, k)
    ensures var finished := Finish(s, settings, world.exits);
      && (settings.pauseGroupOnFailure ==> IsPaused(finished, s.tasks[k].group))
      && (!settings.pauseGroupOnFailure && settings.pauseAllOnFailure ==>
            forall g :: g in s.groups ==> IsPaused(finished, g))
  {
    FinishedAreRunning(s, world.exits, k);
    var ids := TasksInSlots(s.pools, FinishedSlots(s.pools, world.exits));
    assert s.tasks[k].group in FailedGroups(s.tasks, ids, world.exits);
  }

  // -- exactly when a reset mark survives -------------------------------------------------------------------

  /** The failures of this turn that overwrite the status of the group: its own under
      `pause_group_on_failure`, any at all under `pause_all_on_failure` alone. Failures are error
      codes and i/o errors, but not kills. */
  ghost predicate FailureHits(s: State, settings: Settings, world: World, group: string) {
    if settings.pauseGroupOnFailure then exists k :: FailsNow(s, world, k) && s.tasks[k].group == group
    else settings.pauseAllOnFailure && exists k :: FailsNow(s, world, k)
  }

  lemma FailuresSeen(s: State, world: World, group: string)
    requires PoolsAgree(s)
    ensures
      var failed := FailedGroups(s.tasks, TasksInSlots(s.pools, FinishedSlots(s.pools, world.exits)), world.exits);
      && (group in failed <==> exists k :: FailsNow(s, world, k) && s.tasks[k].group == group)
      && (failed != {} <==> exists k :: FailsNow(s, world, k))
  {
    var ids := TasksInSlots(s.pools, FinishedSlots(s.pools, world.exits));
    forall k ensures k in ids && PausesGroup(world.exits[k]) <==> FailsNow(s, world, k) {
      FinishedAreRunning(s, world.exits, k);
    }
    hide PoolsAgree, TasksInSlots, FinishedSlots;
    if k :| FailsNow(s, world, k) {
      assert s.tasks[k].group in FailedGroups(s.tasks, ids, world.exits);
    }
  }

  /** The finish step keeps the mark exactly when no failure hits the group. */
  lemma MarkSurvivesFinishIff(s: State, settings: Settings, world: World, group: string)
    requires PoolsAgree(s) && group in s.groups && s.groups[group].status == GroupStatus.Reset
    ensures var finished := Finish(s, settings, world.exits);
      && group in finished.groups
      && (finished.groups[group].status == GroupStatus.Reset <==> !FailureHits(s, settings, world, group))
      && (IsPaused(finished, group) <==> FailureHits(s, settings, world, group))
  {
    hide PoolsAgree, TasksInSlots, FinishedSlots, FailedGroups, FinishTasks, FreeWorkers, FailsNow;
    FailuresSeen(s, world, group);
  }

  ghost predicate ChildrenEnd(s: State, world: World, group: string) {
    forall k :: k in s.tasks && s.tasks[k].group == group && IsRunning(s.tasks[k]) ==> k in world.exits
  }

  ghost predicate HasTasks(s: State, group: string) {
    exists k :: k in s.tasks && s.tasks[k].group == group
  }

  lemma IdleAfterFinishIff(s: State, settings: Settings, world: World, group: string)
    requires PoolsAgree(s) && group in s.groups
    ensures HasActiveTasks(Finish(s, settings, world.exits).pools, group) <==> !ChildrenEnd(s, world, group)
  {
    var finished := Finish(s, settings, world.exits);
    if HasActiveTasks(finished.pools, group) {
      var w :| w in finished.pools[group];
      assert s.pools[group][w] in s.tasks && s.pools[group][w] !in world.exits;
    }
    if k :| k in s.tasks && s.tasks[k].group == group && IsRunning(s.tasks[k]) && k !in world.exits {
      assert HasWorker(s, k);
      var w :| w in s.pools[group] && s.pools[group][w] == k;
      assert w in finished.pools[group];
    }
  }

  /** The last three steps of a turn drop no task and move none to another group. */
  lemma LaterStepsKeepTasks(s: State, settings: Settings, world: World, k: TaskId)
    requires PoolPerGroup(s)
    ensures var reset, after := GroupsReset(Finish(s, settings, world.exits)), Turn(s, settings, world);
      && (k in after.tasks <==> k in reset.tasks)
      && (k in reset.tasks ==> after.tasks[k].group == reset.tasks[k].group)
  {
    hide Finish, GroupsReset;
    PreparedKeepsPools(s, settings, world);
    SpawnedAllFrame(Prepared(s, settings, world), settings, world.spawnFails);
  }

  lemma FinishKeepsGroups(s: State, settings: Settings, exits: Exits)
    ensures var finished := Finish(s, settings, exits);
      && finished.tasks.Keys == s.tasks.Keys && finished.groups.Keys == s.groups.Keys
      && forall k :: k in s.tasks ==> finished.tasks[k].group == s.tasks[k].group
  {
  }

  /** A group marked for reset is emptied by the turn exactly when its children have ended and no
      failure hits it; otherwise all its tasks are still there. */
  lemma ResetEmptiesGroupIff(s: State, settings: Settings, world: World, group: string)
    requires PoolsAgree(s) && group in s.groups && s.groups[group].status == GroupStatus.Reset
    requires HasTasks(s, group)
    ensures PoolPerGroup(s)
    ensures !HasTasks(Turn(s, settings, world), group) <==>
            ChildrenEnd(s, world, group) && !FailureHits(s, settings, world, group)
    ensures HasTasks(Turn(s, settings, world), group) ==>
      forall k :: k in s.tasks && s.tasks[k].group == group ==> k in Turn(s, settings, world).tasks
  {
    LookupsSucceed(s);
    MarkSurvivesFinishIff(s, settings, world, group);
    IdleAfterFinishIff(s, settings, world, group);
    FinishKeepsGroups(s, settings, world.exits);
    hide Finish, PoolsAgree, FailureHits, ChildrenEnd, HasActiveTasks, Turn;
    var finished, after := Finish(s, settings, world.exits), Turn(s, settings, world);
    forall k ensures k in after.tasks && after.tasks[k].group == group <==>
      k in s.tasks && s.tasks[k].group == group && group !in ResettableGroups(finished)
    {
      LaterStepsKeepTasks(s, settings, world, k);
    }
  }

  /** Some ready task that fits in its group (see `SpawnOrder.Fits`) fails to spawn. */
  ghost predicate SpawnWouldFail(s: State, spawnFails: set<TaskId>)
    requires PoolPerGroup(s)
  {
    exists j :: j in spawnFails && Fits(s, {}, j)
  }

  lemma SpawnWouldFailStep(s: State, settings: Settings, id: TaskId, spawnFails: set<TaskId>)
    requires PoolPerGroup(s) && id in s.tasks && PickedFirst(s, id)
    ensures id in spawnFails ==> SpawnWouldFail(s, spawnFails)
    ensures id !in spawnFails ==> var mid := Spawned(s, settings, id, spawnFails);
      PoolPerGroup(mid) && (SpawnWouldFail(s, spawnFails) <==> SpawnWouldFail(mid, spawnFails))
  {
    FirstFits(s, {}, id);
    if id !in spawnFails {
      var mid := Spawned(s, settings, id, spawnFails);
      TakeOne(s, settings, id, spawnFails, s.tasks[id].group);
      assert mid == Spawned(s, settings, id, {});
      TakenNeverFits(s, mid, id, {});
      hide Fits, Spawned, PickedFirst, SetStatus;
      forall j | j in s.tasks && j != id ensures Fits(s, {}, j) <==> Fits(mid, {}, j) {
        FitsStep(s, settings, id, {}, j);
      }
      forall j ensures j !in s.tasks ==> !Fits(s, {}, j) && !Fits(mid, {}, j) {
        FittingExist(s, mid, j);
      }
    }
  }

  lemma FittingExist(s: State, mid: State, j: TaskId)
    requires PoolPerGroup(s) && PoolPerGroup(mid) && s.tasks.Keys == mid.tasks.Keys
    ensures j !in s.tasks ==> !Fits(s, {}, j) && !Fits(mid, {}, j)
  {
  }

  /** Under `pause_all_on_failure` alone a failing spawn overwrites the status of every group, also of
      those the scheduler does not serve; nothing else in its run does. */
  lemma {:induction false} SpawnFailureSpreadsIff(s: State, settings: Settings, spawnFails: set<TaskId>, group: string)
    requires PoolPerGroup(s) && group in s.groups && s.groups[group].status == GroupStatus.Reset
    ensures var after := SpawnedAll(s, settings, spawnFails);
      && group in after.groups
      && (after.groups[group].status == GroupStatus.Reset <==>
            !(!settings.pauseGroupOnFailure && settings.pauseAllOnFailure && SpawnWouldFail(s, spawnFails)))
    decreases |QueuedIds(s.tasks)|
  {
    hide SpawnWouldFail, GetNextTaskId;
    var next := GetNextTaskId(s);
    if next == None {
      NothingCouldFail(s, spawnFails);
    } else {
      var id := next.value;
      var mid := Spawned(s, settings, id, spawnFails);
      StartConsumesQueued(s, settings, id, spawnFails);
      SpawnWouldFailStep(s, settings, id, spawnFails);
      if id in spawnFails && !settings.pauseGroupOnFailure && settings.pauseAllOnFailure {
        SchedulerLeavesPausedGroup(mid, settings, spawnFails, group);
      } else {
        SpawnFailureSpreadsIff(mid, settings, spawnFails, group);
      }
    }
  }

  lemma NothingCouldFail(s: State, spawnFails: set<TaskId>)
    requires PoolPerGroup(s) && forall id :: id in s.tasks ==> !Startable(s, id)
    ensures !SpawnWouldFail(s, spawnFails)
  {
    hide Fits;
    forall j | j in spawnFails ensures !Fits(s, {}, j) {
      NothingFits(s, {}, j);
    }
  }

  // -- what is ready once the first four steps of a turn are done -------------------------------------------

  /** The turn empties the group. */
  ghost predicate EmptiedNow(s: State, settings: Settings, world: World, group: string) {
    && group in s.groups && s.groups[group].status == GroupStatus.Reset
    && ChildrenEnd(s, world, group) && !FailureHits(s, settings, world, group)
  }

  ghost predicate SucceededByNow(s: State, world: World, d: TaskId)
    requires d in s.tasks
  {
    || s.tasks[d].status == Done(Success)
    || ((s.tasks[d].status == TaskStatus.Running || s.tasks[d].status == TaskStatus.Paused)
        && d in world.exits && world.exits[d] == Code(0))
  }

  /** The task was in the queue, or its time has come. */
  ghost predicate WaitsThisTurn(s: State, world: World, j: TaskId)
    requires j in s.tasks
  {
    || s.tasks[j].status == Queued
    || (s.tasks[j].status.Stashed? && s.tasks[j].status.enqueueAt.Some? && j in world.elapsed)
  }

  /** Queued, or waiting for a time that has come, outside of emptied groups; every dependency outside
      of emptied groups has succeeded, be it in this turn. */
  ghost predicate ReadyThisTurn(s: State, settings: Settings, world: World, j: TaskId) {
    && j in s.tasks && !EmptiedNow(s, settings, world, s.tasks[j].group)
    && WaitsThisTurn(s, world, j)
    && forall d :: d in s.tasks[j].dependencies && d in s.tasks && !EmptiedNow(s, settings, world, s.tasks[d].group) ==>
         SucceededByNow(s, world, d)
  }

  /** Over a whole turn the mark stays exactly when the group still has children, no failure hits it,
      and no failing spawn spreads to it. */
  lemma MarkSurvivesTurnIff(s: State, settings: Settings, world: World, group: string)
    requires PoolsAgree(s) && group in s.groups && s.groups[group].status == GroupStatus.Reset
    ensures PoolPerGroup(s) && PoolPerGroup(Prepared(s, settings, world))
    ensures var after := Turn(s, settings, world);
      && group in after.groups
      && (after.groups[group].status == GroupStatus.Reset <==>
            && !ChildrenEnd(s, world, group) && !FailureHits(s, settings, world, group)
            && !(!settings.pauseGroupOnFailure && settings.pauseAllOnFailure
                 && SpawnWouldFail(Prepared(s, settings, world), world.spawnFails)))
  {
    LookupsSucceed(s);
    MarkSurvivesFinishIff(s, settings, world, group);
    IdleAfterFinishIff(s, settings, world, group);
    FinishKeepsGroups(s, settings, world.exits);
    PreparedKeepsPools(s, settings, world);
    var prepared := Prepared(s, settings, world);
    PreparedGroups(Finish(s, settings, world.exits), world, group);
    hide Finish, PoolsAgree, FailureHits, ChildrenEnd, HasActiveTasks, SpawnWouldFail;
    if prepared.groups[group].status == GroupStatus.Reset {
      SpawnFailureSpreadsIff(prepared, settings, world.spawnFails, group);
    } else {
      SpawnsNeverMark(prepared, settings, world.spawnFails, group);
    }
  }

  lemma PreparedGroups(finished: State, world: World, group: string)
    requires group in finished.groups
    ensures var prepared := DependantsFailed(DelayedEnqueued(GroupsReset(finished), world.elapsed));
      && group in prepared.groups
      && (prepared.groups[group].status == GroupStatus.Reset <==>
            finished.groups[group].status == GroupStatus.Reset && HasActiveTasks(finished.pools, group))
  {
  }

  lemma {:induction false} SpawnsNeverMark(s: State, settings: Settings, spawnFails: set<TaskId>, group: string)
    requires PoolPerGroup(s) && group in s.groups && s.groups[group].status != GroupStatus.Reset
    ensures var after := SpawnedAll(s, settings, spawnFails);
      group in after.groups && after.groups[group].status != GroupStatus.Reset
    decreases |QueuedIds(s.tasks)|
  {
    hide GetNextTaskId;
    var next := GetNextTaskId(s);
    if next != None {
      StartConsumesQueued(s, settings, next.value, spawnFails);
      SpawnsNeverMark(Spawned(s, settings, next.value, spawnFails), settings, spawnFails, group);
    }
  }

  lemma ResettableIsEmptied(s: State, settings: Settings, world: World, group: string)
    requires PoolsAgree(s) && group in s.groups
    ensures group in ResettableGroups(Finish(s, settings, world.exits)) <==> EmptiedNow(s, settings, world, group)
  {
    IdleAfterFinishIff(s, settings, world, group);
    FinishKeepsGroups(s, settings, world.exits);
    if s.groups[group].status == GroupStatus.Reset {
      MarkSurvivesFinishIff(s, settings, world, group);
    } else {
      FinishNeverMarks(s, settings, world, group);
    }
  }

  lemma FinishNeverMarks(s: State, settings: Settings, world: World, group: string)
    requires group in s.groups && s.groups[group].status != GroupStatus.Reset
    ensures var finished := Finish(s, settings, world.exits);
      group in finished.groups && finished.groups[group].status != GroupStatus.Reset
  {
  }

  lemma StatusAfterFinish(s: State, settings: Settings, world: World, k: TaskId)
    requires PoolsAgree(s) && k in s.tasks
    ensures var finished := Finish(s, settings, world.exits);
      && k in finished.tasks
      && finished.tasks[k] == if k in world.exits && IsRunning(s.tasks[k])
                              then s.tasks[k].(status := Done(ResultOf(world.exits[k]))) else s.tasks[k]
  {
    FinishedAreRunning(s, world.exits, k);
  }

  lemma PreparedReady(finished: State, world: World, j: TaskId)
    ensures var prepared := DependantsFailed(DelayedEnqueued(GroupsReset(finished), world.elapsed));
      var gone := ResettableGroups(finished);
      Ready(prepared.tasks, j) <==>
        && j in finished.tasks && finished.tasks[j].group !in gone
        && (finished.tasks[j].status.Queued? || (IsQueued(finished.tasks[j]) && j in world.elapsed))
        && forall d ::
             d in finished.tasks[j].dependencies && d in finished.tasks && finished.tasks[d].group !in gone ==>
               Succeeded(finished.tasks[d])
  {
  }

  lemma FinishedTask(s: State, settings: Settings, world: World, k: TaskId)
    requires PoolsAgree(s) && k in s.tasks
    ensures var finished := Finish(s, settings, world.exits);
      && k in finished.tasks
      && finished.tasks[k].group == s.tasks[k].group && finished.tasks[k].dependencies == s.tasks[k].dependencies
      && (s.tasks[k].group in ResettableGroups(finished) <==> EmptiedNow(s, settings, world, s.tasks[k].group))
      && (Succeeded(finished.tasks[k]) <==> SucceededByNow(s, world, k))
      && (finished.tasks[k].status.Queued? <==> s.tasks[k].status.Queued?)
      && (IsQueued(finished.tasks[k]) <==> IsQueued(s.tasks[k]))
  {
    hide Finish, EmptiedNow, ResettableGroups;
    StatusAfterFinish(s, settings, world, k);
    ResettableIsEmptied(s, settings, world, s.tasks[k].group);
  }

  /** What the scheduler finds ready is readable off the state before the turn. */
  lemma ReadyThisTurnIff(s: State, settings: Settings, world: World, j: TaskId)
    requires PoolsAgree(s)
    ensures Ready(Prepared(s, settings, world).tasks, j) <==> ReadyThisTurn(s, settings, world, j)
  {
    var finished := Finish(s, settings, world.exits);
    FinishKeepsGroups(s, settings, world.exits);
    PreparedReady(finished, world, j);
    hide Finish, EmptiedNow, ResettableGroups, Ready, GroupsReset, DependantsFailed, Succeeded, SucceededByNow,
      PoolsAgree;
    forall k | k in s.tasks
      ensures finished.tasks[k].dependencies == s.tasks[k].dependencies
      ensures finished.tasks[k].group in ResettableGroups(finished) <==>
              EmptiedNow(s, settings, world, s.tasks[k].group)
      ensures Succeeded(finished.tasks[k]) <==> SucceededByNow(s, world, k)
      ensures finished.tasks[k].status.Queued? <==> s.tasks[k].status.Queued?
      ensures IsQueued(finished.tasks[k]) <==> IsQueued(s.tasks[k])
    {
      FinishedTask(s, settings, world, k);
    }
  }

  // -- how a turn ends tasks --------------------------------------------------------------------------------

  /** The way a child ended decides the result of its task; every other record stays. */
  lemma ExitDecidesResult(s: State, settings: Settings, exits: Exits, k: TaskId)
    requires PoolsAgree(s) && k in s.tasks
    ensures var before, finished := s.tasks[k], Finish(s, settings, exits);
      && k in finished.tasks
      && var after := finished.tasks[k];
      && (k in exits && (before.status == TaskStatus.Running || before.status == TaskStatus.Paused) ==>
            && after == before.(status := after.status) && after.status.Done?
            && (after.status.result == Killed <==> exits[k] == Signalled)
            && (after.status.result == Errored <==> exits[k] == IoError)
            && (after.status.result == Success <==> exits[k] == Code(0))
            && forall c :: after.status.result == Failed(c) <==> exits[k] == Code(c) && c != 0)
      && (k !in exits || (before.status != TaskStatus.Running && before.status != TaskStatus.Paused) ==>
            after == before)
  {
    FinishedAreRunning(s, exits, k);
  }

  ghost predicate FailedByNow(s: State, world: World, d: TaskId)
    requires d in s.tasks
  {
    || (s.tasks[d].status.Done? && s.tasks[d].status.result != Success)
    || ((s.tasks[d].status == TaskStatus.Running || s.tasks[d].status == TaskStatus.Paused)
        && d in world.exits && world.exits[d] != Code(0))
  }

  ghost predicate PausedNow(s: State, settings: Settings, world: World, group: string) {
    group in s.groups && (s.groups[group].status == GroupStatus.Paused || FailureHits(s, settings, world, group))
  }

  lemma PreparedFails(finished: State, world: World, j: TaskId)
    requires j in finished.tasks && finished.tasks[j].status != Done(DependencyFailed)
    ensures var prepared := DependantsFailed(DelayedEnqueued(GroupsReset(finished), world.elapsed));
      var gone := ResettableGroups(finished);
      j in prepared.tasks && prepared.tasks[j].status == Done(DependencyFailed) <==>
        && finished.tasks[j].group !in gone && !IsPaused(finished, finished.tasks[j].group)
        && (finished.tasks[j].status.Queued? || (IsQueued(finished.tasks[j]) && j in world.elapsed))
        && exists d :: d in finished.tasks[j].dependencies && d in finished.tasks && finished.tasks[d].group !in gone
                       && HasFailed(finished.tasks[d])
  {
  }

  lemma PausedAfterFinish(s: State, settings: Settings, world: World, group: string)
    requires PoolsAgree(s) && group in s.groups
    ensures IsPaused(Finish(s, settings, world.exits), group) <==> PausedNow(s, settings, world, group)
  {
    hide PoolsAgree, TasksInSlots, FinishedSlots, FailedGroups, FinishTasks, FreeWorkers, FailsNow;
    FailuresSeen(s, world, group);
  }

  /** Some dependency that is not emptied away has failed by now, be it in this turn, in whatever way
      but with code 0, and the group of the task is neither paused nor emptied. */
  ghost predicate DependencyFailsNow(s: State, settings: Settings, world: World, j: TaskId)
    requires j in s.tasks
  {
    && !EmptiedNow(s, settings, world, s.tasks[j].group) && !PausedNow(s, settings, world, s.tasks[j].group)
    && exists d :: d in s.tasks[j].dependencies && d in s.tasks && !EmptiedNow(s, settings, world, s.tasks[d].group)
                   && FailedByNow(s, world, d)
  }

  lemma DependencyFailsBeforeSpawns(s: State, settings: Settings, world: World, j: TaskId)
    requires PoolsAgree(s) && j in s.tasks && WaitsThisTurn(s, world, j)
    ensures var prepared := Prepared(s, settings, world);
      j in prepared.tasks && prepared.tasks[j].status == Done(DependencyFailed) <==>
      DependencyFailsNow(s, settings, world, j)
  {
    hide Finish, EmptiedNow, ResettableGroups, GroupsReset, DependantsFailed, HasFailed, FailedByNow, PausedNow,
      PoolsAgree, DelayedEnqueued, IsPaused, Succeeded, SucceededByNow;
    var finished := Finish(s, settings, world.exits);
    FinishKeepsGroups(s, settings, world.exits);
    TasksHaveGroups(s, j);
    PausedAfterFinish(s, settings, world, s.tasks[j].group);
    StatusAfterFinish(s, settings, world, j);
    PreparedFails(finished, world, j);
    forall k | k in s.tasks
      ensures finished.tasks[k].dependencies == s.tasks[k].dependencies
      ensures finished.tasks[k].group in ResettableGroups(finished) <==>
              EmptiedNow(s, settings, world, s.tasks[k].group)
      ensures HasFailed(finished.tasks[k]) <==> FailedByNow(s, world, k)
    {
      FinishedTask(s, settings, world, k);
      FailedAfterFinish(s, settings, world, k);
    }
  }

  /** Exactly when a waiting task ends the turn failed with a dependency. */
  lemma DependencyFailsThisTurnIff(s: State, settings: Settings, world: World, j: TaskId)
    requires PoolsAgree(s) && j in s.tasks && WaitsThisTurn(s, world, j)
    ensures PoolPerGroup(s)
    ensures var after := Turn(s, settings, world);
      j in after.tasks && after.tasks[j].status == Done(DependencyFailed) <==>
      DependencyFailsNow(s, settings, world, j)
  {
    hide PoolsAgree, Prepared, DependencyFailsNow, OnlyStarts, PoolsGrow;
    LookupsSucceed(s);
    DependencyFailsBeforeSpawns(s, settings, world, j);
    PreparedKeepsPools(s, settings, world);
    SpawnedAllFrame(Prepared(s, settings, world), settings, world.spawnFails);
    OnlyStartsKeepsFailures(Prepared(s, settings, world).tasks, Turn(s, settings, world).tasks, j);
  }

  lemma TasksHaveGroups(s: State, k: TaskId)
    requires PoolsAgree(s) && k in s.tasks
    ensures s.tasks[k].group in s.groups
  {
  }

  lemma FailedAfterFinish(s: State, settings: Settings, world: World, k: TaskId)
    requires PoolsAgree(s) && k in s.tasks
    ensures var finished := Finish(s, settings, world.exits);
      k in finished.tasks && (HasFailed(finished.tasks[k]) <==> FailedByNow(s, world, k))
  {
    hide Finish, PoolsAgree;
    StatusAfterFinish(s, settings, world, k);
  }

  lemma OnlyStartsKeepsFailures(before: TaskMap, after: TaskMap, j: TaskId)
    requires OnlyStarts(before, after)
    ensures j in after && after[j].status == Done(DependencyFailed) <==>
            j in before && before[j].status == Done(DependencyFailed)
  {
  }

  /** The steps before the scheduler pause the groups that a failure hits, let the emptied ones run
      again, and leave every other group as it was. */
  lemma GroupsBeforeSpawns(s: State, settings: Settings, world: World, group: string)
    requires PoolsAgree(s) && group in s.groups
    ensures var after := Prepared(s, settings, world);
      && group in after.groups
      && after.groups[group] ==
         if FailureHits(s, settings, world, group) then s.groups[group].(status := GroupStatus.Paused)
         else if EmptiedNow(s, settings, world, group) then s.groups[group].(status := GroupStatus.Running)
         else s.groups[group]
  {
    hide PoolsAgree, TasksInSlots, FinishedSlots, FailedGroups, FinishTasks, FreeWorkers, FailsNow, ResettableGroups,
      EmptiedNow, WithFailedDependencies;
    FailuresSeen(s, world, group);
    ResettableIsEmptied(s, settings, world, group);
    EmptiedIsUnhit(s, settings, world, group);
  }

  lemma EmptiedIsUnhit(s: State, settings: Settings, world: World, group: string)
    ensures EmptiedNow(s, settings, world, group) ==> !FailureHits(s, settings, world, group)
  {
  }
}
