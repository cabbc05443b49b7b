/** The daemon as a state machine: every command and every loop turn is one atomic event,
    and the invariants that hold over whole runs. */
module Runs {
  import opened Lists
  import opened Tasks
  import opened DependencyGraph
  import opened Removal
  import opened AddTask
  import opened Edit
  import opened Switch
  import opened Scheduler
  import opened TaskLoop
  import opened PoolAgreement
  import opened Handlers

  datatype Event =
    | AddRequested(request: AddRequest)
    | EditLocks(editIds: seq<TaskId>)
    | EditApplies(items: seq<EditItem>)
    | EditUnlocks(restoredIds: seq<TaskId>)
    | RemoveRequested(removeIds: seq<TaskId>)
    | CleanRequested(successfulOnly: bool, cleanGroup: Option<string>)
    | SwitchRequested(ids1: seq<TaskId>, ids2: seq<TaskId>)
    | StashRequested(stash: Selection, stashUntil: Option<int>)
    | EnqueueRequested(enqueue: Selection, enqueueAt: Option<int>)
    | RestartRequested(restarts: seq<RestartItem>, stashed: bool)
    | StartRequested(start: Selection, startFails: set<TaskId>, deaf: set<TaskId>)
    | ImmediateStart(startIds: seq<TaskId>, immediateFails: set<TaskId>, deafToStart: set<TaskId>)
    | PauseRequested(pause: Selection, wait: bool, deafToPause: set<TaskId>)
    | KillIssued(kill: Selection)
    | GroupAddRequested(newGroup: string, newLimit: Option<nat>)
    | GroupRemoveRequested(oldGroup: string)
    | ResetRequested(target: ResetTarget)
    | ParallelRequested(limitGroup: string, limit: nat)
    | LoopTurn(world: World)

  // -- the invariants ---------------------------------------------------------------------------------------

  ghost predicate GraphSound(tasks: TaskMap) {
    Agree(tasks) && Acyclic(tasks)
  }

  /** Only tasks that were queued or stashed are ever locked. */
  ghost predicate LockedPlain(tasks: TaskMap) {
    forall k :: k in tasks && tasks[k].status.Locked? ==>
      tasks[k].status.previous.Queued? || tasks[k].status.previous.Stashed?
  }

  ghost predicate Fit(s: State) {
    PoolsAgree(s) && LockedPlain(s.tasks)
  }

  /** What no event can break, however careless: records sit under their ids, pools agree with
      statuses, and only waiting tasks were locked. */
  ghost predicate Orderly(s: State) {
    KeyedById(s.tasks) && Fit(s)
  }

  ghost predicate Sound(s: State) {
    Orderly(s) && GraphSound(s.tasks)
  }

  ghost predicate NothingResetting(s: State) {
    forall g :: g in s.groups ==> s.groups[g].status != GroupStatus.Reset
  }

  // -- events -----------------------------------------------------------------------------------------------

  ghost function Apply(s: State, settings: Settings, event: Event): State
    requires Orderly(s)
  {
    match event
    case AddRequested(request) =>
      if AddAccepted(s, request) then s.(tasks := Added(s.tasks, request)) else s
    case EditLocks(ids) => s.(tasks := LockAll(s.tasks, ids).0)
    case EditApplies(items) =>
      if BatchAccepted(s.tasks, items) then s.(tasks := ApplyEdits(s.tasks, items).0) else s
    case EditUnlocks(ids) => s.(tasks := UnlockAll(s.tasks, ids).0)
    case RemoveRequested(ids) => s.(tasks := WithoutTasks(s.tasks, Elems(AcceptedForRemoval(s.tasks, ids))))
    case CleanRequested(successfulOnly, group) => s.(tasks := Cleaned(s.tasks, successfulOnly, group))
    case SwitchRequested(ids1, ids2) =>
      if SwitchAccepted(s.tasks, ids1, ids2) then
        AcceptedPairsKnown(s.tasks, ids1, ids2);
        s.(tasks := SwapPairs(s.tasks, Zip(ids1, ids2)))
      else s
    case StashRequested(selection, until) => StashedSelection(s, selection, until)
    case EnqueueRequested(selection, at) => EnqueuedSelection(s, selection, at)
    case RestartRequested(items, stashed) => s.(tasks := Restarted(s.tasks, items, stashed))
    case StartRequested(selection, fails, deaf) => Started(s, settings, selection, fails, deaf)
    case ImmediateStart(ids, fails, deaf) => StartIds(s, settings, ids, fails, deaf)
    case PauseRequested(selection, wait, deaf) => PausedSelection(s, selection, wait, deaf)
    case KillIssued(selection) => KillRequested(s, selection)
    case GroupAddRequested(name, limit) => GroupAdded(s, name, limit)
    case GroupRemoveRequested(name) => GroupRemoved(s, name)
    case ResetRequested(target) => ResetMarked(s, target)
    case ParallelRequested(group, limit) => ParallelSet(s, group, limit)
    case LoopTurn(world) => LookupsSucceed(s); Turn(s, settings, world)
  }

  lemma AcceptedPairsKnown(tasks: TaskMap, ids1: seq<TaskId>, ids2: seq<TaskId>)
    requires SwitchAccepted(tasks, ids1, ids2)
    ensures Known(tasks, Zip(ids1, ids2))
  {
    forall i | 0 <= i < |ids1| ensures ids1[i] in tasks && ids2[i] in tasks {
      assert ids1[i] in ids1 + ids2 && ids2[i] in ids1 + ids2;
    }
  }

  /** What the code needs from its callers to keep the graph sound: a fresh id that is free for use,
      edits that do not feed each other in a circle, swaps that are not across an edge. */
  ghost predicate Careful(s: State, event: Event)
    requires Sound(s)
  {
    match event
    case AddRequested(request) => AddAccepted(s, request) ==> FreeForUse(s.tasks, request, NextId(s.tasks))
    case EditApplies(items) => BatchAccepted(s.tasks, items) ==> !Circular(FeedGraph(s.tasks, Effective(items)))
    case SwitchRequested(ids1, ids2) =>
      SwitchAccepted(s.tasks, ids1, ids2) ==>
        (AcceptedPairsKnown(s.tasks, ids1, ids2); EdgeFree(s.tasks, Zip(ids1, ids2)))
    case _ => true
  }

  // -- steps that leave the graph alone ---------------------------------------------------------------------

  /** No finished task becomes unfinished. */
  ghost predicate NoRevival(before: TaskMap, after: TaskMap) {
    forall k :: k in after && k in before && IsDone(before[k]) ==> IsDone(after[k])
  }

  ghost predicate Calm(s: State, after: State) {
    && SameGraph(s.tasks, after.tasks) && NoRevival(s.tasks, after.tasks)
    && Fit(after)
    && (NothingResetting(s) ==> NothingResetting(after))
  }

  lemma CalmTwice(s: State, mid: State, after: State)
    requires Calm(s, mid) && Calm(mid, after)
    ensures Calm(s, after)
  {
  }

  lemma CalmKeepsSound(s: State, after: State)
    requires SameGraph(s.tasks, after.tasks) && Fit(after)
    ensures Orderly(s) ==> Orderly(after)
    ensures Sound(s) ==> Sound(after)
    ensures NoStaleDependents(s.tasks) ==> NoStaleDependents(after.tasks)
    ensures Live(s.tasks) && NoRevival(s.tasks, after.tasks) ==> Live(after.tasks)
  {
    SameGraphKeeps(s.tasks, after.tasks);
  }

  lemma FinishIsCalm(s: State, settings: Settings, exits: Exits)
    requires Fit(s)
    ensures Calm(s, Finish(s, settings, exits))
  {
    hide PoolsAgree;
    FinishKeepsPools(s, settings, exits);
  }

  lemma DelayedIsCalm(s: State, elapsed: set<TaskId>)
    requires Fit(s)
    ensures Calm(s, DelayedEnqueued(s, elapsed))
  {
    hide PoolsAgree;
    DelayedKeepsPools(s, elapsed);
  }

  lemma DependantsAreCalm(s: State)
    requires Fit(s)
    ensures Calm(s, DependantsFailed(s))
  {
    hide PoolsAgree;
    DependantsKeepPools(s);
  }

  lemma SpawnedIsCalm(s: State, settings: Settings, id: TaskId, spawnFails: set<TaskId>)
    requires Fit(s)
    ensures Calm(s, Spawned(s, settings, id, spawnFails))
  {
    hide PoolsAgree;
    SpawnedKeepsPools(s, settings, id, spawnFails);
  }

  lemma {:induction false} SpawnedAllIsCalm(s: State, settings: Settings, spawnFails: set<TaskId>)
    requires Fit(s) && PoolPerGroup(s)
    ensures Calm(s, SpawnedAll(s, settings, spawnFails))
    decreases |QueuedIds(s.tasks)|
  {
    hide PoolsAgree, Spawned, LockedPlain;
    var next := GetNextTaskId(s);
    if next != None {
      var mid := Spawned(s, settings, next.value, spawnFails);
      StartConsumesQueued(s, settings, next.value, spawnFails);
      SpawnedIsCalm(s, settings, next.value, spawnFails);
      SpawnedAllIsCalm(mid, settings, spawnFails);
      CalmTwice(s, mid, SpawnedAll(mid, settings, spawnFails));
    }
  }

  /** Same pools, and a status change that neither starts nor stops anything. */
  lemma QuietChangeIsCalm(s: State, after: State)
    requires Fit(s) && SameRunning(s, after) && SameGraph(s.tasks, after.tasks)
    requires NoRevival(s.tasks, after.tasks) && LockedPlain(after.tasks)
    requires NothingResetting(s) ==> NothingResetting(after)
    ensures Calm(s, after)
  {
    SameRunningKeepsPools(s, after);
  }

  // -- quiet events -----------------------------------------------------------------------------------------

  lemma EditLocksIsCalm(s: State, ids: seq<TaskId>)
    requires Fit(s)
    ensures Calm(s, s.(tasks := LockAll(s.tasks, ids).0))
  {
    LockAllTouchesOnlyListed(s.tasks, ids);
    hide PoolsAgree, LockAll;
    assert forall k :: k in s.tasks ==> s.tasks[k].group in s.groups by { GroupsExist(s); }
    QuietChangeIsCalm(s, s.(tasks := LockAll(s.tasks, ids).0));
  }

  lemma GroupsExist(s: State)
    requires PoolsAgree(s)
    ensures forall k :: k in s.tasks ==> s.tasks[k].group in s.groups
    ensures s.groups.Keys == s.pools.Keys
  {
  }

  lemma {:induction false} UnlockAllRecords(tasks: TaskMap, ids: seq<TaskId>)
    requires LockedPlain(tasks)
    ensures var after := UnlockAll(tasks, ids).0;
      && after.Keys == tasks.Keys && LockedPlain(after)
      && forall k :: k in tasks ==> after[k] == tasks[k] || after[k] == Unlock(tasks[k])
  {
    if ids != [] {
      if ids[0] !in tasks || !tasks[ids[0]].status.Locked? {
        UnlockAllRecords(tasks, ids[1..]);
      } else {
        UnlockAllRecords(tasks[ids[0] := Unlock(tasks[ids[0]])], ids[1..]);
      }
    }
  }

  lemma EditUnlocksIsCalm(s: State, ids: seq<TaskId>)
    requires Fit(s)
    ensures Calm(s, s.(tasks := UnlockAll(s.tasks, ids).0))
  {
    UnlockAllRecords(s.tasks, ids);
    GroupsExist(s);
    hide PoolsAgree, UnlockAll;
    QuietChangeIsCalm(s, s.(tasks := UnlockAll(s.tasks, ids).0));
  }

  /** A task that waits goes on waiting, in the queue or stashed. */
  ghost predicate KeepsWaiting(before: Task, after: Task) {
    after == before ||
    (after == before.(status := after.status)
     && (before.status.Queued? || before.status.Stashed? || before.status.Locked?)
     && (after.status.Queued? || after.status.Stashed?))
  }

  lemma WaitingIsCalm(s: State, tasks: TaskMap)
    requires Fit(s) && tasks.Keys == s.tasks.Keys && forall k :: k in tasks ==> KeepsWaiting(s.tasks[k], tasks[k])
    ensures Calm(s, s.(tasks := tasks))
  {
    hide PoolsAgree;
    GroupsExist(s);
    QuietChangeIsCalm(s, s.(tasks := tasks));
  }

  lemma StashIsCalm(s: State, selection: Selection, until: Option<int>)
    requires Fit(s)
    ensures Calm(s, StashedSelection(s, selection, until))
  {
    hide Fit, Calm, Selected;
    WaitingIsCalm(s, StashedSelection(s, selection, until).tasks);
  }

  lemma EnqueueIsCalm(s: State, selection: Selection, at: Option<int>)
    requires Fit(s)
    ensures Calm(s, EnqueuedSelection(s, selection, at))
  {
    hide Fit, Calm, Selected;
    WaitingIsCalm(s, EnqueuedSelection(s, selection, at).tasks);
  }

  lemma ResumedIsCalm(s: State, ids: set<TaskId>, deaf: set<TaskId>)
    requires Fit(s)
    ensures Calm(s, Resumed(s, ids, deaf))
  {
    GroupsExist(s);
    hide PoolsAgree, ChildIds;
    QuietChangeIsCalm(s, Resumed(s, ids, deaf));
  }

  lemma PausedTasksIsCalm(s: State, ids: set<TaskId>, wait: bool, deaf: set<TaskId>)
    requires Fit(s)
    ensures Calm(s, PausedTasks(s, ids, wait, deaf))
  {
    GroupsExist(s);
    hide PoolsAgree, ChildIds;
    QuietChangeIsCalm(s, PausedTasks(s, ids, wait, deaf));
  }

  /** Only the status or limit of groups changes. */
  lemma GroupChangeIsCalm(s: State, groups: GroupMap)
    requires Fit(s) && groups.Keys == s.groups.Keys
    requires NothingResetting(s) ==> NothingResetting(s.(groups := groups))
    ensures Calm(s, s.(groups := groups))
  {
    GroupsExist(s);
    hide PoolsAgree;
    QuietChangeIsCalm(s, s.(groups := groups));
  }

  lemma {:induction false} StartIdsIsCalm(s: State, settings: Settings, ids: seq<TaskId>,
                                          fails: set<TaskId>, deaf: set<TaskId>)
    requires Fit(s)
    ensures Calm(s, StartIds(s, settings, ids, fails, deaf))
    decreases |ids|
  {
    hide PoolsAgree, Spawned, Resumed, ChildIds, LockedPlain;
    if ids != [] {
      var next := if ids[0] in ChildIds(s.pools) then Resumed(s, {ids[0]}, deaf)
                  else Spawned(s, settings, ids[0], fails);
      if ids[0] in ChildIds(s.pools) {
        ResumedIsCalm(s, {ids[0]}, deaf);
      } else {
        SpawnedIsCalm(s, settings, ids[0], fails);
      }
      StartIdsIsCalm(next, settings, ids[1..], fails, deaf);
      CalmTwice(s, next, StartIds(next, settings, ids[1..], fails, deaf));
    }
  }

  lemma StartIsCalm(s: State, settings: Settings, selection: Selection, fails: set<TaskId>, deaf: set<TaskId>)
    requires Fit(s)
    ensures Calm(s, Started(s, settings, selection, fails, deaf))
  {
    hide PoolsAgree, Resumed, StartIds, ChildIds, LockedPlain;
    var after := Started(s, settings, selection, fails, deaf);
    match selection {
      case TaskIds(ids) => StartIdsIsCalm(s, settings, ids, fails, deaf);
      case InGroup(name) =>
        var mid := s.(groups := SetGroup(s.groups, name, GroupStatus.Running));
        GroupChangeIsCalm(s, mid.groups);
        ResumedIsCalm(mid, PausedIn(s.tasks, name), deaf);
        if name in s.groups { CalmTwice(s, mid, after); }
      case Everything =>
        var mid := s.(groups := SetAllGroups(s.groups, GroupStatus.Running));
        GroupChangeIsCalm(s, mid.groups);
        ResumedIsCalm(mid, ChildIds(s.pools), deaf);
        CalmTwice(s, mid, after);
    }
  }

  lemma PauseIsCalm(s: State, selection: Selection, wait: bool, deaf: set<TaskId>)
    requires Fit(s)
    ensures Calm(s, PausedSelection(s, selection, wait, deaf))
  {
    hide PoolsAgree, PausedTasks, ChildIds, LockedPlain, KnownPrefix;
    var after := PausedSelection(s, selection, wait, deaf);
    match selection {
      case TaskIds(ids) => PausedTasksIsCalm(s, Elems(KnownPrefix(s.tasks, ids)), wait, deaf);
      case InGroup(name) =>
        var mid := s.(groups := SetGroup(s.groups, name, GroupStatus.Paused));
        GroupChangeIsCalm(s, mid.groups);
        PausedTasksIsCalm(mid, RunningIn(s.tasks, name), wait, deaf);
        if name in s.groups { CalmTwice(s, mid, after); }
      case Everything =>
        var mid := s.(groups := SetAllGroups(s.groups, GroupStatus.Paused));
        GroupChangeIsCalm(s, mid.groups);
        PausedTasksIsCalm(mid, ChildIds(s.pools), wait, deaf);
        CalmTwice(s, mid, after);
    }
  }

  lemma KillIsCalm(s: State, selection: Selection)
    requires Fit(s)
    ensures Calm(s, KillRequested(s, selection))
  {
    hide PoolsAgree, HasUpcoming;
    GroupChangeIsCalm(s, KillRequested(s, selection).groups);
  }

  lemma ParallelIsCalm(s: State, group: string, limit: nat)
    requires Fit(s)
    ensures Calm(s, ParallelSet(s, group, limit))
  {
    hide PoolsAgree;
    GroupChangeIsCalm(s, ParallelSet(s, group, limit).groups);
  }

  lemma GroupAddIsCalm(s: State, name: string, limit: Option<nat>)
    requires Fit(s)
    ensures Calm(s, GroupAdded(s, name, limit))
  {
    if name !in s.groups {
      var after := GroupAdded(s, name, limit);
      assert RunningHaveWorkers(after) by {
        forall k | k in after.tasks && IsRunning(after.tasks[k]) ensures HasWorker(after, k) {
          assert HasWorker(s, k);
        }
      }
      assert OneWorkerEach(after);
      assert ChildrenRun(after);
    }
  }

  /** A group without tasks has an existing, empty pool, so the emergency branches of a group
      removal cannot be reached. */
  lemma EmptyGroupHasEmptyPool(s: State, name: string)
    requires PoolsAgree(s) && GroupRemovable(s, name)
    ensures name in s.pools && s.pools[name] == map[]
  {
    assert forall w :: w in s.pools[name] ==> s.pools[name][w] in s.tasks;
  }

  lemma GroupRemoveIsCalm(s: State, name: string)
    requires Fit(s)
    ensures Calm(s, GroupRemoved(s, name))
  {
    var after := GroupRemoved(s, name);
    forall k | k in after.tasks && IsRunning(after.tasks[k]) ensures HasWorker(after, k) {
      assert HasWorker(s, k);
    }
  }

  lemma RestartKeepsFit(s: State, items: seq<RestartItem>, stashed: bool)
    requires Fit(s)
    ensures var after := s.(tasks := Restarted(s.tasks, items, stashed));
      SameGraph(s.tasks, after.tasks) && Fit(after)
  {
    RestartedRecords(s.tasks, items, stashed);
    GroupsExist(s);
    var after := s.(tasks := Restarted(s.tasks, items, stashed));
    hide PoolsAgree, Restarted;
    assert SameRunning(s, after);
    SameRunningKeepsPools(s, after);
  }

  lemma {:induction false} RestartedRecords(tasks: TaskMap, items: seq<RestartItem>, stashed: bool)
    ensures var after := Restarted(tasks, items, stashed);
      && SameGraph(tasks, after)
      && (forall k :: k in tasks ==>
            && after[k].group == tasks[k].group
            && (after[k] == tasks[k] ||
                (IsDone(tasks[k]) && (after[k].status.Queued? || after[k].status == Stashed(None)))))
    decreases |items|
  {
    if items != [] {
      if items[0].id in tasks && IsDone(tasks[items[0].id]) {
        var next := tasks[items[0].id := RestartedTask(tasks[items[0].id], items[0], stashed)];
        RestartedRecords(next, items[1..], stashed);
      } else {
        RestartedRecords(tasks, items[1..], stashed);
      }
    }
  }

  // -- events that change the graph -------------------------------------------------------------------------

  lemma NewTaskKeepsFit(s: State, request: AddRequest)
    requires Fit(s) && AddAccepted(s, request)
    ensures Fit(s.(tasks := Added(s.tasks, request)))
  {
    AddedRecords(s.tasks, request);
    GroupsExist(s);
    var after := s.(tasks := Added(s.tasks, request));
    hide PoolsAgree, Added, NextId;
    assert SameRunning(s, after);
    SameRunningKeepsPools(s, after);
  }

  lemma AddKeepsOrder(s: State, request: AddRequest)
    requires Orderly(s) && AddAccepted(s, request)
    ensures Orderly(s.(tasks := Added(s.tasks, request)))
  {
    hide KeyedById, Fit, Added;
    AddKeepsKeys(s.tasks, request);
    NewTaskKeepsFit(s, request);
  }

  lemma AddKeepsSound(s: State, request: AddRequest)
    requires Sound(s) && AddAccepted(s, request) && FreeForUse(s.tasks, request, NextId(s.tasks))
    ensures Sound(s.(tasks := Added(s.tasks, request)))
    ensures NoStaleDependents(s.tasks) ==> NoStaleDependents(Added(s.tasks, request))
    ensures Live(s.tasks) ==> Live(Added(s.tasks, request))
  {
    hide Orderly, Agree, Acyclic, FreeForUse, Live, NoStaleDependents, Added;
    AddKeepsGraph(s.tasks, request);
    AddKeepsOrder(s, request);
  }

  /** Removing tasks without a process. */
  lemma RemovalKeepsFit(s: State, gone: set<TaskId>)
    requires Fit(s) && forall k :: k in gone && k in s.tasks ==> !IsRunning(s.tasks[k])
    ensures Fit(s.(tasks := WithoutTasks(s.tasks, gone)))
  {
    GroupsExist(s);
    var after := s.(tasks := WithoutTasks(s.tasks, gone));
    hide PoolsAgree;
    assert SameRunning(s, after);
    SameRunningKeepsPools(s, after);
  }

  lemma RemovalKeepsOrder(s: State, gone: set<TaskId>)
    requires Orderly(s) && forall k :: k in gone && k in s.tasks ==> !IsRunning(s.tasks[k])
    ensures Orderly(s.(tasks := WithoutTasks(s.tasks, gone)))
  {
    hide KeyedById, Fit, WithoutTasks;
    RemovalKeepsGraph(s.tasks, gone);
    RemovalKeepsFit(s, gone);
  }

  lemma RemovalKeepsSound(s: State, gone: set<TaskId>)
    requires Sound(s) && forall k :: k in gone && k in s.tasks ==> !IsRunning(s.tasks[k])
    ensures Sound(s.(tasks := WithoutTasks(s.tasks, gone)))
    ensures NoStaleDependents(s.tasks) ==> NoStaleDependents(WithoutTasks(s.tasks, gone))
    ensures Live(s.tasks) && Closed(s.tasks, gone) ==> Live(WithoutTasks(s.tasks, gone))
  {
    hide Orderly, Agree, Acyclic, Live, NoStaleDependents, WithoutTasks, Closed;
    RemovalKeepsGraph(s.tasks, gone);
    RemovalKeepsOrder(s, gone);
    if Live(s.tasks) && Closed(s.tasks, gone) {
      RemovalKeepsLive(s.tasks, gone);
    }
  }

  /** Edits leave a task in its group, and touch its status only to unlock it. */
  ghost predicate AtMostUnlocked(task: Task, after: Task) {
    && after.id == task.id && after.group == task.group
    && (after.status == task.status || after.status == Unlock(task).status)
  }

  lemma EditRecord(tasks: TaskMap, item: EditItem)
    requires LockedPlain(tasks) && item.id in tasks
    ensures var next := Edited(tasks, item);
      && next.Keys == tasks.Keys && LockedPlain(next)
      && forall k :: k in tasks ==> AtMostUnlocked(tasks[k], next[k])
  {
    EditedForward(tasks, item);
    hide Edited;
  }

  lemma {:induction false} BatchRecords(tasks: TaskMap, items: seq<EditItem>)
    requires LockedPlain(tasks)
    ensures var after := ApplyEdits(tasks, items).0;
      && after.Keys == tasks.Keys && LockedPlain(after)
      && forall k :: k in tasks ==> AtMostUnlocked(tasks[k], after[k])
    decreases |items|
  {
    hide Edited;
    if items != [] {
      if items[0].id !in tasks {
        BatchRecords(tasks, items[1..]);
      } else if tasks[items[0].id].status.Locked? {
        EditRecord(tasks, items[0]);
        BatchRecords(Edited(tasks, items[0]), items[1..]);
      }
    }
  }

  lemma EditKeepsOrder(s: State, items: seq<EditItem>)
    requires Orderly(s)
    ensures Orderly(s.(tasks := ApplyEdits(s.tasks, items).0))
  {
    hide PoolsAgree, ApplyEdits;
    var after := s.(tasks := ApplyEdits(s.tasks, items).0);
    BatchRecords(s.tasks, items);
    GroupsExist(s);
    assert SameRunning(s, after);
    SameRunningKeepsPools(s, after);
  }

  lemma AcceptedAreLocked(tasks: TaskMap, items: seq<EditItem>)
    requires BatchAccepted(tasks, items)
    ensures AllLocked(tasks, items)
  {
    forall i | 0 <= i < |items| ensures items[i].id in tasks && tasks[items[i].id].status.Locked? {
      assert EditAccepted(tasks, items[i]);
    }
  }

  lemma EditKeepsAcyclicIff(s: State, items: seq<EditItem>)
    requires Orderly(s) && Acyclic(s.tasks) && BatchAccepted(s.tasks, items)
    ensures Acyclic(ApplyEdits(s.tasks, items).0) <==> !Circular(FeedGraph(s.tasks, Effective(items)))
  {
    hide Acyclic, ApplyEdits, BatchAccepted, AllLocked, FeedGraph, Effective, PoolsAgree;
    AcceptedAreLocked(s.tasks, items);
    BatchAcyclicIff(s.tasks, items);
  }

  lemma EditKeepsSound(s: State, items: seq<EditItem>)
    requires Sound(s) && BatchAccepted(s.tasks, items) && !Circular(FeedGraph(s.tasks, Effective(items)))
    ensures Sound(s.(tasks := ApplyEdits(s.tasks, items).0))
    ensures NoStaleDependents(s.tasks) ==> NoStaleDependents(ApplyEdits(s.tasks, items).0)
    ensures Live(s.tasks) ==> Live(ApplyEdits(s.tasks, items).0)
  {
    hide Orderly, Agree, Acyclic, Live, NoStaleDependents, ApplyEdits, BatchAccepted, FeedGraph, Effective;
    ItemsExist(s.tasks, items);
    BatchKeepsGraph(s.tasks, items);
    EditKeepsAcyclicIff(s, items);
    if Live(s.tasks) { BatchKeepsLive(s.tasks, items); }
    EditKeepsOrder(s, items);
  }

  /** A single edit, and a batch that stays clear of its own tasks, are careful. */
  lemma SingleOrSafeEditIsCareful(s: State, items: seq<EditItem>)
    requires Sound(s) && (|items| == 1 || SafeBatch(s.tasks, items))
    ensures Careful(s, EditApplies(items))
  {
    hide Orderly, Agree, Acyclic, ApplyEdits, FeedGraph, Effective, SafeBatch, BatchAccepted;
    if BatchAccepted(s.tasks, items) {
      if |items| == 1 { SingleAcceptedIsSafe(s.tasks, items); }
      SafeBatchKeepsAcyclic(s.tasks, items);
      EditKeepsAcyclicIff(s, items);
    }
  }

  lemma ItemsExist(tasks: TaskMap, items: seq<EditItem>)
    requires BatchAccepted(tasks, items)
    ensures ItemDependenciesExist(tasks, items)
  {
    forall i, d | 0 <= i < |items| && d in items[i].dependencies ensures d in tasks {
      assert EditAccepted(tasks, items[i]);
    }
  }

  ghost predicate PairsSwitchable(tasks: TaskMap, pairs: seq<Pair>) {
    forall i :: 0 <= i < |pairs| ==>
      && pairs[i].0 in tasks && IsSwitchable(tasks[pairs[i].0])
      && pairs[i].1 in tasks && IsSwitchable(tasks[pairs[i].1])
  }

  lemma SwapStatuses(tasks: TaskMap, a: TaskId, b: TaskId)
    requires KeyedById(tasks) && a in tasks && b in tasks
    ensures var after := SwapStep(tasks, a, b);
      && after.Keys == tasks.Keys && KeyedById(after)
      && after[a].status == tasks[b].status && after[a].group == tasks[b].group
      && after[b].status == tasks[a].status && after[b].group == tasks[a].group
      && (forall k :: k in tasks && k != a && k != b ==>
            after[k].status == tasks[k].status && after[k].group == tasks[k].group)
  {
  }

  /** A swap of two waiting tasks moves no running task and keeps waiting tasks where they were. */
  lemma SwapKeepsFit(s: State, a: TaskId, b: TaskId)
    requires KeyedById(s.tasks) && Fit(s) && a in s.tasks && b in s.tasks
    requires IsSwitchable(s.tasks[a]) && IsSwitchable(s.tasks[b])
    ensures var after := s.(tasks := SwapStep(s.tasks, a, b));
      && after.tasks.Keys == s.tasks.Keys && KeyedById(after.tasks) && Fit(after)
      && forall k :: k in s.tasks && IsSwitchable(s.tasks[k]) ==> IsSwitchable(after.tasks[k])
  {
    hide PoolsAgree, SwapStep, KeyedById;
    var after := s.(tasks := SwapStep(s.tasks, a, b));
    SwapStatuses(s.tasks, a, b);
    GroupsExist(s);
    assert SameRunning(s, after);
    SameRunningKeepsPools(s, after);
  }

  lemma {:induction false} SwapPairsKeepsFit(s: State, pairs: seq<Pair>)
    requires KeyedById(s.tasks) && Fit(s) && PairsSwitchable(s.tasks, pairs) && Known(s.tasks, pairs)
    ensures Fit(s.(tasks := SwapPairs(s.tasks, pairs))) && KeyedById(SwapPairs(s.tasks, pairs))
    decreases |pairs|
  {
    hide KeyedById, Fit, SwapStep;
    if pairs != [] {
      var a, b, rest := pairs[0].0, pairs[0].1, pairs[1..];
      var next := s.(tasks := SwapStep(s.tasks, a, b));
      SwapKeepsFit(s, a, b);
      assert forall i :: 0 <= i < |rest| ==> rest[i] == pairs[i + 1];
      SwapPairsKeepsFit(next, rest);
    }
  }

  lemma SwitchKeepsOrder(s: State, ids1: seq<TaskId>, ids2: seq<TaskId>)
    requires Orderly(s) && SwitchAccepted(s.tasks, ids1, ids2) && Known(s.tasks, Zip(ids1, ids2))
    ensures Orderly(s.(tasks := SwapPairs(s.tasks, Zip(ids1, ids2))))
  {
    var pairs := Zip(ids1, ids2);
    hide KeyedById, Fit, SwapPairs;
    forall i | 0 <= i < |pairs|
      ensures IsSwitchable(s.tasks[pairs[i].0]) && IsSwitchable(s.tasks[pairs[i].1])
    {
      assert pairs[i].0 in ids1 + ids2 && pairs[i].1 in ids1 + ids2;
    }
    SwapPairsKeepsFit(s, pairs);
  }

  lemma SwitchKeepsSound(s: State, ids1: seq<TaskId>, ids2: seq<TaskId>)
    requires Sound(s) && SwitchAccepted(s.tasks, ids1, ids2) && Known(s.tasks, Zip(ids1, ids2))
    requires EdgeFree(s.tasks, Zip(ids1, ids2))
    ensures Sound(s.(tasks := SwapPairs(s.tasks, Zip(ids1, ids2))))
    ensures NoStaleDependents(s.tasks) ==> NoStaleDependents(SwapPairs(s.tasks, Zip(ids1, ids2)))
    ensures Live(s.tasks) ==> Live(SwapPairs(s.tasks, Zip(ids1, ids2)))
  {
    hide Fit, Agree, Acyclic, SwapPairs, EdgeFree, NoStaleDependents, Live, KeyedById;
    SwapPairsKeepsGraph(s.tasks, Zip(ids1, ids2));
    SwitchKeepsOrder(s, ids1, ids2);
  }

  // -- a turn of the loop -----------------------------------------------------------------------------------

  /** The reset of groups drops whole tasks without touching any list. */
  lemma DroppingTasksKeepsGraph(tasks: TaskMap, rest: TaskMap)
    requires rest.Keys <= tasks.Keys && forall k :: k in rest ==> rest[k] == tasks[k]
    ensures KeyedById(tasks) ==> KeyedById(rest)
    ensures GraphSound(tasks) ==> GraphSound(rest)
    ensures LockedPlain(tasks) ==> LockedPlain(rest)
  {
    if Acyclic(tasks) {
      var rank: map<TaskId, int>, bound: int :| Ranked(tasks, rank, bound);
      assert Ranked(rest, rank, bound);
    }
  }

  lemma ResetKeepsSound(s: State)
    requires Orderly(s)
    ensures Orderly(GroupsReset(s))
    ensures Sound(s) ==> Sound(GroupsReset(s))
    ensures NothingResetting(s) ==> GroupsReset(s) == s
  {
    hide GraphSound, LockedPlain, PoolsAgree, KeyedById;
    DroppingTasksKeepsGraph(s.tasks, GroupsReset(s).tasks);
    ResetKeepsPools(s);
    if NothingResetting(s) {
      assert ResettableGroups(s) == {};
      assert GroupsReset(s).tasks == s.tasks && GroupsReset(s).groups == s.groups;
    }
  }

  lemma TurnKeepsSound(s: State, settings: Settings, world: World)
    requires Orderly(s) && PoolPerGroup(s)
    ensures Orderly(Turn(s, settings, world))
    ensures Sound(s) ==> Sound(Turn(s, settings, world))
    ensures NothingResetting(s) ==> Calm(s, Turn(s, settings, world))
  {
    hide GraphSound, KeyedById, Fit, Calm, NothingResetting, Finish, GroupsReset, DelayedEnqueued, DependantsFailed,
      SpawnedAll;
    var finished := Finish(s, settings, world.exits);
    FinishIsCalm(s, settings, world.exits);
    CalmIsSound(s, finished);
    var reset := GroupsReset(finished);
    ResetKeepsSound(finished);
    var delayed := DelayedEnqueued(reset, world.elapsed);
    DelayedIsCalm(reset, world.elapsed);
    CalmIsSound(reset, delayed);
    var checked := DependantsFailed(delayed);
    DependantsAreCalm(delayed);
    CalmIsSound(delayed, checked);
    CalmTwice(reset, delayed, checked);
    PreparedKeepsPools(s, settings, world);
    var after := SpawnedAll(checked, settings, world.spawnFails);
    SpawnedAllIsCalm(checked, settings, world.spawnFails);
    CalmIsSound(checked, after);
    CalmTwice(reset, checked, after);
    if NothingResetting(s) {
      CalmKeepsResetting(s, finished);
      CalmTwice(s, finished, after);
    }
  }

  lemma CalmIsSound(s: State, after: State)
    requires Calm(s, after)
    ensures Orderly(s) ==> Orderly(after)
    ensures Sound(s) ==> Sound(after)
    ensures Fit(after)
  {
    hide GraphSound, KeyedById, Fit;
    CalmKeepsSound(s, after);
  }

  lemma CalmKeepsResetting(s: State, after: State)
    requires Calm(s, after) && NothingResetting(s)
    ensures NothingResetting(after)
  {
  }

  // -- one event --------------------------------------------------------------------------------------------

  /** Events after which every list is as it was and no finished task lives again. */
  predicate ChangesNoList(event: Event) {
    || event.EditLocks? || event.EditUnlocks? || event.StashRequested? || event.EnqueueRequested?
    || event.StartRequested? || event.ImmediateStart? || event.PauseRequested? || event.KillIssued?
    || event.GroupAddRequested? || event.GroupRemoveRequested? || event.ParallelRequested?
  }

  lemma CalmEvents(s: State, settings: Settings, event: Event)
    requires Orderly(s) && ChangesNoList(event)
    ensures Calm(s, Apply(s, settings, event))
  {
    hide Calm, KeyedById, PoolsAgree, LockedPlain, Started, StartIds, PausedSelection, StashedSelection,
      EnqueuedSelection, KillRequested, GroupAdded, GroupRemoved, ParallelSet, LockAll, UnlockAll;
    match event {
      case EditLocks(ids) => EditLocksIsCalm(s, ids);
      case EditUnlocks(ids) => EditUnlocksIsCalm(s, ids);
      case StashRequested(selection, until) => StashIsCalm(s, selection, until);
      case EnqueueRequested(selection, at) => EnqueueIsCalm(s, selection, at);
      case StartRequested(selection, fails, deaf) => StartIsCalm(s, settings, selection, fails, deaf);
      case ImmediateStart(ids, fails, deaf) => StartIdsIsCalm(s, settings, ids, fails, deaf);
      case PauseRequested(selection, wait, deaf) => PauseIsCalm(s, selection, wait, deaf);
      case KillIssued(selection) => KillIsCalm(s, selection);
      case GroupAddRequested(name, limit) => GroupAddIsCalm(s, name, limit);
      case GroupRemoveRequested(name) => GroupRemoveIsCalm(s, name);
      case ParallelRequested(group, limit) => ParallelIsCalm(s, group, limit);
    }
  }

  /** What a step keeps: soundness always; the index without leftovers and the survival of
      dependencies under the side conditions of the two whole-run theorems. */
  ghost predicate StepKeeps(s: State, after: State, resets: bool, revives: bool) {
    && Sound(after)
    && (NothingResetting(s) && !resets ==> NothingResetting(after))
    && (NothingResetting(s) && !resets && NoStaleDependents(s.tasks) ==> NoStaleDependents(after.tasks))
    && (NothingResetting(s) && !resets && !revives && Live(s.tasks) ==> Live(after.tasks))
  }

  lemma CalmStepKeeps(s: State, after: State)
    requires Sound(s) && Calm(s, after)
    ensures StepKeeps(s, after, false, false)
  {
    CalmKeepsSound(s, after);
  }

  lemma RemovalStep(s: State, ids: seq<TaskId>)
    requires Sound(s)
    ensures StepKeeps(s, s.(tasks := WithoutTasks(s.tasks, Elems(AcceptedForRemoval(s.tasks, ids)))), false, false)
  {
    var accepted := AcceptedForRemoval(s.tasks, ids);
    assert forall k :: k in accepted ==> k in RemovalCandidates(s.tasks, ids);
    AcceptedIsClosed(s.tasks, ids);
    hide Sound, Closed, Live, NoStaleDependents, WithoutTasks;
    RemovalKeepsSound(s, Elems(accepted));
  }

  lemma CleanStep(s: State, successfulOnly: bool, group: Option<string>)
    requires Sound(s)
    ensures StepKeeps(s, s.(tasks := Cleaned(s.tasks, successfulOnly, group)), false, false)
  {
    hide Sound, Closed, Live, NoStaleDependents, WithoutTasks;
    CleanedIsClosed(s.tasks, successfulOnly, group);
    RemovalKeepsSound(s, CleanSelection(s.tasks, successfulOnly, group));
  }

  lemma ResetMarkKeepsSound(s: State, target: ResetTarget)
    requires Orderly(s)
    ensures Orderly(ResetMarked(s, target))
    ensures Sound(s) ==> Sound(ResetMarked(s, target))
  {
    var after := ResetMarked(s, target);
    GroupsExist(s);
    hide PoolsAgree, GraphSound, KeyedById;
    assert SameRunning(s, after);
    SameRunningKeepsPools(s, after);
  }

  lemma RestartStep(s: State, items: seq<RestartItem>, stashed: bool)
    requires Sound(s)
    ensures StepKeeps(s, s.(tasks := Restarted(s.tasks, items, stashed)), false, true)
  {
    RestartKeepsFit(s, items, stashed);
    CalmKeepsSound(s, s.(tasks := Restarted(s.tasks, items, stashed)));
  }

  lemma TurnStep(s: State, settings: Settings, world: World)
    requires Sound(s) && PoolPerGroup(s)
    ensures StepKeeps(s, Turn(s, settings, world), false, false)
  {
    hide Turn, GraphSound, Orderly, Calm, NothingResetting, Live, NoStaleDependents;
    TurnKeepsSound(s, settings, world);
    if NothingResetting(s) { CalmStepKeeps(s, Turn(s, settings, world)); }
  }

  lemma StepKeepsInvariants(s: State, settings: Settings, event: Event)
    requires Sound(s) && Careful(s, event)
    ensures StepKeeps(s, Apply(s, settings, event), event.ResetRequested?, event.RestartRequested?)
  {
    hide GraphSound, Orderly, Live, NoStaleDependents, Turn, Restarted, WithoutTasks, Cleaned, Added, ApplyEdits,
      SwapPairs, EdgeFree, FreeForUse, FeedGraph, Effective, BatchAccepted, AddAccepted, SwitchAccepted,
      AcceptedForRemoval;
    if ChangesNoList(event) {
      CalmEvents(s, settings, event);
      CalmStepKeeps(s, Apply(s, settings, event));
    } else {
      match event {
        case AddRequested(request) =>
          if AddAccepted(s, request) { AddKeepsSound(s, request); }
        case EditApplies(items) =>
          if BatchAccepted(s.tasks, items) { EditKeepsSound(s, items); }
        case RemoveRequested(ids) => RemovalStep(s, ids);
        case CleanRequested(successfulOnly, group) => CleanStep(s, successfulOnly, group);
        case SwitchRequested(ids1, ids2) =>
          if SwitchAccepted(s.tasks, ids1, ids2) {
            AcceptedPairsKnown(s.tasks, ids1, ids2);
            SwitchKeepsSound(s, ids1, ids2);
          }
        case RestartRequested(items, stashed) => RestartStep(s, items, stashed);
        case ResetRequested(target) => ResetMarkKeepsSound(s, target);
        case LoopTurn(world) =>
          SoundHasPools(s);
          TurnStep(s, settings, world);
      }
    }
  }

  lemma SoundHasPools(s: State)
    requires Sound(s)
    ensures PoolPerGroup(s) && ChildrenKnown(s)
  {
    LookupsSucceed(s);
  }

  // -- any event at all -------------------------------------------------------------------------------------

  lemma CleanedAreDone(tasks: TaskMap, successfulOnly: bool, group: Option<string>)
    ensures forall k :: k in CleanSelection(tasks, successfulOnly, group) ==> k in tasks && !IsRunning(tasks[k])
  {
  }

  lemma AcceptedAreIdle(tasks: TaskMap, ids: seq<TaskId>)
    ensures forall k :: k in Elems(AcceptedForRemoval(tasks, ids)) ==> k in tasks && !IsRunning(tasks[k])
  {
    assert forall k :: k in AcceptedForRemoval(tasks, ids) ==> k in RemovalCandidates(tasks, ids);
  }

  /** No event can make pools and statuses disagree, or file a record under a foreign id: neither a
      reused id, nor edits that close a cycle, nor a swap across an edge, nor anything after them. */
  lemma AnyStepKeepsOrder(s: State, settings: Settings, event: Event)
    requires Orderly(s)
    ensures Orderly(Apply(s, settings, event))
  {
    hide KeyedById, Fit, Turn, Restarted, WithoutTasks, Added, ApplyEdits, SwapPairs, BatchAccepted, AddAccepted,
      SwitchAccepted, AcceptedForRemoval, CleanSelection;
    if ChangesNoList(event) {
      CalmEvents(s, settings, event);
      CalmIsSound(s, Apply(s, settings, event));
    } else {
      match event {
        case AddRequested(request) =>
          if AddAccepted(s, request) { AddKeepsOrder(s, request); }
        case EditApplies(items) =>
          if BatchAccepted(s.tasks, items) { EditKeepsOrder(s, items); }
        case RemoveRequested(ids) =>
          AcceptedAreIdle(s.tasks, ids);
          RemovalKeepsOrder(s, Elems(AcceptedForRemoval(s.tasks, ids)));
        case CleanRequested(successfulOnly, group) =>
          CleanedAreDone(s.tasks, successfulOnly, group);
          RemovalKeepsOrder(s, CleanSelection(s.tasks, successfulOnly, group));
        case SwitchRequested(ids1, ids2) =>
          if SwitchAccepted(s.tasks, ids1, ids2) {
            AcceptedPairsKnown(s.tasks, ids1, ids2);
            SwitchKeepsOrder(s, ids1, ids2);
          }
        case RestartRequested(items, stashed) =>
          RestartKeepsFit(s, items, stashed);
          CalmKeepsSound(s, s.(tasks := Restarted(s.tasks, items, stashed)));
        case ResetRequested(target) => ResetMarkKeepsSound(s, target);
        case LoopTurn(world) =>
          LookupsOf(s);
          TurnKeepsSound(s, settings, world);
      }
    }
  }

  lemma LookupsOf(s: State)
    requires Orderly(s)
    ensures PoolPerGroup(s) && ChildrenKnown(s)
  {
    LookupsSucceed(s);
  }

  // -- carefulness is needed --------------------------------------------------------------------------------

  /** For adding, editing and a single swap, being careful is exactly what keeps a state sound. */
  lemma CarefulIff(s: State, settings: Settings, event: Event)
    requires Sound(s)
    requires event.AddRequested? || event.EditApplies? || (event.SwitchRequested? && |event.ids1| == 1)
    ensures Sound(Apply(s, settings, event)) <==> Careful(s, event)
  {
    if Careful(s, event) {
      StepKeepsInvariants(s, settings, event);
    } else {
      CarelessBreaksGraph(s, settings, event);
    }
  }

  lemma CarelessBreaksGraph(s: State, settings: Settings, event: Event)
    requires Sound(s) && !Careful(s, event)
    requires event.AddRequested? || event.EditApplies? || (event.SwitchRequested? && |event.ids1| == 1)
    ensures !GraphSound(Apply(s, settings, event).tasks)
  {
    hide Fit, FreeForUse, FeedGraph, Effective, ApplyEdits, Added, SwapStep, BatchAccepted;
    match event {
      case AddRequested(request) => AddKeepsAgreeIff(s.tasks, request);
      case EditApplies(items) => EditKeepsAcyclicIff(s, items);
      case SwitchRequested(ids1, ids2) =>
        AcceptedPairsKnown(s.tasks, ids1, ids2);
        OneSwap(s.tasks, ids1, ids2);
        SwapAcrossEdgeBreaks(s.tasks, ids1[0], ids2[0]);
    }
  }

  lemma OneSwap(tasks: TaskMap, ids1: seq<TaskId>, ids2: seq<TaskId>)
    requires KeyedById(tasks) && |ids1| == |ids2| == 1 && Known(tasks, Zip(ids1, ids2))
    ensures ids1[0] in tasks && ids2[0] in tasks
    ensures SwapPairs(tasks, Zip(ids1, ids2)) == SwapStep(tasks, ids1[0], ids2[0])
    ensures EdgeFree(tasks, Zip(ids1, ids2)) <==> ids1[0] == ids2[0] || !DirectEdge(tasks, ids1[0], ids2[0])
  {
    hide SwapStep;
    assert Zip(ids1, ids2)[0] == (ids1[0], ids2[0]);
    SwapKeepsKeys(tasks, ids1[0], ids2[0]);
    assert Zip(ids1, ids2)[1..] == [];
  }
}
