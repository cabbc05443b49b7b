/** What each command does to single records, told by status, group and field. */
module Outcomes {
  import opened Lists
  import opened Tasks
  import opened PoolAgreement
  import opened Handlers
  import opened ForcedStart
  import opened Runs

  ghost predicate NamedBy(selection: Selection, k: TaskId, task: Task) {
    match selection
    case TaskIds(ids) => k in ids
    case InGroup(name) => task.group == name
    case Everything => true
  }

  /** The groups that a request on groups is about. */
  ghost predicate NamesGroup(selection: Selection, group: string) {
    selection == InGroup(group) || selection == Everything
  }

  /** Nothing but statuses of tasks and groups may differ. */
  ghost predicate OnlyStatuses(s: State, after: State) {
    && after.tasks.Keys == s.tasks.Keys && after.groups.Keys == s.groups.Keys && after.pools == s.pools
    && (forall k :: k in s.tasks ==> after.tasks[k] == s.tasks[k].(status := after.tasks[k].status))
    && (forall g :: g in s.groups ==> after.groups[g] == s.groups[g].(status := after.groups[g].status))
  }

  // -- stash and enqueue ------------------------------------------------------------------------------------

  lemma StashOutcome(s: State, settings: Settings, selection: Selection, until: Option<int>, k: TaskId)
    requires Orderly(s) && k in s.tasks
    ensures var after := Apply(s, settings, StashRequested(selection, until));
      && OnlyStatuses(s, after) && after.groups == s.groups
      && after.tasks[k].status ==
         if NamedBy(selection, k, s.tasks[k]) && (s.tasks[k].status == Queued || s.tasks[k].status.Locked?)
         then Stashed(until) else s.tasks[k].status
  {
    hide Orderly;
  }

  lemma EnqueueOutcome(s: State, settings: Settings, selection: Selection, at: Option<int>, k: TaskId)
    requires Orderly(s) && k in s.tasks
    ensures var after := Apply(s, settings, EnqueueRequested(selection, at));
      && OnlyStatuses(s, after) && after.groups == s.groups
      && after.tasks[k].status ==
         if !NamedBy(selection, k, s.tasks[k]) || !(s.tasks[k].status.Stashed? || s.tasks[k].status.Locked?)
         then s.tasks[k].status
         else if at == None then Queued else Stashed(at)
  {
    hide Orderly;
  }

  /** A task can be signalled exactly if it runs or is paused. */
  ghost predicate ChildrenMatch(s: State) {
    forall x :: x in s.tasks ==> (x in ChildIds(s.pools) <==> IsRunning(s.tasks[x]))
  }

  lemma OrderlyChildrenMatch(s: State)
    requires Orderly(s)
    ensures ChildrenMatch(s)
  {
    assert PoolsAgree(s);
    hide PoolsAgree, ChildIds, Orderly;
    forall x | x in s.tasks ensures x in ChildIds(s.pools) <==> IsRunning(s.tasks[x]) {
      ChildMeansRunning(s, x);
    }
  }

  lemma PausedTasksOutcome(s: State, ids: set<TaskId>, wait: bool, deaf: set<TaskId>, k: TaskId)
    requires ChildrenMatch(s)
    ensures var after := PausedTasks(s, ids, wait, deaf);
      && OnlyStatuses(s, after) && after.groups == s.groups
      && (k in s.tasks ==>
            after.tasks[k].status ==
            if k in ids && s.tasks[k].status == TaskStatus.Running && !wait && k !in deaf
            then TaskStatus.Paused else s.tasks[k].status)
  {
    hide ChildIds;
  }

  lemma ResumedOutcome(s: State, ids: set<TaskId>, deaf: set<TaskId>, k: TaskId)
    requires ChildrenMatch(s)
    ensures var after := Resumed(s, ids, deaf);
      && OnlyStatuses(s, after) && after.groups == s.groups
      && (k in s.tasks ==>
            after.tasks[k].status ==
            if k in ids && s.tasks[k].status == TaskStatus.Paused && k !in deaf
            then TaskStatus.Running else s.tasks[k].status)
  {
    hide ChildIds;
  }

  // -- start and pause --------------------------------------------------------------------------------------

  /** Starting a group or everything lets the groups run and resumes their paused tasks, but for those
      that cannot be signalled. */
  lemma StartGroupsOutcome(s: State, settings: Settings, selection: Selection, fails: set<TaskId>, deaf: set<TaskId>,
                           k: TaskId, group: string)
    requires Orderly(s) && (selection.InGroup? ==> selection.name in s.groups) && !selection.TaskIds?
    ensures var after := Apply(s, settings, StartRequested(selection, fails, deaf));
      && OnlyStatuses(s, after)
      && (group in s.groups ==>
            after.groups[group].status ==
            if NamesGroup(selection, group) then GroupStatus.Running else s.groups[group].status)
      && (k in s.tasks ==>
            after.tasks[k].status ==
            if NamedBy(selection, k, s.tasks[k]) && s.tasks[k].status == TaskStatus.Paused && k !in deaf
            then TaskStatus.Running else s.tasks[k].status)
  {
    hide ChildIds, Orderly, Resumed;
    OrderlyChildrenMatch(s);
    match selection {
      case InGroup(name) =>
        var mid := s.(groups := SetGroup(s.groups, name, GroupStatus.Running));
        assert ChildrenMatch(mid);
        ResumedOutcome(mid, PausedIn(s.tasks, name), deaf, k);
      case Everything =>
        var mid := s.(groups := SetAllGroups(s.groups, GroupStatus.Running));
        assert ChildrenMatch(mid);
        ResumedOutcome(mid, ChildIds(s.pools), deaf, k);
    }
  }

  ghost predicate StartGoesAhead(tasks: TaskMap, ids: seq<TaskId>) {
    || ids == []
    || exists id ::
         id in ids && id in tasks &&
         (tasks[id].status == TaskStatus.Paused || tasks[id].status == Queued || tasks[id].status.Stashed?)
  }

  /** Starting named tasks goes ahead if one of them is paused, queued or stashed, or none is named. It
      then runs the queued and locked ones, unless they fail to spawn, and resumes the paused ones. */
  lemma StartNamedOutcome(s: State, settings: Settings, ids: seq<TaskId>, fails: set<TaskId>, deaf: set<TaskId>,
                          k: TaskId)
    requires Orderly(s) && k in s.tasks
    ensures var after := Apply(s, settings, StartRequested(TaskIds(ids), fails, deaf));
      && (!StartGoesAhead(s.tasks, ids) ==> after == s)
      && k in after.tasks && after.tasks[k] == s.tasks[k].(status := after.tasks[k].status)
      && after.tasks[k].status ==
         if !StartGoesAhead(s.tasks, ids) || k !in ids then s.tasks[k].status
         else match s.tasks[k].status
           case Queued => if k in fails then Done(FailedToSpawn) else TaskStatus.Running
           case Locked(_) => if k in fails then Done(FailedToSpawn) else TaskStatus.Running
           case Paused => if k in deaf then TaskStatus.Paused else TaskStatus.Running
           case Stashed(at) => Stashed(at)
           case Running => TaskStatus.Running
           case Done(result) => Done(result)
  {
    assert PoolsAgree(s);
    hide PoolsAgree, Orderly, StartIds;
    StartIdsOutcome(s, settings, ids, fails, deaf, k);
    SomeMatchIff(s.tasks, IsStartable, ids);
  }

  lemma SomeMatchIff(tasks: TaskMap, condition: Task -> bool, ids: seq<TaskId>)
    ensures SomeMatch(tasks, condition, ids) <==>
            ids == [] || exists id :: id in ids && id in tasks && condition(tasks[id])
  {
    FirstIsMember(Matching(tasks, condition, ids));
  }

  /** Pausing a group or everything pauses the groups and, unless it is to wait, their running tasks. */
  lemma PauseGroupsOutcome(s: State, settings: Settings, selection: Selection, wait: bool, deaf: set<TaskId>,
                           k: TaskId, group: string)
    requires Orderly(s) && (selection.InGroup? ==> selection.name in s.groups) && !selection.TaskIds?
    ensures var after := Apply(s, settings, PauseRequested(selection, wait, deaf));
      && OnlyStatuses(s, after)
      && (group in s.groups ==>
            after.groups[group].status ==
            if NamesGroup(selection, group) then GroupStatus.Paused else s.groups[group].status)
      && (k in s.tasks ==>
            after.tasks[k].status ==
            if NamedBy(selection, k, s.tasks[k]) && s.tasks[k].status == TaskStatus.Running && !wait && k !in deaf
            then TaskStatus.Paused else s.tasks[k].status)
  {
    hide ChildIds, Orderly, PausedTasks;
    OrderlyChildrenMatch(s);
    match selection {
      case InGroup(name) =>
        var mid := s.(groups := SetGroup(s.groups, name, GroupStatus.Paused));
        assert ChildrenMatch(mid);
        PausedTasksOutcome(mid, RunningIn(s.tasks, name), wait, deaf, k);
      case Everything =>
        var mid := s.(groups := SetAllGroups(s.groups, GroupStatus.Paused));
        assert ChildrenMatch(mid);
        PausedTasksOutcome(mid, ChildIds(s.pools), wait, deaf, k);
    }
  }

  /** Pausing named tasks gets as far as the first name that stands for no task. */
  lemma PauseNamedOutcome(s: State, settings: Settings, ids: seq<TaskId>, n: nat, wait: bool, deaf: set<TaskId>,
                          k: TaskId)
    requires Orderly(s) && k in s.tasks
    requires n <= |ids| && (forall id :: id in ids[..n] ==> id in s.tasks) && (n < |ids| ==> ids[n] !in s.tasks)
    ensures var after := Apply(s, settings, PauseRequested(TaskIds(ids), wait, deaf));
      && OnlyStatuses(s, after) && after.groups == s.groups
      && after.tasks[k].status ==
         if k in ids[..n] && s.tasks[k].status == TaskStatus.Running && !wait && k !in deaf
         then TaskStatus.Paused else s.tasks[k].status
  {
    hide ChildIds, Orderly, PausedTasks, SomeMatch;
    OrderlyChildrenMatch(s);
    PausedTasksOutcome(s, Elems(KnownPrefix(s.tasks, ids)), wait, deaf, k);
    SomeMatchIff(s.tasks, IsUnpaused, ids);
    KnownPrefixIs(s.tasks, ids, n);
    assert k in ids[..n] ==> k in ids;
  }

  /** And if there is such a name and one of a running task, the lookup of the former panics. */
  lemma PausePanicsIff(s: State, selection: Selection, wait: bool)
    ensures PausePanics(s, selection, wait) <==>
            && !wait && selection.TaskIds?
            && (exists id :: id in selection.ids && id !in s.tasks)
            && exists id :: id in selection.ids && id in s.tasks && s.tasks[id].status == TaskStatus.Running
  {
    if selection.TaskIds? { SomeMatchIff(s.tasks, IsUnpaused, selection.ids); }
  }

  // -- kill and groups --------------------------------------------------------------------------------------

  ghost predicate Upcoming(s: State, group: string) {
    exists k :: k in s.tasks && s.tasks[k].group == group
      && (s.tasks[k].status == Queued || (s.tasks[k].status.Stashed? && s.tasks[k].status.enqueueAt.Some?))
  }

  /** A kill pauses its group if tasks are to come there, and all groups if it is about everything and
      tasks are to come anywhere; it changes nothing else by itself. */
  lemma KillOutcome(s: State, settings: Settings, selection: Selection, group: string)
    requires Orderly(s) && group in s.groups
    ensures var after := Apply(s, settings, KillIssued(selection));
      && OnlyStatuses(s, after) && after.tasks == s.tasks
      && after.groups[group].status ==
         if (selection == InGroup(group) && Upcoming(s, group))
            || (selection == Everything && exists g :: g in s.groups && Upcoming(s, g))
         then GroupStatus.Paused else s.groups[group].status
  {
    hide Orderly;
    forall g ensures HasUpcoming(s, g) <==> Upcoming(s, g) {
      UpcomingIff(s, g);
    }
    hide HasUpcoming, Upcoming;
  }

  lemma UpcomingIff(s: State, group: string)
    ensures HasUpcoming(s, group) <==> Upcoming(s, group)
  {
    if k :| k in s.tasks && s.tasks[k].group == group && IsQueued(s.tasks[k]) {
      assert Upcoming(s, group);
    }
  }

  /** A reset of groups that all exist marks them and no others; otherwise it marks none. */
  lemma ResetOutcome(s: State, settings: Settings, target: ResetTarget, group: string)
    requires Orderly(s) && group in s.groups
    ensures var after := Apply(s, settings, ResetRequested(target));
      && OnlyStatuses(s, after) && after.tasks == s.tasks
      && after.groups[group].status ==
         if target.AllGroups? || (group in target.names && forall name :: name in target.names ==> name in s.groups)
         then GroupStatus.Reset else s.groups[group].status
  {
    hide Orderly;
  }

  /** A new group runs, with one slot unless told otherwise, and has an empty pool; nothing else changes. */
  lemma GroupAddOutcome(s: State, settings: Settings, name: string, limit: Option<nat>, group: string)
    requires Orderly(s)
    ensures var after := Apply(s, settings, GroupAddRequested(name, limit));
      && after.tasks == s.tasks && after.groups.Keys == s.groups.Keys + {name}
      && after.pools.Keys == s.pools.Keys + {name}
      && (group in s.groups ==> after.groups[group] == s.groups[group] && after.pools[group] == s.pools[group])
      && (name !in s.groups ==>
            && after.groups[name].status == GroupStatus.Running && after.pools[name] == map[]
            && after.groups[name].parallelTasks == match limit case None => 1 case Some(n) => n)
  {
    GroupsAndPools(s);
    hide Orderly;
  }

  lemma GroupsAndPools(s: State)
    requires Orderly(s)
    ensures s.groups.Keys == s.pools.Keys
  {
  }

  /** A group goes, and its pool with it, exactly if it is not the default group and holds no task. */
  lemma GroupRemoveOutcome(s: State, settings: Settings, name: string, group: string)
    requires Orderly(s)
    ensures var after := Apply(s, settings, GroupRemoveRequested(name));
      && after.tasks == s.tasks && after.groups.Keys == after.pools.Keys
      && (group in after.groups <==>
            group in s.groups &&
            !(group == name && name != "default" && forall k :: k in s.tasks ==> s.tasks[k].group != name))
      && (group in after.groups ==> after.groups[group] == s.groups[group] && after.pools[group] == s.pools[group])
  {
    GroupsAndPools(s);
    hide Orderly;
  }

  lemma ParallelOutcome(s: State, settings: Settings, name: string, limit: nat, group: string)
    requires Orderly(s) && group in s.groups
    ensures var after := Apply(s, settings, ParallelRequested(name, limit));
      && after.tasks == s.tasks && after.pools == s.pools && after.groups.Keys == s.groups.Keys
      && after.groups[group].status == s.groups[group].status
      && after.groups[group].parallelTasks == if group == name then limit else s.groups[group].parallelTasks
  {
    hide Orderly;
  }
}
