/** Exactly which events overwrite the mark of a group that is being reset. */
module ResetMark {
  import opened Lists
  import opened Tasks
  import opened Scheduler
  import opened TaskLoop
  import opened DependencyGraph
  import opened Removal
  import opened AddTask
  import opened Edit
  import opened Switch
  import opened PoolAgreement
  import opened Handlers
  import opened ForcedStart
  import opened Runs

  ghost predicate Marked(s: State, group: string) {
    group in s.groups && s.groups[group].status == GroupStatus.Reset
  }

  /** A named task would be spawned and fails to, with consequences for the group. */
  ghost predicate FailsHere(s: State, settings: Settings, spawnFails: set<TaskId>, group: string, k: TaskId) {
    && k in s.tasks && Spawnable(s.tasks[k]) && k in spawnFails
    && if settings.pauseGroupOnFailure then s.tasks[k].group == group else settings.pauseAllOnFailure
  }

  ghost predicate ForcedFailureHits(s: State, settings: Settings, ids: seq<TaskId>, spawnFails: set<TaskId>,
                                    group: string)
  {
    exists k :: k in ids && FailsHere(s, settings, spawnFails, group, k)
  }

  lemma StartOneKeepsMarkIff(s: State, settings: Settings, id: TaskId, spawnFails: set<TaskId>, deaf: set<TaskId>,
                             group: string)
    requires PoolsAgree(s)
    ensures var next := StartOne(s, settings, id, spawnFails, deaf);
      Marked(next, group) <==> Marked(s, group) && !FailsHere(s, settings, spawnFails, group, id)
  {
    ChildMeansRunning(s, id);
    hide PoolsAgree, ChildIds, AddChild, SetStatus;
  }

  lemma FailsHereCarries(s: State, settings: Settings, id: TaskId, spawnFails: set<TaskId>, deaf: set<TaskId>,
                         group: string, k: TaskId)
    requires PoolsAgree(s) && !FailsHere(s, settings, spawnFails, group, id)
    ensures var next := StartOne(s, settings, id, spawnFails, deaf);
      && PoolsAgree(next)
      && (FailsHere(next, settings, spawnFails, group, k) <==> FailsHere(s, settings, spawnFails, group, k))
  {
    StartOneKeepsKeys(s, settings, id, spawnFails, deaf);
    StartOneKeepsAgreement(s, settings, id, spawnFails, deaf);
    if k in s.tasks {
      StartOneOutcome(s, settings, id, spawnFails, deaf, k);
    }
    hide PoolsAgree, StartOne;
  }

  lemma StartOneKeepsAgreement(s: State, settings: Settings, id: TaskId, spawnFails: set<TaskId>, deaf: set<TaskId>)
    requires PoolsAgree(s)
    ensures PoolsAgree(StartOne(s, settings, id, spawnFails, deaf))
  {
    hide PoolsAgree, ChildIds, Spawned, Resumed;
    ResumedKeepsPools(s, {id}, deaf);
    SpawnedKeepsPools(s, settings, id, spawnFails);
  }

  lemma StartOneKeepsKeys(s: State, settings: Settings, id: TaskId, spawnFails: set<TaskId>, deaf: set<TaskId>)
    ensures StartOne(s, settings, id, spawnFails, deaf).tasks.Keys == s.tasks.Keys
  {
    hide ChildIds;
  }

  lemma {:induction false} UnmarkedStays(s: State, settings: Settings, ids: seq<TaskId>, spawnFails: set<TaskId>,
                                         deaf: set<TaskId>, group: string)
    requires PoolsAgree(s) && !Marked(s, group)
    ensures !Marked(StartIds(s, settings, ids, spawnFails, deaf), group)
    decreases |ids|
  {
    hide PoolsAgree, ChildIds, Spawned, Resumed, Marked;
    if ids != [] {
      StartOneKeepsMarkIff(s, settings, ids[0], spawnFails, deaf, group);
      StartOneKeepsAgreement(s, settings, ids[0], spawnFails, deaf);
      UnmarkedStays(StartOne(s, settings, ids[0], spawnFails, deaf), settings, ids[1..], spawnFails, deaf, group);
    }
  }

  /** Starting named tasks keeps the mark exactly when none of them fails in a way that reaches the group. */
  lemma {:induction false} StartIdsKeepsMarkIff(s: State, settings: Settings, ids: seq<TaskId>, spawnFails: set<TaskId>,
                                                deaf: set<TaskId>, group: string)
    requires PoolsAgree(s) && Marked(s, group)
    ensures Marked(StartIds(s, settings, ids, spawnFails, deaf), group) <==>
            !ForcedFailureHits(s, settings, ids, spawnFails, group)
    decreases |ids|
  {
    hide PoolsAgree, ChildIds, Spawned, Resumed, Marked, FailsHere;
    if ids != [] {
      var next := StartOne(s, settings, ids[0], spawnFails, deaf);
      StartOneKeepsMarkIff(s, settings, ids[0], spawnFails, deaf, group);
      StartOneKeepsAgreement(s, settings, ids[0], spawnFails, deaf);
      assert ids == [ids[0]] + ids[1..];
      if FailsHere(s, settings, spawnFails, group, ids[0]) {
        UnmarkedStays(next, settings, ids[1..], spawnFails, deaf, group);
      } else {
        StartIdsKeepsMarkIff(next, settings, ids[1..], spawnFails, deaf, group);
        forall k
          ensures FailsHere(next, settings, spawnFails, group, k) <==> FailsHere(s, settings, spawnFails, group, k)
        {
          FailsHereCarries(s, settings, ids[0], spawnFails, deaf, group, k);
        }
      }
    }
  }

  /** The command overwrites the status of the group, or removes it. */
  ghost predicate OverwritesMark(s: State, settings: Settings, event: Event, group: string)
    requires !event.LoopTurn?
  {
    match event
    case StartRequested(TaskIds(ids), fails, _) =>
      SomeMatch(s.tasks, IsStartable, ids) && ForcedFailureHits(s, settings, ids, fails, group)
    case StartRequested(InGroup(name), _, _) => name == group
    case StartRequested(Everything, _, _) => true
    case ImmediateStart(ids, fails, _) => ForcedFailureHits(s, settings, ids, fails, group)
    case PauseRequested(selection, _, _) => selection == InGroup(group) || selection.Everything?
    case KillIssued(InGroup(name)) => name == group && HasUpcoming(s, name)
    case KillIssued(Everything) => exists g :: g in s.groups && HasUpcoming(s, g)
    case GroupRemoveRequested(name) => name == group && GroupRemovable(s, name)
    case _ => false
  }

  /** Every command but the turn of the loop keeps a reset mark exactly when it does not overwrite it. */
  lemma MarkSurvivesCommandIff(s: State, settings: Settings, event: Event, group: string)
    requires Orderly(s) && Marked(s, group) && !event.LoopTurn?
    ensures Marked(Apply(s, settings, event), group) <==> !OverwritesMark(s, settings, event, group)
  {
    hide KeyedById, PoolsAgree, LockedPlain, StartIds, ForcedFailureHits, ChildIds, HasUpcoming, Selected, LockAll,
      UnlockAll, ApplyEdits, SwapPairs, WithoutTasks, Cleaned, Added, Restarted, KnownPrefix, Turn,
      AddAccepted, BatchAccepted, SwitchAccepted, AcceptedForRemoval;
    match event {
      case StartRequested(TaskIds(ids), fails, deaf) => StartIdsKeepsMarkIff(s, settings, ids, fails, deaf, group);
      case ImmediateStart(ids, fails, deaf) => StartIdsKeepsMarkIff(s, settings, ids, fails, deaf, group);
      case _ =>
    }
  }
}
