/** The daemon itself: every event is carried out by the handler that the program runs for it. */
module Daemon {
  import opened Lists
  import opened Tasks
  import opened DependencyGraph
  import opened Removal
  import opened RemovalCheck
  import opened AddTask
  import opened Edit
  import opened Switch
  import opened Scheduler
  import opened TaskLoop
  import opened PoolAgreement
  import opened Handlers
  import opened Runs

  lemma OrderMeetsNeeds(s: State)
    requires Orderly(s)
    ensures PoolPerGroup(s) && ChildrenKnown(s) && TaskGroupsHavePools(s)
  {
    LookupsSucceed(s);
  }

  /** The one thing an event can ask for that the daemon never finishes: a removal whose recursive
      check runs in circles (see `Removal.RemoveEndsIff`). */
  ghost predicate Finishes(s: State, event: Event) {
    event.RemoveRequested? ==> RequestEnds(s.tasks, RemovalCandidates(s.tasks, event.removeIds))
  }

  /** The one unchecked lookup that can fail. */
  predicate Panics(s: State, event: Event) {
    event.PauseRequested? && PausePanics(s, event.pause, event.wait)
  }

  /** In a sound state every request finishes. */
  lemma SoundStatesFinish(s: State, event: Event)
    requires Sound(s)
    ensures Finishes(s, event)
  {
    if event.RemoveRequested? {
      SoundGraphRequestsEnd(s.tasks, RemovalCandidates(s.tasks, event.removeIds));
    }
  }

  /** Requests that rewrite the task map through the dependency graph. */
  predicate RewritesGraph(event: Event) {
    || event.AddRequested? || event.EditLocks? || event.EditApplies? || event.EditUnlocks?
    || event.RemoveRequested? || event.CleanRequested? || event.SwitchRequested?
  }

  method HandleGraphRequest(state: InternalState, settings: Settings, event: Event)
    requires Orderly(state.Value()) && RewritesGraph(event) && Finishes(state.Value(), event)
    modifies state`tasks
    ensures state.Value() == Apply(old(state.Value()), settings, event)
  {
    hide Fit, PoolsAgree, LockAll, UnlockAll, ApplyEdits, SwapPairs, WithoutTasks, Cleaned, Added, RequestEnds,
      KeyedById, AddAccepted, BatchAccepted, SwitchAccepted, AcceptedForRemoval;
    match event {
      case AddRequested(request) => var _ := Add(state, request);
      case EditLocks(ids) => var _ := EditRequest(state, ids);
      case EditApplies(items) => var _ := EditTasks(state, items);
      case EditUnlocks(ids) => var _ := EditRestore(state, ids);
      case RemoveRequested(ids) => var _, _ := Remove(state, ids);
      case CleanRequested(successfulOnly, group) => Clean(state, successfulOnly, group);
      case SwitchRequested(ids1, ids2) => var _ := SwitchTasks(state, ids1, ids2);
    }
  }

  /** In every orderly state, sound or not, each handler can be called, triggers no emergency
      shutdown, and yields the state the state machine predicts. It panics exactly for a pause
      request that names a running and a missing task. */
  method Handle(state: InternalState, settings: Settings, event: Event) returns (panics: bool)
    requires Orderly(state.Value()) && Finishes(state.Value(), event)
    modifies state
    ensures panics <==> Panics(old(state.Value()), event)
    ensures state.Value() == Apply(old(state.Value()), settings, event)
    ensures state.shutdown == old(state.shutdown)
  {
    hide Orderly, PoolsAgree, Turn, StartIds, Started, Restarted, GroupRemoved, KeyedById, ChildIds, PausedSelection,
      StashedSelection, EnqueuedSelection, KillRequested, ParallelSet, GroupAdded, ResetMarked, PausePanics,
      RequestEnds, LockAll, UnlockAll, ApplyEdits, SwapPairs, WithoutTasks, Cleaned, Added;
    OrderMeetsNeeds(state.Value());
    ghost var before := state.Value();
    panics := false;
    if RewritesGraph(event) {
      HandleGraphRequest(state, settings, event);
      return;
    }
    match event {
      case StashRequested(selection, until) => Stash(state, selection, until);
      case EnqueueRequested(selection, at) => Enqueue(state, selection, at);
      case RestartRequested(items, stashed) => Restart(state, items, stashed);
      case StartRequested(selection, fails, deaf) => Start(state, settings, selection, fails, deaf);
      case ImmediateStart(ids, fails, deaf) => StartNamed(state, settings, ids, fails, deaf);
      case PauseRequested(selection, wait, deaf) => panics := Pause(state, selection, wait, deaf);
      case KillIssued(selection) => Kill(state, selection);
      case GroupAddRequested(name, limit) => var _ := AddGroup(state, name, limit);
      case GroupRemoveRequested(name) =>
        if GroupRemovable(before, name) { EmptyPoolOf(before, name); }
        var _ := RemoveGroup(state, name);
      case ResetRequested(target) => var _ := ResetGroups(state, target);
      case ParallelRequested(group, limit) => var _ := SetParallelTasks(state, group, limit);
      case LoopTurn(world) => RunTurn(state, settings, world);
    }
  }

  lemma EmptyPoolOf(s: State, name: string)
    requires Orderly(s) && GroupRemovable(s, name)
    ensures name in s.pools && s.pools[name] == map[]
  {
    EmptyGroupHasEmptyPool(s, name);
  }

  /** Two accepted edits are enough to let a removal hang: without other edges, the two tasks then wait
      for each other, and the check of either never ends once both are to be removed. */
  lemma AcceptedEditsCanHangRemoval(tasks: TaskMap, first: EditItem, second: EditItem, fuel: nat)
    requires Edgeless(tasks) && LockedPlain(tasks) && first.id != second.id
    requires first.id in tasks && tasks[first.id].status.Locked? && first.dependencies == [second.id]
    requires second.id in tasks && tasks[second.id].status.Locked? && second.dependencies == [first.id]
    ensures BatchAccepted(tasks, [first] + [second])
    ensures IsTaskRemovable(ApplyEdits(tasks, [first] + [second]).0, first.id, {first.id, second.id}, fuel) == None
  {
    hide ApplyEdits, Edited, BatchAccepted, IsTaskRemovable, LockedPlain;
    MutualEditsAreAccepted(tasks, first, second);
    ApplyOne(tasks, first, [second]);
    MutualRecords(tasks, first, second);
    ApplyOne(Edited(tasks, first), second, []);
    assert [second] + [] == [second];
    ApplyNone(Edited(Edited(tasks, first), second));
    MutualWaitNeverEnds(Edited(Edited(tasks, first), second), first.id, second.id, {first.id, second.id}, fuel);
  }

  lemma ApplyNone(tasks: TaskMap)
    ensures ApplyEdits(tasks, []).0 == tasks
  {
  }

  lemma MutualRecords(tasks: TaskMap, first: EditItem, second: EditItem)
    requires Edgeless(tasks) && LockedPlain(tasks) && first.id != second.id
    requires first.id in tasks && tasks[first.id].status.Locked? && first.dependencies == [second.id]
    requires second.id in tasks && tasks[second.id].status.Locked? && second.dependencies == [first.id]
    ensures var mid := Edited(tasks, first);
      && second.id in mid && mid[second.id].status.Locked?
      && var after := Edited(mid, second);
      && ActiveDependants(after, first.id) == {second.id}
      && ActiveDependants(after, second.id) == {first.id}
  {
    hide Edited, Agree, ExactIndex, ActiveDependants;
    var mid := Edited(tasks, first);
    assert Agree(tasks) by { ExactAgrees(tasks); }
    EditedRecords(tasks, first);
    EditKeepsGraph(tasks, first);
    assert mid[first.id].dependents == {} && mid[second.id].dependents == {first.id};
    var after := Edited(mid, second);
    EditedRecords(mid, second);
    assert after[first.id].dependents == {second.id} && after[second.id].dependents == {first.id};
    OnlyDependant(after, first.id, second.id);
    OnlyDependant(after, second.id, first.id);
  }

  lemma ExactAgrees(tasks: TaskMap)
    requires Edgeless(tasks)
    ensures Agree(tasks)
  {
  }

  lemma OnlyDependant(tasks: TaskMap, a: TaskId, b: TaskId)
    requires a in tasks && tasks[a].dependents == {b} && b in tasks && !IsDone(tasks[b])
    ensures ActiveDependants(tasks, a) == {b}
  {
  }
}
