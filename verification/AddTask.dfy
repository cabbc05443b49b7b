/** Adding a task: fresh id, dependency check, index insertion. */
module AddTask {
  import opened Lists
  import opened Tasks
  import opened DependencyGraph
  import opened ReverseIndex
  import opened CycleCheck
  import opened Scheduler

  /** One more than the largest id in use. */
  function NextId(tasks: TaskMap): (id: TaskId)
    ensures id !in tasks && forall k :: k in tasks ==> k < id
  {
    if tasks.Keys == {} then 0 else SetMax(tasks.Keys) + 1
  }

  /** What the client sends; the new record gets its id and reverse list from the daemon. */
  datatype AddRequest = AddRequest(
    details: Details,
    group: string,
    dependencies: seq<TaskId>,
    priority: int,
    stashed: bool,
    enqueueAt: Option<int>)

  function NewTask(request: AddRequest, id: TaskId): Task {
    Task(id, request.details, request.group, Elems(request.dependencies), {}, request.priority,
         if request.stashed || request.enqueueAt.Some? then Stashed(request.enqueueAt) else Queued)
  }

  predicate AddAccepted(state: State, request: AddRequest) {
    request.group in state.groups && forall d :: d in request.dependencies ==> d in state.tasks
  }

  /** The task map with the new task filed under the next id and listed under its dependencies. */
  function Added(tasks: TaskMap, request: AddRequest): TaskMap {
    var id := NextId(tasks);
    Updated(tasks[id := NewTask(request, id)], Elems(request.dependencies), WithDependent(id))
  }

  datatype AddResponse = AddRefused | AddedTask(taskId: TaskId, groupIsPaused: bool)

  method Add(state: InternalState, request: AddRequest) returns (response: AddResponse)
    modifies state`tasks
    ensures AddAccepted(old(state.Value()), request) ==>
      && state.tasks == Added(old(state.tasks), request)
      && response == AddedTask(NextId(old(state.tasks)), state.groups[request.group].status == GroupStatus.Paused)
    ensures !AddAccepted(old(state.Value()), request) ==> state.tasks == old(state.tasks) && response == AddRefused
    ensures response.AddedTask? <==>
      request.group in state.groups && forall d :: d in request.dependencies ==> d in old(state.tasks)
  {
    if request.group !in state.groups {
      return AddRefused;
    }
    var known := state.tasks.Keys;
    var missing := Keep(request.dependencies, Elems(request.dependencies) - known);
    if missing != [] {
      assert missing[0] in missing;
      return AddRefused;
    }
    forall d | d in request.dependencies ensures d in known {
      assert d !in missing;
    }
    var paused := state.groups[request.group].status == GroupStatus.Paused;
    var id := NextId(state.tasks);
    state.tasks := state.tasks[id := NewTask(request, id)];
    state.UpdateTasks(Elems(request.dependencies), WithDependent(id));
    response := AddedTask(id, paused);
  }

  /** No surviving task depends on the id, and only the wanted dependencies list it already. */
  ghost predicate FreeForUse(tasks: TaskMap, request: AddRequest, id: TaskId) {
    forall k :: k in tasks ==>
      id !in tasks[k].dependencies && (id in tasks[k].dependents ==> k in request.dependencies)
  }

  ghost predicate DependenciesExist(tasks: TaskMap, request: AddRequest) {
    forall d :: d in request.dependencies ==> d in tasks
  }

  lemma AddedRecords(tasks: TaskMap, request: AddRequest)
    requires DependenciesExist(tasks, request)
    ensures var id, after := NextId(tasks), Added(tasks, request);
      && after.Keys == tasks.Keys + {id}
      && after[id] == NewTask(request, id)
      && forall k :: k in tasks ==>
           after[k] == tasks[k].(dependents := tasks[k].dependents + if k in request.dependencies then {id} else {})
  {
    var id, after := NextId(tasks), Added(tasks, request);
    forall k | k in tasks
      ensures after[k] == tasks[k].(dependents := tasks[k].dependents + if k in request.dependencies then {id} else {})
    {
      assert k in Elems(request.dependencies) <==> k in request.dependencies;
      assert k !in request.dependencies ==> tasks[k].dependents + {} == tasks[k].dependents;
    }
  }

  /** The record under the answered id, field by field, and what the others keep. */
  lemma AddOutcome(s: State, request: AddRequest)
    requires AddAccepted(s, request)
    ensures var id, after := NextId(s.tasks), Added(s.tasks, request);
      && id !in s.tasks && after.Keys == s.tasks.Keys + {id}
      && after[id].id == id && after[id].details == request.details && after[id].group == request.group
      && after[id].priority == request.priority && after[id].dependents == {}
      && (forall d :: d in after[id].dependencies <==> d in request.dependencies)
      && (after[id].status == Queued <==> !request.stashed && request.enqueueAt == None)
      && (after[id].status == Stashed(request.enqueueAt) <==> request.stashed || request.enqueueAt.Some?)
      && forall k :: k in s.tasks ==>
           && after[k] == s.tasks[k].(dependents := after[k].dependents)
           && forall d :: d in after[k].dependents <==>
                d in s.tasks[k].dependents || (d == id && k in request.dependencies)
  {
    AddedRecords(s.tasks, request);
  }

  /** The new task is up for the scheduler at once exactly if nothing holds it back: no delay or stash, no
      dependency that has not succeeded, and a running group with a free slot. */
  lemma AddedStartableIff(s: State, request: AddRequest)
    requires AddAccepted(s, request) && PoolPerGroup(s)
    ensures var group := s.groups[request.group];
      Startable(s.(tasks := Added(s.tasks, request)), NextId(s.tasks)) <==>
        && !request.stashed && request.enqueueAt == None
        && (forall d :: d in request.dependencies ==> s.tasks[d].status == Done(Success))
        && group.status == GroupStatus.Running
        && (group.parallelTasks == 0 || |s.pools[request.group]| < group.parallelTasks)
  {
    AddOutcome(s, request);
    hide Added;
    var id, after := NextId(s.tasks), Added(s.tasks, request);
    forall d | d in request.dependencies ensures Succeeded(after[d]) <==> s.tasks[d].status == Done(Success) {
    }
    assert DependenciesMet(after, after[id]) <==> forall d :: d in request.dependencies ==> Succeeded(after[d]);
  }

  /** Filing a new task keeps an agreeing index so exactly when the fresh id is free for use. */
  lemma AddKeepsAgreeIff(tasks: TaskMap, request: AddRequest)
    requires Agree(tasks) && DependenciesExist(tasks, request)
    ensures Agree(Added(tasks, request)) <==> FreeForUse(tasks, request, NextId(tasks))
  {
    var id, after := NextId(tasks), Added(tasks, request);
    AddedRecords(tasks, request);
    if Agree(after) {
      forall k | k in tasks
        ensures id !in tasks[k].dependencies && (id in tasks[k].dependents ==> k in request.dependencies)
      {
        assert k in after[id].dependents <==> id in after[k].dependencies;
        assert id in after[k].dependents <==> k in after[id].dependencies;
      }
    }
    if FreeForUse(tasks, request, id) {
      AddKeepsGraph(tasks, request);
    }
  }

  /** The new record is filed under its own id, whatever the lists hold. */
  lemma AddKeepsKeys(tasks: TaskMap, request: AddRequest)
    requires DependenciesExist(tasks, request) && KeyedById(tasks)
    ensures KeyedById(Added(tasks, request))
  {
    AddedRecords(tasks, request);
    hide Added;
  }

  lemma AddKeepsGraph(tasks: TaskMap, request: AddRequest)
    requires DependenciesExist(tasks, request) && FreeForUse(tasks, request, NextId(tasks))
    ensures KeyedById(tasks) ==> KeyedById(Added(tasks, request))
    ensures Agree(tasks) ==> Agree(Added(tasks, request))
    ensures NoStaleDependents(tasks) ==> NoStaleDependents(Added(tasks, request))
    ensures Live(tasks) ==> Live(Added(tasks, request))
    ensures Acyclic(tasks) ==> Acyclic(Added(tasks, request))
  {
    var id, after := NextId(tasks), Added(tasks, request);
    AddedRecords(tasks, request);
    if Agree(tasks) {
      forall a, b | a in after && b in after ensures b in after[a].dependents <==> a in after[b].dependencies {
        if a != id && b != id { assert b in tasks[a].dependents <==> a in tasks[b].dependencies; }
      }
    }
    if Acyclic(tasks) {
      AddKeepsAcyclic(tasks, request);
    }
  }

  lemma AddKeepsAcyclic(tasks: TaskMap, request: AddRequest)
    requires DependenciesExist(tasks, request) && FreeForUse(tasks, request, NextId(tasks)) && Acyclic(tasks)
    ensures Acyclic(Added(tasks, request))
  {
    var id := NextId(tasks);
    forall d | d in request.dependencies ensures !Leads(tasks, d, id) {
      NobodyLeadsTo(tasks, d, id);
    }
    AddKeepsAcyclicIff(tasks, request);
  }

  lemma LastStep(tasks: TaskMap, d: TaskId, id: TaskId)
    requires Leads(tasks, d, id)
    ensures exists k :: k in tasks && id in tasks[k].dependencies
  {
    var p :| ChainBetween(tasks, p, d, id) && |p| >= 2;
    var n := |p| - 1;
    assert p[n - 1] in tasks && p[n - 1 + 1] in tasks[p[n - 1]].dependencies;
  }

  lemma NobodyLeadsTo(tasks: TaskMap, d: TaskId, id: TaskId)
    requires forall k :: k in tasks ==> id !in tasks[k].dependencies
    ensures !Leads(tasks, d, id)
  {
    if Leads(tasks, d, id) { LastStep(tasks, d, id); }
  }

  /** An accepted request keeps the graph free of cycles exactly when none of its dependencies
      leads, through old edges, to the id that the newcomer gets. */
  lemma AddKeepsAcyclicIff(tasks: TaskMap, request: AddRequest)
    requires DependenciesExist(tasks, request) && Acyclic(tasks)
    ensures Acyclic(Added(tasks, request)) <==>
            forall d :: d in request.dependencies ==> !Leads(tasks, d, NextId(tasks))
  {
    hide Acyclic, Added;
    if d :| d in request.dependencies && Leads(tasks, d, NextId(tasks)) {
      LeadingToNewcomerIsCircular(tasks, request, d);
      AcyclicIffNotCircular(Added(tasks, request));
    } else {
      NewcomerFitsIn(tasks, request);
    }
  }

  lemma LeadingToNewcomerIsCircular(tasks: TaskMap, request: AddRequest, d: TaskId)
    requires DependenciesExist(tasks, request) && d in request.dependencies && Leads(tasks, d, NextId(tasks))
    ensures Circular(Added(tasks, request))
  {
    var id, after := NextId(tasks), Added(tasks, request);
    AddedRecords(tasks, request);
    var p :| ChainBetween(tasks, p, d, id) && |p| >= 2;
    var loop := [id] + p;
    forall i | 0 <= i < |loop| - 1 ensures loop[i] in after && loop[i + 1] in after[loop[i]].dependencies {
      if i > 0 { assert loop[i] == p[i - 1] && loop[i + 1] == p[i - 1 + 1]; }
    }
    assert Chain(after, loop) && |loop| >= 2 && loop[0] == loop[|loop| - 1];
  }

  lemma LeadsStep(tasks: TaskMap, k: TaskId, d: TaskId, id: TaskId)
    requires k in tasks && d in tasks[k].dependencies && (d == id || Leads(tasks, d, id))
    ensures Leads(tasks, k, id)
  {
    if d == id {
      assert ChainBetween(tasks, [k, d], k, id);
    } else {
      var p :| ChainBetween(tasks, p, d, id) && |p| >= 2;
      var q := [k] + p;
      forall i | 0 <= i < |q| - 1 ensures q[i] in tasks && q[i + 1] in tasks[q[i]].dependencies {
        if i > 0 { assert q[i] == p[i - 1] && q[i + 1] == p[i - 1 + 1]; }
      }
      assert ChainBetween(tasks, q, k, id);
    }
  }

  lemma AddedEdge(tasks: TaskMap, request: AddRequest, k: TaskId, d: TaskId)
    requires DependenciesExist(tasks, request) && k in Added(tasks, request)
    requires d in Added(tasks, request)[k].dependencies
    ensures if k == NextId(tasks) then d in request.dependencies else k in tasks && d in tasks[k].dependencies
  {
    AddedRecords(tasks, request);
    hide Added;
  }

  /** Tasks that lead to the newcomer go on top of it, all others stay below. */
  ghost function Lifted(tasks: TaskMap, id: TaskId, rank: map<TaskId, int>, bound: int, x: TaskId): int {
    if x == id || x !in rank then bound + 1
    else if Leads(tasks, x, id) then rank[x] + bound + 2
    else rank[x]
  }

  lemma LiftedFalls(tasks: TaskMap, request: AddRequest, rank: map<TaskId, int>, bound: int, k: TaskId, d: TaskId)
    requires DependenciesExist(tasks, request) && Ranked(tasks, rank, bound)
    requires forall d :: d in request.dependencies ==> !Leads(tasks, d, NextId(tasks))
    requires k in Added(tasks, request) && d in Added(tasks, request)[k].dependencies
    requires d in tasks || d == NextId(tasks)
    ensures Lifted(tasks, NextId(tasks), rank, bound, d) < Lifted(tasks, NextId(tasks), rank, bound, k)
  {
    hide Leads, Added;
    var id := NextId(tasks);
    AddedEdge(tasks, request, k, d);
    if k != id && (d == id || Leads(tasks, d, id)) { LeadsStep(tasks, k, d, id); }
  }

  lemma LiftedBounds(tasks: TaskMap, id: TaskId, rank: map<TaskId, int>, bound: int, x: TaskId)
    requires Ranked(tasks, rank, bound) && (x in tasks || x == id)
    ensures 0 <= Lifted(tasks, id, rank, bound, x) <= 2 * bound + 2
  {
  }

  lemma AddedKeys(tasks: TaskMap, request: AddRequest)
    requires DependenciesExist(tasks, request)
    ensures Added(tasks, request).Keys == tasks.Keys + {NextId(tasks)}
  {
    AddedRecords(tasks, request);
  }

  lemma NewcomerFitsIn(tasks: TaskMap, request: AddRequest)
    requires DependenciesExist(tasks, request) && Acyclic(tasks)
    requires forall d :: d in request.dependencies ==> !Leads(tasks, d, NextId(tasks))
    ensures Acyclic(Added(tasks, request))
  {
    hide Added, Lifted;
    var id, after := NextId(tasks), Added(tasks, request);
    AddedKeys(tasks, request);
    var rank: map<TaskId, int>, bound: int :| Ranked(tasks, rank, bound);
    ghost var lifted := map x | x in after :: Lifted(tasks, id, rank, bound, x);
    forall x | x in after ensures 0 <= lifted[x] <= 2 * bound + 2 {
      LiftedBounds(tasks, id, rank, bound, x);
    }
    forall k, d | k in after && d in after && d in after[k].dependencies ensures lifted[d] < lifted[k] {
      LiftedFalls(tasks, request, rank, bound, k, d);
    }
    assert Ranked(after, lifted, 2 * bound + 2);
  }

  /** The id of a removed last task is handed out again. A finished task that still names it
      as a dependency then turns into an unlisted dependant of the newcomer. */
  lemma ReusedIdBreaksIndex(details: Details)
    ensures var stale := map[0 := Task(0, details, DEFAULT_GROUP, {1}, {}, 0, Done(Success))];
      && ExactIndex(stale) && Acyclic(stale) && Live(stale)
      && !Agree(Added(stale, AddRequest(details, DEFAULT_GROUP, [], 0, false, None)))
  {
    var stale := map[0 := Task(0, details, DEFAULT_GROUP, {1}, {}, 0, Done(Success))];
    var request := AddRequest(details, DEFAULT_GROUP, [], 0, false, None);
    assert Ranked(stale, map[0 := 0], 0);
    assert 0 in stale.Keys;
    assert SetMax(stale.Keys) == 0;
    assert 1 in stale[0].dependencies;
    AddKeepsAgreeIff(stale, request);
  }

  /** Worse, a newcomer that depends on such a task closes a cycle. */
  lemma ReusedIdClosesCycle(details: Details)
    ensures var stale := map[0 := Task(0, details, DEFAULT_GROUP, {1}, {}, 0, Done(Success))];
      var request := AddRequest(details, DEFAULT_GROUP, [0], 0, false, None);
      && ExactIndex(stale) && Acyclic(stale) && DependenciesExist(stale, request)
      && !Acyclic(Added(stale, request))
  {
    var stale := map[0 := Task(0, details, DEFAULT_GROUP, {1}, {}, 0, Done(Success))];
    var request := AddRequest(details, DEFAULT_GROUP, [0], 0, false, None);
    assert Ranked(stale, map[0 := 0], 0);
    assert 0 in stale.Keys;
    assert SetMax(stale.Keys) == 0;
    assert ChainBetween(stale, [0, 1], 0, 1);
    assert Leads(stale, 0, NextId(stale));
    AddKeepsAcyclicIff(stale, request);
  }
}
