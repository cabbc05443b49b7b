/** When may a task be removed, and what removing and cleaning do to the state. */
module Removal {
  import opened Lists
  import opened Tasks
  import opened DependencyGraph
  import opened ReverseIndex
  import opened RemovalCheck

  // -- the greatest removable subset ------------------------------------------------------------------------

  /** Every unfinished dependant of a member is a member. */
  ghost predicate Closed(tasks: TaskMap, members: set<TaskId>) {
    forall t, d :: t in members && d in ActiveDependants(tasks, t) ==> d in members
  }

  /** The requested tasks all of whose waiting tasks are requested too. */
  ghost function GreatestRemovable(tasks: TaskMap, requested: set<TaskId>): set<TaskId> {
    set t | t in requested && forall r :: WaitsFor(tasks, r, t) ==> r in requested
  }

  lemma GreatestIsClosed(tasks: TaskMap, requested: set<TaskId>)
    ensures Closed(tasks, GreatestRemovable(tasks, requested))
  {
    forall t, d | t in GreatestRemovable(tasks, requested) && d in ActiveDependants(tasks, t)
      ensures d in GreatestRemovable(tasks, requested)
    {
      DirectWaits(tasks, d, t);
      forall r | WaitsFor(tasks, r, d) ensures r in requested {
        WaitsThrough(tasks, r, d, t);
      }
    }
  }

  lemma {:induction false} ClosedHoldsChain(tasks: TaskMap, members: set<TaskId>, p: seq<TaskId>)
    requires Closed(tasks, members) && ActiveChain(tasks, p) && p[0] in members
    ensures p[|p| - 1] in members
  {
    assert p[0 + 1] in ActiveDependants(tasks, p[0]);
    if |p| > 2 {
      var q := p[1..];
      forall i | 0 <= i < |q| - 1 ensures q[i + 1] in ActiveDependants(tasks, q[i]) {
        assert q[i] == p[i + 1] && q[i + 1] == p[i + 1 + 1];
      }
      ClosedHoldsChain(tasks, members, q);
    }
  }

  /** No closed part of the request is larger. */
  lemma GreatestContainsClosed(tasks: TaskMap, requested: set<TaskId>, members: set<TaskId>)
    requires members <= requested && Closed(tasks, members)
    ensures members <= GreatestRemovable(tasks, requested)
  {
    forall t, r | t in members && WaitsFor(tasks, r, t) ensures r in requested {
      var p :| ActiveChainBetween(tasks, p, t, r);
      ClosedHoldsChain(tasks, members, p);
    }
  }

  /** A check against a list between the greatest removable subset and the request gives the
      verdict that membership in that subset gives. */
  lemma CheckDecidesMembership(tasks: TaskMap, requested: set<TaskId>, current: set<TaskId>, id: TaskId)
    requires id in requested && GreatestRemovable(tasks, requested) <= current <= requested
    ensures (forall r :: WaitsFor(tasks, r, id) ==> r in current) <==> id in GreatestRemovable(tasks, requested)
  {
    if id in GreatestRemovable(tasks, requested) {
      forall r | WaitsFor(tasks, r, id) ensures r in current {
        GreatestIsClosed(tasks, requested);
        var p :| ActiveChainBetween(tasks, p, id, r);
        ClosedHoldsChain(tasks, GreatestRemovable(tasks, requested), p);
      }
    }
  }

  // -- the shrinking filter ---------------------------------------------------------------------------------

  /** The filter of `remove` from some position on: each requested task is checked against what is left
      of the request at that moment. Nothing if a check is not over within the given depth. */
  function FilterRequest(tasks: TaskMap, rest: seq<TaskId>, current: seq<TaskId>, fuel: nat): Option<seq<TaskId>> {
    if rest == [] then Some(current)
    else
      match IsTaskRemovable(tasks, rest[0], Elems(current), fuel)
      case None => None
      case Some(true) => FilterRequest(tasks, rest[1..], current, fuel)
      case Some(false) => FilterRequest(tasks, rest[1..], Without(current, rest[0]), fuel)
  }

  /** What is left of the request before position `i`: nothing that was looked at and refused. */
  ghost function ListAt(tasks: TaskMap, requested: seq<TaskId>, i: nat): set<TaskId>
    requires i <= |requested|
  {
    set x | x in requested && (x in GreatestRemovable(tasks, Elems(requested)) || x !in requested[..i])
  }

  /** Every requested task gets an answer against the list of its moment. */
  ghost predicate RequestEnds(tasks: TaskMap, requested: seq<TaskId>) {
    forall i :: 0 <= i < |requested| ==> Answers(tasks, ListAt(tasks, requested, i), requested[i])
  }

  lemma ListStarts(tasks: TaskMap, requested: seq<TaskId>)
    ensures ListAt(tasks, requested, 0) == Elems(requested)
    ensures ListAt(tasks, requested, |requested|) == GreatestRemovable(tasks, Elems(requested))
  {
    assert requested[..|requested|] == requested;
  }

  lemma ListStep(tasks: TaskMap, requested: seq<TaskId>, i: nat)
    requires i < |requested|
    ensures var greatest, list := GreatestRemovable(tasks, Elems(requested)), ListAt(tasks, requested, i);
      && greatest <= list <= Elems(requested)
      && ListAt(tasks, requested, i + 1) == if requested[i] in greatest then list else list - {requested[i]}
  {
    hide WaitsFor;
    assert requested[..i + 1] == requested[..i] + [requested[i]];
  }

  /** Against that list a verdict says whether the task belongs to the greatest removable subset. */
  lemma VerdictAt(tasks: TaskMap, requested: seq<TaskId>, i: nat, fuel: nat)
    requires i < |requested| && IsTaskRemovable(tasks, requested[i], ListAt(tasks, requested, i), fuel).Some?
    ensures IsTaskRemovable(tasks, requested[i], ListAt(tasks, requested, i), fuel) ==
            Some(requested[i] in GreatestRemovable(tasks, Elems(requested)))
  {
    hide IsTaskRemovable, GreatestRemovable, ListAt, WaitsFor;
    var list := ListAt(tasks, requested, i);
    ListStep(tasks, requested, i);
    Verdicts(IsTaskRemovable(tasks, requested[i], list, fuel));
    RemovableIffWaitersDeleted(tasks, requested[i], list, fuel);
    CheckDecidesMembership(tasks, Elems(requested), list, requested[i]);
  }

  ghost function LeftAt(tasks: TaskMap, requested: seq<TaskId>, i: nat): seq<TaskId>
    requires i <= |requested|
  {
    Keep(requested, ListAt(tasks, requested, i))
  }

  lemma LeftStep(tasks: TaskMap, requested: seq<TaskId>, i: nat)
    requires i < |requested|
    ensures Elems(LeftAt(tasks, requested, i)) == ListAt(tasks, requested, i)
    ensures LeftAt(tasks, requested, i + 1) ==
            if requested[i] in GreatestRemovable(tasks, Elems(requested)) then LeftAt(tasks, requested, i)
            else Without(LeftAt(tasks, requested, i), requested[i])
  {
    hide GreatestRemovable;
    ListStep(tasks, requested, i);
    DropOne(requested, ListAt(tasks, requested, i), requested[i]);
  }

  lemma FilterUnfolds(tasks: TaskMap, requested: seq<TaskId>, i: nat, fuel: nat)
    requires i < |requested|
    ensures FilterRequest(tasks, requested[i..], LeftAt(tasks, requested, i), fuel) ==
            if IsTaskRemovable(tasks, requested[i], ListAt(tasks, requested, i), fuel).None? then None
            else FilterRequest(tasks, requested[i + 1..], LeftAt(tasks, requested, i + 1), fuel)
  {
    hide IsTaskRemovable, GreatestRemovable, ListAt, LeftAt;
    var verdict := IsTaskRemovable(tasks, requested[i], ListAt(tasks, requested, i), fuel);
    assert requested[i..][0] == requested[i] && requested[i..][1..] == requested[i + 1..];
    LeftStep(tasks, requested, i);
    Verdicts(verdict);
    if verdict.Some? { VerdictAt(tasks, requested, i, fuel); }
  }

  /** A filter that comes to its end has had every task answered, and keeps the greatest removable part. */
  lemma {:induction false} FilteredFrom(tasks: TaskMap, requested: seq<TaskId>, i: nat, fuel: nat)
    requires i <= |requested|
    requires FilterRequest(tasks, requested[i..], LeftAt(tasks, requested, i), fuel).Some?
    ensures forall j :: i <= j < |requested| ==> Ends(tasks, ListAt(tasks, requested, j), requested[j])
    ensures FilterRequest(tasks, requested[i..], LeftAt(tasks, requested, i), fuel) ==
            Some(Keep(requested, GreatestRemovable(tasks, Elems(requested))))
    decreases |requested| - i
  {
    hide IsTaskRemovable, GreatestRemovable, ListAt;
    if i < |requested| {
      FilterUnfolds(tasks, requested, i, fuel);
      FilteredFrom(tasks, requested, i + 1, fuel);
    } else {
      ListStarts(tasks, requested);
    }
  }

  lemma {:induction false} FilterMoreFuel(tasks: TaskMap, requested: seq<TaskId>, i: nat, fuel: nat, more: nat)
    requires i <= |requested| && fuel <= more
    requires FilterRequest(tasks, requested[i..], LeftAt(tasks, requested, i), fuel).Some?
    ensures FilterRequest(tasks, requested[i..], LeftAt(tasks, requested, i), more).Some?
    decreases |requested| - i
  {
    hide IsTaskRemovable, GreatestRemovable, ListAt, LeftAt;
    if i < |requested| {
      FilterUnfolds(tasks, requested, i, fuel);
      FilterUnfolds(tasks, requested, i, more);
      MoreFuel(tasks, requested[i], ListAt(tasks, requested, i), fuel, more);
      FilterMoreFuel(tasks, requested, i + 1, fuel, more);
    }
  }

  lemma {:induction false} FilterEndsFrom(tasks: TaskMap, requested: seq<TaskId>, i: nat) returns (fuel: nat)
    requires i <= |requested|
    requires forall j :: i <= j < |requested| ==> Ends(tasks, ListAt(tasks, requested, j), requested[j])
    ensures FilterRequest(tasks, requested[i..], LeftAt(tasks, requested, i), fuel).Some?
    decreases |requested| - i
  {
    hide IsTaskRemovable, GreatestRemovable, ListAt, LeftAt;
    if i == |requested| {
      fuel := 0;
    } else {
      var here: nat :| IsTaskRemovable(tasks, requested[i], ListAt(tasks, requested, i), here).Some?;
      var later := FilterEndsFrom(tasks, requested, i + 1);
      fuel := if here < later then later else here;
      MoreFuel(tasks, requested[i], ListAt(tasks, requested, i), here, fuel);
      FilterMoreFuel(tasks, requested, i + 1, later, fuel);
      FilterUnfolds(tasks, requested, i, fuel);
    }
  }

  lemma WholeRequest(tasks: TaskMap, requested: seq<TaskId>)
    ensures requested[0..] == requested && LeftAt(tasks, requested, 0) == requested
  {
    hide GreatestRemovable;
    ListStarts(tasks, requested);
    KeepAll(requested);
  }

  /** Exactly when the daemon comes to the end of a removal request. */
  lemma RemoveEndsIff(tasks: TaskMap, requested: seq<TaskId>)
    ensures (exists fuel :: FilterRequest(tasks, requested, requested, fuel).Some?) <==> RequestEnds(tasks, requested)
  {
    hide IsTaskRemovable, GreatestRemovable, ListAt, LeftAt, Answers, Ends;
    WholeRequest(tasks, requested);
    forall i | 0 <= i < |requested|
      ensures Ends(tasks, ListAt(tasks, requested, i), requested[i]) <==>
              Answers(tasks, ListAt(tasks, requested, i), requested[i])
    {
      CheckEndsIff(tasks, ListAt(tasks, requested, i), requested[i]);
    }
    if RequestEnds(tasks, requested) {
      var fuel := FilterEndsFrom(tasks, requested, 0);
      assert FilterRequest(tasks, requested, requested, fuel).Some?;
    }
    if fuel :| FilterRequest(tasks, requested, requested, fuel).Some? {
      FilteredFrom(tasks, requested, 0, fuel);
    }
  }

  /** And then it keeps the greatest removable part of the request. */
  lemma FilterIsGreatest(tasks: TaskMap, requested: seq<TaskId>, fuel: nat)
    requires FilterRequest(tasks, requested, requested, fuel).Some?
    ensures FilterRequest(tasks, requested, requested, fuel) ==
            Some(Keep(requested, GreatestRemovable(tasks, Elems(requested))))
  {
    hide IsTaskRemovable, GreatestRemovable, ListAt, LeftAt;
    WholeRequest(tasks, requested);
    FilteredFrom(tasks, requested, 0, fuel);
  }

  /** The shrinking filter of `remove`: each requested task is checked against what is left of
      the request at that moment, in request order. */
  method KeepRemovable(tasks: TaskMap, requested: seq<TaskId>) returns (accepted: seq<TaskId>, refused: seq<TaskId>)
    requires RequestEnds(tasks, requested)
    ensures accepted == Keep(requested, GreatestRemovable(tasks, Elems(requested)))
    ensures forall id :: id in refused <==> id in requested && id !in accepted
  {
    hide IsTaskRemovable, GreatestRemovable, ListAt, Without, Answers, StrictlySorted;
    ghost var greatest := GreatestRemovable(tasks, Elems(requested));
    accepted, refused := requested, [];
    WholeRequest(tasks, requested);
    for i := 0 to |requested|
      invariant accepted == LeftAt(tasks, requested, i)
      invariant forall id :: id in refused <==> id in requested && id !in accepted
    {
      var id := requested[i];
      LeftStep(tasks, requested, i);
      CheckEndsIff(tasks, ListAt(tasks, requested, i), id);
      ghost var fuel: nat :| IsTaskRemovable(tasks, id, ListAt(tasks, requested, i), fuel).Some?;
      VerdictAt(tasks, requested, i, fuel);
      var ok := CheckRemovable(tasks, id, Elems(accepted), fuel);
      if !ok {
        refused := refused + [id];
        accepted := Without(accepted, id);
      }
    }
    ListStarts(tasks, requested);
  }

  // -- removing tasks ---------------------------------------------------------------------------------------

  /** The tasks without `gone`, with the index entries that `gone` had made taken back. */
  function WithoutTasks(tasks: TaskMap, gone: set<TaskId>): TaskMap {
    map k | k in tasks && k !in gone :: tasks[k].(dependents := tasks[k].dependents - (gone * DependantsOf(tasks, k)))
  }

  lemma RemoveOne(tasks: TaskMap, gone: set<TaskId>, id: TaskId)
    requires id in tasks && id !in gone
    ensures WithoutTasks(tasks, gone + {id}) ==
            Updated(WithoutTasks(tasks, gone), tasks[id].dependencies, WithoutDependent(id)) - {id}
  {
    var x := WithoutTasks(tasks, gone + {id});
    var y := Updated(WithoutTasks(tasks, gone), tasks[id].dependencies, WithoutDependent(id)) - {id};
    assert x.Keys == y.Keys;
    forall k | k in x ensures x[k] == y[k] {
      assert x[k].dependents == y[k].dependents;
    }
  }

  lemma RemoveAgain(tasks: TaskMap, gone: set<TaskId>, id: TaskId)
    requires id !in tasks
    ensures WithoutTasks(tasks, gone + {id}) == WithoutTasks(tasks, gone)
  {
    var x, y := WithoutTasks(tasks, gone + {id}), WithoutTasks(tasks, gone);
    assert x.Keys == y.Keys;
    forall k | k in x ensures x[k] == y[k] {
      assert x[k].dependents == y[k].dependents;
    }
  }

  lemma RemoveNone(tasks: TaskMap)
    ensures WithoutTasks(tasks, {}) == tasks
  {
    forall k | k in tasks ensures WithoutTasks(tasks, {})[k] == tasks[k] {
      assert WithoutTasks(tasks, {})[k].dependents == tasks[k].dependents;
    }
  }

  /** One turn of the deletion loops of `remove` and `clean`. */
  method RemoveTask(state: InternalState, id: TaskId, ghost before: TaskMap, ghost gone: set<TaskId>)
    requires state.tasks == WithoutTasks(before, gone)
    modifies state`tasks
    ensures state.tasks == WithoutTasks(before, gone + {id})
  {
    if id in state.tasks {
      RemoveOne(before, gone, id);
      state.UpdateTasks(state.tasks[id].dependencies, WithoutDependent(id));
    } else if id in before {
      assert gone + {id} == gone;
    } else {
      RemoveAgain(before, gone, id);
    }
    state.tasks := state.tasks - {id};
  }

  /** `pueue remove`. */
  method Remove(state: InternalState, ids: seq<TaskId>) returns (accepted: seq<TaskId>, refused: seq<TaskId>)
    requires RequestEnds(state.tasks, RemovalCandidates(state.tasks, ids))
    modifies state`tasks
    ensures accepted == AcceptedForRemoval(old(state.tasks), ids)
    ensures state.tasks == WithoutTasks(old(state.tasks), Elems(accepted))
    ensures forall id :: id in refused <==> id in ids && id !in accepted
  {
    ghost var before := state.tasks;
    var filtered := FilterTaskIds(state.tasks, IsRemovableStatus, ids);
    var dropped;
    accepted, dropped := KeepRemovable(state.tasks, filtered.matching);
    refused := filtered.nonMatching + dropped;
    RemoveNone(before);
    assert Elems(accepted[..0]) == {};
    for i := 0 to |accepted|
      invariant state.tasks == WithoutTasks(before, Elems(accepted[..i]))
    {
      RemoveTask(state, accepted[i], before, Elems(accepted[..i]));
      assert Elems(accepted[..i + 1]) == Elems(accepted[..i]) + {accepted[i]};
    }
    assert accepted[..|accepted|] == accepted;
  }

  function RemovalCandidates(tasks: TaskMap, ids: seq<TaskId>): seq<TaskId> {
    Matching(tasks, IsRemovableStatus, ids)
  }

  /** The accepted ids, in request order: the largest part of the removable request that no
      unfinished task outside of it waits for. */
  ghost function AcceptedForRemoval(tasks: TaskMap, ids: seq<TaskId>): seq<TaskId> {
    Keep(RemovalCandidates(tasks, ids), GreatestRemovable(tasks, Elems(RemovalCandidates(tasks, ids))))
  }

  /** The answer of `remove`, if it is found within the given depth. */
  function AcceptedWithin(tasks: TaskMap, ids: seq<TaskId>, fuel: nat): Option<seq<TaskId>> {
    FilterRequest(tasks, RemovalCandidates(tasks, ids), RemovalCandidates(tasks, ids), fuel)
  }

  /** Whether a task goes does not depend on the order in which, or how often, ids are requested, as
      long as the daemon answers both requests. */
  lemma RemovalIgnoresOrder(tasks: TaskMap, ids: seq<TaskId>, ids': seq<TaskId>, fuel: nat, fuel': nat)
    requires Elems(ids) == Elems(ids')
    requires AcceptedWithin(tasks, ids, fuel).Some? && AcceptedWithin(tasks, ids', fuel').Some?
    ensures Elems(AcceptedWithin(tasks, ids, fuel).value) == Elems(AcceptedWithin(tasks, ids', fuel').value)
  {
    hide FilterRequest, GreatestRemovable;
    FilterIsGreatest(tasks, RemovalCandidates(tasks, ids), fuel);
    FilterIsGreatest(tasks, RemovalCandidates(tasks, ids'), fuel');
    AcceptedIgnoresOrder(tasks, ids, ids');
  }

  lemma AcceptedIgnoresOrder(tasks: TaskMap, ids: seq<TaskId>, ids': seq<TaskId>)
    requires Elems(ids) == Elems(ids')
    ensures Elems(AcceptedForRemoval(tasks, ids)) == Elems(AcceptedForRemoval(tasks, ids'))
  {
    assert forall id :: id in ids <==> id in Elems(ids);
    assert forall id :: id in ids' <==> id in Elems(ids');
    assert Elems(RemovalCandidates(tasks, ids)) == Elems(RemovalCandidates(tasks, ids'));
  }

  /** Without a circle among the requested every request ends. */
  lemma NoCircleRequestEnds(tasks: TaskMap, requested: seq<TaskId>)
    requires Acyclic(RecursionGraph(tasks, Elems(requested)))
    ensures RequestEnds(tasks, requested)
  {
    hide Answers;
    forall i | 0 <= i < |requested| ensures Answers(tasks, ListAt(tasks, requested, i), requested[i]) {
      var rank: map<TaskId, int>, bound: int :| Ranked(RecursionGraph(tasks, Elems(requested)), rank, bound);
      RecursionShrinks(tasks, Elems(requested), ListAt(tasks, requested, i), rank, bound);
      NoCircleAnswers(tasks, ListAt(tasks, requested, i), requested[i]);
    }
  }

  lemma RecursionShrinks(tasks: TaskMap, larger: set<TaskId>, smaller: set<TaskId>, rank: map<TaskId, int>, bound: int)
    requires smaller <= larger && Ranked(RecursionGraph(tasks, larger), rank, bound)
    ensures Ranked(RecursionGraph(tasks, smaller), rank, bound)
  {
  }

  lemma SoundGraphRequestsEnd(tasks: TaskMap, requested: seq<TaskId>)
    requires Agree(tasks) && Acyclic(tasks)
    ensures RequestEnds(tasks, requested)
  {
    hide RequestEnds;
    SoundGraphHasNoCircle(tasks, Elems(requested));
    NoCircleRequestEnds(tasks, requested);
  }

  /** Everything requested is accepted exactly when no one else waits for it and no circle runs inside. */
  lemma AllAcceptedIff(tasks: TaskMap, requested: seq<TaskId>)
    ensures (exists fuel :: FilterRequest(tasks, requested, requested, fuel) == Some(requested)) <==>
            Closed(tasks, Elems(requested)) && !Circular(RecursionGraph(tasks, Elems(requested)))
  {
    hide FilterRequest, GreatestRemovable, RequestEnds, Circular, RecursionGraph, Closed;
    var graph := RecursionGraph(tasks, Elems(requested));
    if fuel :| FilterRequest(tasks, requested, requested, fuel) == Some(requested) {
      AcceptedIsClosedAndSound(tasks, requested, fuel);
    }
    if Closed(tasks, Elems(requested)) && !Circular(graph) {
      AcyclicIffNotCircular(graph);
      NoCircleRequestEnds(tasks, requested);
      RemoveEndsIff(tasks, requested);
      var fuel :| FilterRequest(tasks, requested, requested, fuel).Some?;
      FilterIsGreatest(tasks, requested, fuel);
      GreatestContainsClosed(tasks, Elems(requested), Elems(requested));
      KeepAllOf(requested, GreatestRemovable(tasks, Elems(requested)));
    }
  }

  lemma AcceptedIsClosedAndSound(tasks: TaskMap, requested: seq<TaskId>, fuel: nat)
    requires FilterRequest(tasks, requested, requested, fuel) == Some(requested)
    ensures Closed(tasks, Elems(requested)) && !Circular(RecursionGraph(tasks, Elems(requested)))
  {
    hide FilterRequest, RecursionGraph, Closed, WaitsFor, IsTaskRemovable;
    var all := Elems(requested);
    FilterIsGreatest(tasks, requested, fuel);
    assert GreatestRemovable(tasks, all) == all by {
      forall x | x in all ensures x in GreatestRemovable(tasks, all) {
        assert x in Keep(requested, GreatestRemovable(tasks, all));
      }
    }
    GreatestIsClosed(tasks, all);
    forall p | Chain(RecursionGraph(tasks, all), p) && |p| >= 2 ensures p[0] != p[|p| - 1] {
      if p[0] == p[|p| - 1] {
        CircleStaysInside(tasks, all, p);
        FirstIsMember(p);
        assert CircleFrom(tasks, all, p[0]) by { assert !NoDuplicates(p); }
        AcceptedHasNoCircle(tasks, requested, fuel, p[0]);
      }
    }
  }

  lemma CircleStaysInside(tasks: TaskMap, toDelete: set<TaskId>, p: seq<TaskId>)
    requires Chain(RecursionGraph(tasks, toDelete), p) && |p| >= 2 && p[0] == p[|p| - 1]
    ensures forall x :: x in p ==> x in toDelete
  {
    var graph := RecursionGraph(tasks, toDelete);
    forall i | 0 <= i < |p| ensures p[i] in toDelete {
      var j := if i == 0 then |p| - 2 else i - 1;
      assert p[j] in graph && p[j + 1] in graph[p[j]].dependencies;
    }
  }

  lemma AcceptedHasNoCircle(tasks: TaskMap, requested: seq<TaskId>, fuel: nat, id: TaskId)
    requires FilterRequest(tasks, requested, requested, fuel).Some?
    requires GreatestRemovable(tasks, Elems(requested)) == Elems(requested) && id in requested
    ensures !CircleFrom(tasks, Elems(requested), id)
  {
    hide FilterRequest, GreatestRemovable, IsTaskRemovable, CircleFrom;
    var i :| 0 <= i < |requested| && requested[i] == id;
    WholeRequest(tasks, requested);
    FilteredFrom(tasks, requested, 0, fuel);
    assert ListAt(tasks, requested, i) == Elems(requested);
    var enough: nat :| IsTaskRemovable(tasks, id, ListAt(tasks, requested, i), enough).Some?;
    VerdictAt(tasks, requested, i, enough);
    YesMeansNoCircle(tasks, Elems(requested), id, enough);
  }

  ghost predicate CircleWithExit(tasks: TaskMap, a: TaskId, b: TaskId, r: TaskId, x: TaskId) {
    && a != b && a != r && b != r && x !in {a, b, r}
    && ActiveDependants(tasks, a) == {b, r} && ActiveDependants(tasks, b) == {a} && ActiveDependants(tasks, r) == {x}
  }

  lemma RefusesInTurn(tasks: TaskMap, p: TaskId, q: TaskId, t: TaskId, fuel: nat)
    requires p != q && p != t && q != t
    requires IsTaskRemovable(tasks, p, {p, q, t}, fuel) == Some(false)
    requires IsTaskRemovable(tasks, q, {q, t}, fuel) == Some(false)
    requires IsTaskRemovable(tasks, t, {t}, fuel) == Some(false)
    ensures FilterRequest(tasks, [p, q, t], [p, q, t], fuel) == Some([])
  {
    hide IsTaskRemovable, Without;
    assert Elems([p, q, t]) == {p, q, t} && Elems([q, t]) == {q, t} && Elems([t]) == {t};
    assert [p, q, t] == [p] + [q, t] && [q, t] == [q] + [t] && [t] == [t] + [];
    WithoutFirst(p, [q, t]);
    WithoutFirst(q, [t]);
    WithoutFirst(t, []);
    assert FilterRequest(tasks, [], [], fuel) == Some([]);
    assert FilterRequest(tasks, [t], [t], fuel) == Some([]);
    assert FilterRequest(tasks, [q, t], [q, t], fuel) == Some([]);
  }

  /** Entered at its lower side, the circle keeps the check busy before it comes to the refusal. */
  lemma {:induction false} CircleEntered(tasks: TaskMap, a: TaskId, b: TaskId, r: TaskId, x: TaskId, fuel: nat)
    requires CircleWithExit(tasks, a, b, r, x) && b < r
    ensures IsTaskRemovable(tasks, a, {a, b, r}, fuel) == None
    ensures IsTaskRemovable(tasks, b, {a, b, r}, fuel) == None
    decreases fuel
  {
    if fuel > 0 {
      CircleEntered(tasks, a, b, r, x, fuel - 1);
      SortedUnique(SortedSeq({b, r}), [b, r]);
      SortedUnique(SortedSeq({a}), [a]);
      assert AllRemovable(tasks, [b, r], {a, b, r}, fuel - 1) == None;
      assert AllRemovable(tasks, [a], {a, b, r}, fuel - 1) == None;
    }
  }

  /** Two tasks wait for each other, and a third one that is refused waits for the first. Whether the
      daemon answers depends on which dependant has the lower id, and on the order of the request. */
  lemma OrderDecidesWhetherItEnds(tasks: TaskMap, a: TaskId, b: TaskId, r: TaskId, x: TaskId, fuel: nat)
    requires CircleWithExit(tasks, a, b, r, x)
    ensures CircleFrom(tasks, {a, b, r}, a)
    ensures r < b ==> FilterRequest(tasks, [a, b, r], [a, b, r], fuel + 1) == Some([])
    ensures b < r ==> FilterRequest(tasks, [a, b, r], [a, b, r], fuel) == None
    ensures FilterRequest(tasks, [r, a, b], [r, a, b], fuel) == Some([])
  {
    hide FilterRequest, IsTaskRemovable, ActiveDependants, CircleFrom;
    CircleIsThere(tasks, a, b, r, x);
    RefusesAtOnce(tasks, r, x, {a, b, r}, fuel);
    RefusesAtOnce(tasks, a, r, {a, b}, fuel);
    RefusesAtOnce(tasks, b, a, {b}, fuel);
    assert {r, a, b} == {a, b, r};
    if r < b {
      LeavesByTheExit(tasks, a, b, r, x, fuel);
      RefusesAtOnce(tasks, b, a, {b, r}, fuel + 1);
      RefusesAtOnce(tasks, r, x, {r}, fuel + 1);
      RefusesInTurn(tasks, a, b, r, fuel + 1);
    } else {
      CircleEntered(tasks, a, b, r, x, fuel);
      assert Elems([a, b, r]) == {a, b, r};
      NeverGetsPastFirst(tasks, [a, b, r], fuel);
    }
    RefusesInTurn(tasks, r, a, b, fuel);
  }

  lemma CircleIsThere(tasks: TaskMap, a: TaskId, b: TaskId, r: TaskId, x: TaskId)
    requires CircleWithExit(tasks, a, b, r, x)
    ensures CircleFrom(tasks, {a, b, r}, a)
  {
    var p := [a, b, a];
    assert p[0] == p[2];
    assert Chain(RecursionGraph(tasks, {a, b, r}), p) && !NoDuplicates(p);
  }

  lemma LeavesByTheExit(tasks: TaskMap, a: TaskId, b: TaskId, r: TaskId, x: TaskId, fuel: nat)
    requires CircleWithExit(tasks, a, b, r, x) && r < b
    ensures IsTaskRemovable(tasks, a, {a, b, r}, fuel + 1) == Some(false)
  {
    hide IsTaskRemovable, AllRemovable, ActiveDependants;
    SortedUnique(SortedSeq({b, r}), [r, b]);
    RefusesAtOnce(tasks, r, x, {a, b, r}, fuel);
    NoIsReached(tasks, [r, b], {a, b, r}, fuel, 0);
    CheckUnfolds(tasks, a, {a, b, r}, fuel + 1);
  }

  lemma RefusesAtOnce(tasks: TaskMap, id: TaskId, d: TaskId, toDelete: set<TaskId>, fuel: nat)
    requires d in ActiveDependants(tasks, id) && d !in toDelete
    ensures IsTaskRemovable(tasks, id, toDelete, fuel) == Some(false)
  {
  }

  lemma NeverGetsPastFirst(tasks: TaskMap, requested: seq<TaskId>, fuel: nat)
    requires requested != [] && IsTaskRemovable(tasks, requested[0], Elems(requested), fuel) == None
    ensures FilterRequest(tasks, requested, requested, fuel) == None
  {
  }

  // -- clean ------------------------------------------------------------------------------------------------

  /** Finished, not waited for, and selected by the request. */
  predicate Cleanable(tasks: TaskMap, id: TaskId, successfulOnly: bool, group: Option<string>) {
    && id in tasks && IsDone(tasks[id])
    && ActiveDependants(tasks, id) == {}
    && (successfulOnly ==> Succeeded(tasks[id]))
    && (group.Some? ==> tasks[id].group == group.value)
  }

  /** Tasks that were cleaned before a task do not change the verdict on it. */
  lemma CleaningHidesNoWaiter(tasks: TaskMap, gone: set<TaskId>, id: TaskId)
    requires id in tasks && id !in gone
    requires forall g :: g in gone && g in tasks ==> IsDone(tasks[g])
    ensures ActiveDependants(WithoutTasks(tasks, gone), id) == ActiveDependants(tasks, id)
  {
  }

  /** With nothing to delete the check never goes deeper than one call. */
  lemma NothingToDeleteEnds(tasks: TaskMap, id: TaskId)
    ensures IsTaskRemovable(tasks, id, {}, 0) == Some(ActiveDependants(tasks, id) == {})
  {
  }

  /** One turn of the loop of `clean`. */
  method CleanOne(state: InternalState, id: TaskId, successfulOnly: bool, group: Option<string>,
                  ghost before: TaskMap, ghost gone: set<TaskId>)
    requires state.tasks == WithoutTasks(before, gone)
    requires id in before && IsDone(before[id]) && id !in gone
    requires forall g :: g in gone && g in before ==> IsDone(before[g])
    modifies state`tasks
    ensures state.tasks ==
            WithoutTasks(before, gone + if Cleanable(before, id, successfulOnly, group) then {id} else {})
  {
    CleaningHidesNoWaiter(before, gone, id);
    NothingToDeleteEnds(state.tasks, id);
    var ok := CheckRemovable(state.tasks, id, {}, 0);
    assert gone + {} == gone;
    if !ok {
      return;
    }
    var task := state.tasks[id];
    if (successfulOnly && !Succeeded(task)) || (group.Some? && group.value != task.group) {
      return;
    }
    RemoveTask(state, id, before, gone);
  }

  /** `pueue clean`; the finished tasks may be visited in any order. */
  method Clean(state: InternalState, successfulOnly: bool, group: Option<string>)
    modifies state`tasks
    ensures state.tasks == Cleaned(old(state.tasks), successfulOnly, group)
  {
    hide WithoutTasks, ActiveDependants;
    ghost var before := state.tasks;
    ghost var selected := CleanSelection(before, successfulOnly, group);
    var finished := set k | k in state.tasks && IsDone(state.tasks[k]);
    var remaining := finished;
    RemoveNone(before);
    assert selected * (finished - remaining) == {};
    while remaining != {}
      invariant remaining <= finished
      invariant state.tasks == WithoutTasks(before, selected * (finished - remaining))
    {
      var id :| id in remaining;
      CleanOne(state, id, successfulOnly, group, before, selected * (finished - remaining));
      assert selected * (finished - (remaining - {id})) ==
             selected * (finished - remaining) + if Cleanable(before, id, successfulOnly, group) then {id} else {};
      remaining := remaining - {id};
    }
    assert selected * (finished - remaining) == selected;
  }

  function CleanSelection(tasks: TaskMap, successfulOnly: bool, group: Option<string>): set<TaskId> {
    set k | k in tasks && Cleanable(tasks, k, successfulOnly, group)
  }

  function Cleaned(tasks: TaskMap, successfulOnly: bool, group: Option<string>): TaskMap {
    WithoutTasks(tasks, CleanSelection(tasks, successfulOnly, group))
  }

  /** What leaves the list and what stays of the rest, when `gone` is removed. */
  lemma RemovedRecords(tasks: TaskMap, gone: set<TaskId>, k: TaskId)
    requires k in tasks
    ensures var after := WithoutTasks(tasks, gone);
      && after.Keys == tasks.Keys - gone
      && (k in after ==> after[k] == tasks[k].(dependents := after[k].dependents))
      && (k in after ==> forall d :: d in after[k].dependents <==>
            d in tasks[k].dependents && !(d in gone && d in tasks && k in tasks[d].dependencies))
  {
  }

  /** A clean drops exactly the finished tasks that the request selects and no unfinished task is listed
      to depend on; what stays only loses index entries of what is gone. */
  lemma CleanOutcome(tasks: TaskMap, successfulOnly: bool, group: Option<string>, k: TaskId)
    requires k in tasks
    ensures var after := Cleaned(tasks, successfulOnly, group);
      && after.Keys <= tasks.Keys
      && (k !in after <==>
            && tasks[k].status.Done?
            && (forall d :: d in tasks[k].dependents && d in tasks ==> tasks[d].status.Done?)
            && (successfulOnly ==> tasks[k].status.result == Success)
            && (group == None || group == Some(tasks[k].group)))
      && (k in after ==>
            && after[k] == tasks[k].(dependents := after[k].dependents)
            && after[k].dependents <= tasks[k].dependents
            && forall d :: d in tasks[k].dependents && d !in after[k].dependents ==> d in tasks && d !in after)
  {
    RemovedRecords(tasks, CleanSelection(tasks, successfulOnly, group), k);
    NoUnfinishedListedIff(tasks, k);
    hide WithoutTasks, ActiveDependants;
  }

  lemma NoUnfinishedListedIff(tasks: TaskMap, k: TaskId)
    requires k in tasks
    ensures ActiveDependants(tasks, k) == {} <==>
            forall d :: d in tasks[k].dependents && d in tasks ==> tasks[d].status.Done?
  {
    if d :| d in tasks[k].dependents && d in tasks && !tasks[d].status.Done? {
      assert d in ActiveDependants(tasks, k);
    }
    if d :| d in ActiveDependants(tasks, k) {
      assert d in tasks[k].dependents && d in tasks;
    }
  }

  /** An answered removal drops exactly the requested tasks without a process for which only such
      requested tasks wait; what stays only loses index entries of what is gone. */
  lemma RemoveOutcome(tasks: TaskMap, ids: seq<TaskId>, k: TaskId)
    requires k in tasks
    ensures var after := WithoutTasks(tasks, Elems(AcceptedForRemoval(tasks, ids)));
      && after.Keys <= tasks.Keys
      && (k !in after <==>
            HasNoProcess(tasks, ids, k) && forall r :: WaitsFor(tasks, r, k) ==> HasNoProcess(tasks, ids, r))
      && (k in after ==>
            && after[k] == tasks[k].(dependents := after[k].dependents)
            && after[k].dependents <= tasks[k].dependents
            && forall d :: d in tasks[k].dependents && d !in after[k].dependents ==> d in tasks && d !in after)
  {
    hide WaitsFor, WithoutTasks;
    RemovedRecords(tasks, Elems(AcceptedForRemoval(tasks, ids)), k);
    forall r ensures r in Elems(RemovalCandidates(tasks, ids)) <==> HasNoProcess(tasks, ids, r) {
      CandidateIff(tasks, ids, r);
    }
  }

  ghost predicate HasNoProcess(tasks: TaskMap, ids: seq<TaskId>, k: TaskId) {
    k in ids && k in tasks && tasks[k].status != TaskStatus.Running && tasks[k].status != TaskStatus.Paused
  }

  lemma CandidateIff(tasks: TaskMap, ids: seq<TaskId>, k: TaskId)
    ensures k in RemovalCandidates(tasks, ids) <==> HasNoProcess(tasks, ids, k)
  {
  }

  // -- what removal keeps -----------------------------------------------------------------------------------

  lemma RemovalKeepsRank(tasks: TaskMap, gone: set<TaskId>, rank: map<TaskId, int>, bound: int)
    requires Ranked(tasks, rank, bound)
    ensures Ranked(WithoutTasks(tasks, gone), rank, bound)
  {
  }

  lemma RemovalKeepsGraph(tasks: TaskMap, gone: set<TaskId>)
    ensures KeyedById(tasks) ==> KeyedById(WithoutTasks(tasks, gone))
    ensures Agree(tasks) ==> Agree(WithoutTasks(tasks, gone))
    ensures Agree(tasks) && NoStaleDependents(tasks) ==> NoStaleDependents(WithoutTasks(tasks, gone))
    ensures Acyclic(tasks) ==> Acyclic(WithoutTasks(tasks, gone))
  {
    if Acyclic(tasks) {
      var rank: map<TaskId, int>, bound: int :| Ranked(tasks, rank, bound);
      RemovalKeepsRank(tasks, gone, rank, bound);
    }
  }

  /** Removing a closed set takes no unfinished task's dependency away. */
  lemma RemovalKeepsLive(tasks: TaskMap, gone: set<TaskId>)
    requires Agree(tasks) && Live(tasks) && Closed(tasks, gone)
    ensures Live(WithoutTasks(tasks, gone))
  {
    var rest := WithoutTasks(tasks, gone);
    forall k, d | k in rest && !IsDone(rest[k]) && d in rest[k].dependencies ensures d in rest {
      assert d in tasks;
      assert d in gone ==> k in ActiveDependants(tasks, d);
    }
  }

  lemma AcceptedIsClosed(tasks: TaskMap, ids: seq<TaskId>)
    ensures Closed(tasks, Elems(AcceptedForRemoval(tasks, ids)))
  {
    var requested := Elems(RemovalCandidates(tasks, ids));
    GreatestIsClosed(tasks, requested);
    assert Elems(AcceptedForRemoval(tasks, ids)) == GreatestRemovable(tasks, requested);
  }

  lemma CleanedIsClosed(tasks: TaskMap, successfulOnly: bool, group: Option<string>)
    ensures Closed(tasks, CleanSelection(tasks, successfulOnly, group))
  {
  }
}
