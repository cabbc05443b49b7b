/** Swapping tasks pairwise: the daemon's shortcut against relabelling every id. */
module Switch {
  import opened Lists
  import opened Tasks
  import opened DependencyGraph

  /** The image of a set when `a` and `b` trade places. */
  function SwapSet(a: TaskId, b: TaskId, s: set<TaskId>): set<TaskId> {
    (s - {a} - {b}) + (if a in s then {b} else {}) + (if b in s then {a} else {})
  }

  lemma SwapSetIsImage(a: TaskId, b: TaskId, s: set<TaskId>, x: TaskId)
    ensures x in s <==> SwapId(a, b, x) in SwapSet(a, b, s)
  {
  }

  function SwapDependents(a: TaskId, b: TaskId): Task -> Task {
    (task: Task) => task.(dependents := SwapSet(a, b, task.dependents))
  }

  function SwapDependencies(a: TaskId, b: TaskId): Task -> Task {
    (task: Task) => task.(dependencies := SwapSet(a, b, task.dependencies))
  }

  function SymmetricDifference(s: set<TaskId>, t: set<TaskId>): set<TaskId> {
    (s - t) + (t - s)
  }

  /** Both tasks change places; only records that list exactly one of the two are rewritten. */
  function SwapStep(tasks: TaskMap, a: TaskId, b: TaskId): TaskMap
    requires a in tasks && b in tasks
  {
    if a == b then tasks
    else
      var task1, task2 := tasks[a], tasks[b];
      var id1, id2 := task1.id, task2.id;
      var moved := (tasks - {a} - {b})[id2 := task1.(id := id2)][id1 := task2.(id := id1)];
      Updated(
        Updated(moved, SymmetricDifference(task1.dependencies, task2.dependencies), SwapDependents(id1, id2)),
        SymmetricDifference(task1.dependents, task2.dependents), SwapDependencies(id1, id2))
  }

  // -- the reference: rename two ids everywhere -------------------------------------------------------------

  function RelabelTask(a: TaskId, b: TaskId, task: Task): Task {
    task.(id := SwapId(a, b, task.id),
          dependencies := SwapSet(a, b, task.dependencies),
          dependents := SwapSet(a, b, task.dependents))
  }

  function Relabel(tasks: TaskMap, a: TaskId, b: TaskId): TaskMap
    requires a in tasks && b in tasks
  {
    (map k | k in tasks :: RelabelTask(a, b, tasks[k]))
      [b := RelabelTask(a, b, tasks[a])][a := RelabelTask(a, b, tasks[b])]
  }

  lemma RelabelKeys(tasks: TaskMap, a: TaskId, b: TaskId)
    requires a in tasks && b in tasks
    ensures Relabel(tasks, a, b).Keys == tasks.Keys
  {
  }

  ghost predicate DirectEdge(tasks: TaskMap, a: TaskId, b: TaskId)
    requires a in tasks && b in tasks
  {
    a in tasks[b].dependencies || b in tasks[a].dependencies
  }

  /** Key set and keying survive any swap, with or without a direct edge. */
  lemma SwapKeepsKeys(tasks: TaskMap, a: TaskId, b: TaskId)
    requires KeyedById(tasks) && a in tasks && b in tasks
    ensures SwapStep(tasks, a, b).Keys == tasks.Keys && KeyedById(SwapStep(tasks, a, b))
  {
  }

  lemma NoSelfDependency(tasks: TaskMap, a: TaskId)
    requires Acyclic(tasks) && a in tasks
    ensures a !in tasks[a].dependencies
  {
    var rank: map<TaskId, int>, bound: int :| Ranked(tasks, rank, bound);
  }

  lemma NoMutualDependency(tasks: TaskMap, a: TaskId, b: TaskId)
    requires Acyclic(tasks) && a in tasks && b in tasks && a in tasks[b].dependencies
    ensures b !in tasks[a].dependencies
  {
    var rank: map<TaskId, int>, bound: int :| Ranked(tasks, rank, bound);
  }

  /** Records other than the two swapped ones. */
  lemma SwapBystander(tasks: TaskMap, a: TaskId, b: TaskId, k: TaskId)
    requires KeyedById(tasks) && Agree(tasks) && a in tasks && b in tasks && a != b
    requires k in tasks && k != a && k != b
    ensures k in SwapStep(tasks, a, b) && SwapStep(tasks, a, b)[k] == RelabelTask(a, b, tasks[k])
  {
    var after, task := SwapStep(tasks, a, b)[k], tasks[k];
    assert k in tasks[a].dependencies <==> a in task.dependents;
    assert k in tasks[b].dependencies <==> b in task.dependents;
    assert k in tasks[a].dependents <==> a in task.dependencies;
    assert k in tasks[b].dependents <==> b in task.dependencies;
    assert after.dependents == SwapSet(a, b, task.dependents);
    assert after.dependencies == SwapSet(a, b, task.dependencies);
  }

  /** Each swapped record carries its own dependencies over, whatever edge there is. */
  lemma CarriedDependencies(tasks: TaskMap, a: TaskId, b: TaskId)
    requires KeyedById(tasks) && Agree(tasks) && Acyclic(tasks) && a in tasks && b in tasks && a != b
    ensures var after := SwapStep(tasks, a, b);
      && a in after && b in after
      && (a !in tasks[b].dependencies ==> after[b].dependencies == tasks[a].dependencies)
      && (b !in tasks[a].dependencies ==> after[a].dependencies == tasks[b].dependencies)
  {
    NoSelfDependency(tasks, a);
    NoSelfDependency(tasks, b);
    assert a !in tasks[a].dependents && b !in tasks[b].dependents;
    assert a in tasks[b].dependencies <==> b in tasks[a].dependents;
    assert b in tasks[a].dependencies <==> a in tasks[b].dependents;
  }

  lemma SwapMovers(tasks: TaskMap, a: TaskId, b: TaskId)
    requires KeyedById(tasks) && Agree(tasks) && Acyclic(tasks) && a in tasks && b in tasks && a != b
    requires !DirectEdge(tasks, a, b)
    ensures var after := SwapStep(tasks, a, b);
      a in after && b in after && after[b] == tasks[a].(id := b) && after[a] == tasks[b].(id := a)
  {
    NoSelfDependency(tasks, a);
    NoSelfDependency(tasks, b);
    assert a !in tasks[a].dependents && b !in tasks[b].dependents;
    assert b !in tasks[a].dependents && a !in tasks[b].dependents;
  }

  lemma SwapRefinesAt(tasks: TaskMap, a: TaskId, b: TaskId, k: TaskId)
    requires KeyedById(tasks) && Agree(tasks) && Acyclic(tasks) && a in tasks && b in tasks && a != b
    requires !DirectEdge(tasks, a, b) && k in tasks
    ensures k in SwapStep(tasks, a, b) && SwapStep(tasks, a, b)[k] == Relabel(tasks, a, b)[k]
  {
    if k == a || k == b {
      SwapMovers(tasks, a, b);
      MoverIsRelabelled(tasks, a, b);
      MoverIsRelabelled(tasks, b, a);
    } else {
      SwapBystander(tasks, a, b, k);
    }
  }

  /** The shortcut is a faithful relabelling when neither task depends directly on the other. */
  lemma SwapRefines(tasks: TaskMap, a: TaskId, b: TaskId)
    requires KeyedById(tasks) && Agree(tasks) && Acyclic(tasks) && a in tasks && b in tasks && a != b
    requires !DirectEdge(tasks, a, b)
    ensures SwapStep(tasks, a, b) == Relabel(tasks, a, b)
  {
    hide SwapStep, Relabel, RelabelTask, Agree;
    var x, y := SwapStep(tasks, a, b), Relabel(tasks, a, b);
    SwapKeepsKeys(tasks, a, b);
    RelabelKeys(tasks, a, b);
    forall k | k in tasks ensures x[k] == y[k] {
      SwapRefinesAt(tasks, a, b, k);
    }
  }

  lemma MoverIsRelabelled(tasks: TaskMap, a: TaskId, b: TaskId)
    requires KeyedById(tasks) && Agree(tasks) && Acyclic(tasks) && a in tasks && b in tasks && a != b
    requires !DirectEdge(tasks, a, b)
    ensures RelabelTask(a, b, tasks[a]) == tasks[a].(id := b)
    ensures RelabelTask(b, a, tasks[a]) == tasks[a].(id := b)
  {
    NoSelfDependency(tasks, a);
    assert a !in tasks[a].dependents && b !in tasks[a].dependents;
    assert SwapSet(a, b, tasks[a].dependencies) == tasks[a].dependencies;
    assert SwapSet(a, b, tasks[a].dependents) == tasks[a].dependents;
    assert SwapSet(b, a, tasks[a].dependencies) == tasks[a].dependencies;
    assert SwapSet(b, a, tasks[a].dependents) == tasks[a].dependents;
  }

  lemma RelabelledDependencies(tasks: TaskMap, a: TaskId, b: TaskId)
    requires a in tasks && b in tasks && a != b
    ensures var expected := Relabel(tasks, a, b);
      && a in expected && b in expected
      && (a !in tasks[a].dependencies ==> b !in expected[b].dependencies)
      && (b !in tasks[b].dependencies ==> a !in expected[a].dependencies)
  {
  }

  /** Swapping a task with its own dependency leaves it depending on itself. */
  lemma SwapAcrossEdgeBreaks(tasks: TaskMap, a: TaskId, b: TaskId)
    requires KeyedById(tasks) && Agree(tasks) && Acyclic(tasks) && a in tasks && b in tasks && a != b
    requires DirectEdge(tasks, a, b)
    ensures !Acyclic(SwapStep(tasks, a, b))
    ensures SwapStep(tasks, a, b) != Relabel(tasks, a, b)
  {
    hide SwapStep, Relabel, KeyedById, Agree, Acyclic;
    var after := SwapStep(tasks, a, b);
    NoSelfDependency(tasks, a);
    NoSelfDependency(tasks, b);
    CarriedDependencies(tasks, a, b);
    RelabelledDependencies(tasks, a, b);
    if b in tasks[a].dependencies {
      NoMutualDependency(tasks, b, a);
      if Acyclic(after) { NoSelfDependency(after, b); }
    } else {
      if Acyclic(after) { NoSelfDependency(after, a); }
    }
  }

  /** Exactly when: on an acyclic graph with an agreeing index, the daemon's swap is the
      relabelling if and only if there is no direct edge between the two tasks. */
  lemma SwapRefinesIff(tasks: TaskMap, a: TaskId, b: TaskId)
    requires KeyedById(tasks) && Agree(tasks) && Acyclic(tasks) && a in tasks && b in tasks && a != b
    ensures SwapStep(tasks, a, b) == Relabel(tasks, a, b) <==> !DirectEdge(tasks, a, b)
  {
    if !DirectEdge(tasks, a, b) {
      SwapRefines(tasks, a, b);
    } else {
      SwapAcrossEdgeBreaks(tasks, a, b);
    }
  }

  // -- lists of pairs ---------------------------------------------------------------------------------------

  type Pair = (TaskId, TaskId)

  ghost predicate Known(tasks: TaskMap, pairs: seq<Pair>) {
    forall i :: 0 <= i < |pairs| ==> pairs[i].0 in tasks && pairs[i].1 in tasks
  }

  /** The swaps of a request, one after the other. */
  function SwapPairs(tasks: TaskMap, pairs: seq<Pair>): TaskMap
    requires KeyedById(tasks) && Known(tasks, pairs)
    decreases |pairs|
  {
    if pairs == [] then tasks
    else
      SwapKeepsKeys(tasks, pairs[0].0, pairs[0].1);
      SwapPairs(SwapStep(tasks, pairs[0].0, pairs[0].1), pairs[1..])
  }

  /** No pair is joined by a direct edge at the moment it is swapped. */
  ghost predicate EdgeFree(tasks: TaskMap, pairs: seq<Pair>)
    requires KeyedById(tasks) && Known(tasks, pairs)
    decreases |pairs|
  {
    pairs != [] ==>
      var (a, b) := pairs[0];
      SwapKeepsKeys(tasks, a, b);
      (a != b ==> !DirectEdge(tasks, a, b)) && EdgeFree(SwapStep(tasks, a, b), pairs[1..])
  }

  /** Where an id ends up after all transpositions. */
  function Permuted(pairs: seq<Pair>, x: TaskId): TaskId {
    if pairs == [] then x else Permuted(pairs[1..], SwapId(pairs[0].0, pairs[0].1, x))
  }

  lemma {:induction false} PermutedInjective(pairs: seq<Pair>, x: TaskId, y: TaskId)
    ensures Permuted(pairs, x) == Permuted(pairs, y) <==> x == y
  {
    if pairs != [] {
      PermutedInjective(pairs[1..], SwapId(pairs[0].0, pairs[0].1, x), SwapId(pairs[0].0, pairs[0].1, y));
    }
  }

  /** `after` holds `task` with every id sent to its place, record id, key and both lists. */
  ghost predicate Relabelled(pairs: seq<Pair>, task: Task, after: TaskMap) {
    var k := Permuted(pairs, task.id);
    && k in after
    && after[k] == task.(id := k, dependencies := after[k].dependencies, dependents := after[k].dependents)
    && (forall x :: x in task.dependencies <==> Permuted(pairs, x) in after[k].dependencies)
    && (forall x :: x in task.dependents <==> Permuted(pairs, x) in after[k].dependents)
  }

  /** List entries of the relabelled map, read back in the old names. */
  lemma RelabelEntry(tasks: TaskMap, a: TaskId, b: TaskId, k: TaskId, x: TaskId)
    requires a in tasks && b in tasks && k in tasks
    ensures var k', x', after := SwapId(a, b, k), SwapId(a, b, x), Relabel(tasks, a, b);
      && k' in tasks && k in after
      && (x in after[k].dependencies <==> x' in tasks[k'].dependencies)
      && (x in after[k].dependents <==> x' in tasks[k'].dependents)
      && (x in tasks <==> x' in tasks)
      && after[k].status == tasks[k'].status
  {
  }

  /** Everything that relies on the graph is carried along by a relabelling. */
  lemma RelabelKeepsGraph(tasks: TaskMap, a: TaskId, b: TaskId)
    requires KeyedById(tasks) && a in tasks && b in tasks
    ensures var after := Relabel(tasks, a, b);
      && after.Keys == tasks.Keys && KeyedById(after)
      && (Agree(tasks) ==> Agree(after))
      && (NoStaleDependents(tasks) ==> NoStaleDependents(after))
      && (Live(tasks) ==> Live(after))
  {
    var after := Relabel(tasks, a, b);
    if Agree(tasks) {
      forall x, y | x in after && y in after ensures y in after[x].dependents <==> x in after[y].dependencies {
        RelabelEntry(tasks, a, b, x, y);
        RelabelEntry(tasks, a, b, y, x);
      }
    }
    if NoStaleDependents(tasks) {
      forall x, y | x in after && y in after[x].dependents ensures y in after {
        RelabelEntry(tasks, a, b, x, y);
      }
    }
    if Live(tasks) {
      forall x, y | x in after && !IsDone(after[x]) && y in after[x].dependencies ensures y in after {
        RelabelEntry(tasks, a, b, x, y);
      }
    }
  }

  lemma RelabelKeepsAcyclic(tasks: TaskMap, a: TaskId, b: TaskId)
    requires Acyclic(tasks) && a in tasks && b in tasks
    ensures Acyclic(Relabel(tasks, a, b))
  {
    hide Relabel, RelabelTask;
    var after := Relabel(tasks, a, b);
    var rank: map<TaskId, int>, bound: int :| Ranked(tasks, rank, bound);
    var moved := rank[b := rank[a]][a := rank[b]];
    RelabelKeys(tasks, a, b);
    forall k, d | k in after && d in after && d in after[k].dependencies ensures moved[d] < moved[k] {
      RelabelEntry(tasks, a, b, k, d);
    }
    assert Ranked(after, moved, bound);
  }

  /** The graph invariants survive one edge-free swap. */
  lemma SwapKeepsGraph(tasks: TaskMap, a: TaskId, b: TaskId)
    requires KeyedById(tasks) && Agree(tasks) && Acyclic(tasks) && a in tasks && b in tasks
    requires a != b ==> !DirectEdge(tasks, a, b)
    ensures var after := SwapStep(tasks, a, b);
      && after.Keys == tasks.Keys && KeyedById(after) && Agree(after) && Acyclic(after)
      && (NoStaleDependents(tasks) ==> NoStaleDependents(after))
      && (Live(tasks) ==> Live(after))
  {
    if a != b {
      SwapRefines(tasks, a, b);
      RelabelKeepsGraph(tasks, a, b);
      RelabelKeepsAcyclic(tasks, a, b);
    }
  }

  lemma {:induction false} SwapPairsKeepsGraph(tasks: TaskMap, pairs: seq<Pair>)
    requires KeyedById(tasks) && Known(tasks, pairs) && Agree(tasks) && Acyclic(tasks) && EdgeFree(tasks, pairs)
    ensures var after := SwapPairs(tasks, pairs);
      && after.Keys == tasks.Keys && KeyedById(after) && Agree(after) && Acyclic(after)
      && (NoStaleDependents(tasks) ==> NoStaleDependents(after))
      && (Live(tasks) ==> Live(after))
    decreases |pairs|
  {
    if pairs != [] {
      SwapKeepsGraph(tasks, pairs[0].0, pairs[0].1);
      SwapPairsKeepsGraph(SwapStep(tasks, pairs[0].0, pairs[0].1), pairs[1..]);
    }
  }

  /** An edge-free request moves every task to its permuted id and renames every list entry. */
  lemma {:induction false} SwitchRefinesRelabelling(tasks: TaskMap, pairs: seq<Pair>, k: TaskId)
    requires KeyedById(tasks) && Known(tasks, pairs) && Agree(tasks) && Acyclic(tasks) && EdgeFree(tasks, pairs)
    requires k in tasks
    ensures Relabelled(pairs, tasks[k], SwapPairs(tasks, pairs))
    decreases |pairs|
  {
    if pairs != [] {
      var (a, b) := pairs[0];
      SwapKeepsGraph(tasks, a, b);
      var next, k' := SwapStep(tasks, a, b), SwapId(a, b, k);
      SwapStepRelabelsTask(tasks, a, b, k);
      SwitchRefinesRelabelling(next, pairs[1..], k');
      RelabelledThrough(pairs, tasks[k], next[k'], SwapPairs(next, pairs[1..]));
    }
  }

  lemma SwapStepRelabelsTask(tasks: TaskMap, a: TaskId, b: TaskId, k: TaskId)
    requires KeyedById(tasks) && Agree(tasks) && Acyclic(tasks) && a in tasks && b in tasks && k in tasks
    requires a != b ==> !DirectEdge(tasks, a, b)
    ensures SwapId(a, b, k) in SwapStep(tasks, a, b)
    ensures SwapStep(tasks, a, b)[SwapId(a, b, k)] == RelabelTask(a, b, tasks[k])
  {
    if a != b {
      SwapRefines(tasks, a, b);
    } else {
      assert SwapSet(a, b, tasks[k].dependencies) == tasks[k].dependencies;
      assert SwapSet(a, b, tasks[k].dependents) == tasks[k].dependents;
    }
  }

  lemma RelabelledThrough(pairs: seq<Pair>, task: Task, next: Task, after: TaskMap)
    requires pairs != [] && next == RelabelTask(pairs[0].0, pairs[0].1, task)
    requires Relabelled(pairs[1..], next, after)
    ensures Relabelled(pairs, task, after)
  {
    var (a, b) := pairs[0];
    var k := Permuted(pairs, task.id);
    forall x ensures x in task.dependencies <==> Permuted(pairs, x) in after[k].dependencies {
      SwapSetIsImage(a, b, task.dependencies, x);
    }
    forall x ensures x in task.dependents <==> Permuted(pairs, x) in after[k].dependents {
      SwapSetIsImage(a, b, task.dependents, x);
    }
  }

  /** Step by step, the shortcut is the relabelling throughout a request if and only if the
      request is edge free. */
  lemma {:induction false} EveryStepRelabelsIff(tasks: TaskMap, pairs: seq<Pair>)
    requires KeyedById(tasks) && Known(tasks, pairs) && Agree(tasks) && Acyclic(tasks)
    ensures EveryStepRelabels(tasks, pairs) <==> EdgeFree(tasks, pairs)
    decreases |pairs|
  {
    hide SwapStep, Relabel, KeyedById, Agree, Acyclic;
    if pairs != [] {
      var (a, b) := pairs[0];
      SwapKeepsKeys(tasks, a, b);
      StepRelabelsIff(tasks, a, b);
      if a != b ==> !DirectEdge(tasks, a, b) {
        SwapKeepsGraph(tasks, a, b);
        EveryStepRelabelsIff(SwapStep(tasks, a, b), pairs[1..]);
      }
    }
  }

  lemma StepRelabelsIff(tasks: TaskMap, a: TaskId, b: TaskId)
    requires KeyedById(tasks) && Agree(tasks) && Acyclic(tasks) && a in tasks && b in tasks
    ensures SwapStep(tasks, a, b) == Relabel(tasks, a, b) <==> (a != b ==> !DirectEdge(tasks, a, b))
  {
    if a != b {
      SwapRefinesIff(tasks, a, b);
    } else {
      RelabelSelf(tasks, a);
    }
  }

  lemma RelabelSelf(tasks: TaskMap, a: TaskId)
    requires KeyedById(tasks) && a in tasks
    ensures Relabel(tasks, a, a) == tasks
  {
    forall k | k in tasks ensures Relabel(tasks, a, a)[k] == tasks[k] {
      assert SwapSet(a, a, tasks[k].dependencies) == tasks[k].dependencies;
      assert SwapSet(a, a, tasks[k].dependents) == tasks[k].dependents;
    }
  }

  ghost predicate EveryStepRelabels(tasks: TaskMap, pairs: seq<Pair>)
    requires KeyedById(tasks) && Known(tasks, pairs)
    decreases |pairs|
  {
    pairs != [] ==>
      var (a, b) := pairs[0];
      SwapKeepsKeys(tasks, a, b);
      SwapStep(tasks, a, b) == Relabel(tasks, a, b) && EveryStepRelabels(SwapStep(tasks, a, b), pairs[1..])
  }

  // -- the request ------------------------------------------------------------------------------------------

  function Zip(ids1: seq<TaskId>, ids2: seq<TaskId>): seq<Pair>
    requires |ids1| == |ids2|
  {
    seq(|ids1|, i requires 0 <= i < |ids1| => (ids1[i], ids2[i]))
  }

  predicate SwitchAccepted(tasks: TaskMap, ids1: seq<TaskId>, ids2: seq<TaskId>) {
    && |ids1| == |ids2| && ids1 != []
    && forall id :: id in ids1 + ids2 ==> id in tasks && IsSwitchable(tasks[id])
  }

  /** One turn of the swapping loop. Both removals find their task. */
  method SwitchPair(state: InternalState, a: TaskId, b: TaskId)
    requires a in state.tasks && b in state.tasks
    modifies state`tasks
    ensures state.tasks == SwapStep(old(state.tasks), a, b)
  {
    if a == b {
      return;
    }
    var task1 := state.tasks[a];
    state.tasks := state.tasks - {a};
    var task2 := state.tasks[b];
    state.tasks := state.tasks - {b};
    var id1, id2 := task1.id, task2.id;
    state.tasks := state.tasks[id2 := task1.(id := id2)];
    state.tasks := state.tasks[id1 := task2.(id := id1)];
    state.UpdateTasks(SymmetricDifference(task1.dependencies, task2.dependencies), SwapDependents(id1, id2));
    state.UpdateTasks(SymmetricDifference(task1.dependents, task2.dependents), SwapDependencies(id1, id2));
  }

  /** `pueue switch`. Keying by id is all that the unwrapped removals need. */
  method SwitchTasks(state: InternalState, ids1: seq<TaskId>, ids2: seq<TaskId>) returns (ok: bool)
    requires KeyedById(state.tasks)
    modifies state`tasks
    ensures ok <==> SwitchAccepted(old(state.tasks), ids1, ids2)
    ensures ok <==> |ids1| == |ids2| > 0 && forall id :: id in ids1 || id in ids2 ==>
      id in old(state.tasks) && (old(state.tasks)[id].status == Queued || old(state.tasks)[id].status.Stashed?)
    ensures ok ==> Known(old(state.tasks), Zip(ids1, ids2)) &&
                   state.tasks == SwapPairs(old(state.tasks), Zip(ids1, ids2))
    ensures !ok ==> state.tasks == old(state.tasks)
  {
    hide SwapStep, KeyedById, Matching;
    if |ids1| != |ids2| || ids1 == [] {
      return false;
    }
    var filtered := FilterTaskIds(state.tasks, IsSwitchable, ids1 + ids2);
    if filtered.nonMatching != [] {
      assert filtered.nonMatching[0] in filtered.nonMatching;
      return false;
    }
    assert forall id :: id in ids1 || id in ids2 ==> id in filtered.matching;
    ghost var before, pairs := state.tasks, Zip(ids1, ids2);
    assert forall i :: 0 <= i < |pairs| ==> pairs[i].0 in ids1 && pairs[i].1 in ids2;
    for i := 0 to |ids1|
      invariant state.tasks.Keys == before.Keys && KeyedById(state.tasks)
      invariant SwapPairs(before, pairs) == SwapPairs(state.tasks, pairs[i..])
    {
      assert pairs[i..][0] == (ids1[i], ids2[i]) && pairs[i..][1..] == pairs[i + 1..];
      SwapKeepsKeys(state.tasks, ids1[i], ids2[i]);
      SwitchPair(state, ids1[i], ids2[i]);
    }
    return true;
  }
}
