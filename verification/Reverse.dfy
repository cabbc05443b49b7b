/** Reversing a list of tasks: pair construction on the client, carried out by `switch`. */
module Reverse {
  import opened Lists
  import opened Tasks
  import opened DependencyGraph
  import opened Switch

  /** First with last, second with second to last, and so on. */
  function ReversePairs(ids: seq<TaskId>): seq<Pair> {
    seq(|ids| / 2, i requires 0 <= i < |ids| / 2 => (ids[i], ids[|ids| - 1 - i]))
  }

  datatype ReverseOutcome = EmptyRequest | NothingToDo | Send(ids1: seq<TaskId>, ids2: seq<TaskId>)

  method ReverseRequest(ids: seq<TaskId>) returns (r: ReverseOutcome)
    ensures r.EmptyRequest? <==> ids == []
    ensures r.NothingToDo? <==> |ids| == 1
    ensures r.Send? ==> |r.ids1| == |r.ids2| && Zip(r.ids1, r.ids2) == ReversePairs(ids)
  {
    if ids == [] {
      return EmptyRequest;
    }
    if |ids| == 1 {
      return NothingToDo;
    }
    var ids1: seq<TaskId>, ids2: seq<TaskId> := [], [];
    var mid := (|ids| + 1) / 2;
    for i := 0 to mid
      invariant |ids1| == |ids2| == if i <= |ids| / 2 then i else |ids| / 2
      invariant forall m :: 0 <= m < |ids1| ==> ids1[m] == ids[m] && ids2[m] == ids[|ids| - 1 - m]
    {
      var j := |ids| - 1 - i;
      if i < j {
        ids1 := ids1 + [ids[i]];
        ids2 := ids2 + [ids[j]];
      }
    }
    if ids1 == [] {
      return NothingToDo;
    }
    return Send(ids1, ids2);
  }

  ghost predicate InPair(p: Pair, x: TaskId) {
    x == p.0 || x == p.1
  }

  /** No id occurs in two pairs, or twice in one. */
  ghost predicate Disjoint(pairs: seq<Pair>) {
    && (forall i :: 0 <= i < |pairs| ==> pairs[i].0 != pairs[i].1)
    && (forall i, j, x :: 0 <= i < j < |pairs| && InPair(pairs[i], x) ==> !InPair(pairs[j], x))
  }

  lemma DisjointTail(pairs: seq<Pair>)
    requires pairs != [] && Disjoint(pairs)
    ensures Disjoint(pairs[1..])
    ensures forall j, x :: 0 <= j < |pairs[1..]| && InPair(pairs[1..][j], x) ==> !InPair(pairs[0], x)
  {
    var tail := pairs[1..];
    forall i | 0 <= i < |tail| ensures tail[i] == pairs[i + 1] {
    }
  }

  lemma {:induction false} PermutedOutside(pairs: seq<Pair>, x: TaskId)
    requires forall i :: 0 <= i < |pairs| ==> !InPair(pairs[i], x)
    ensures Permuted(pairs, x) == x
  {
    if pairs != [] {
      assert !InPair(pairs[0], x);
      assert forall i :: 0 <= i < |pairs[1..]| ==> pairs[1..][i] == pairs[i + 1];
      PermutedOutside(pairs[1..], x);
    }
  }

  /** In a disjoint request the ids of a pair trade places. */
  lemma {:induction false} PermutedInPair(pairs: seq<Pair>, i: nat)
    requires Disjoint(pairs) && i < |pairs|
    ensures Permuted(pairs, pairs[i].0) == pairs[i].1
    ensures Permuted(pairs, pairs[i].1) == pairs[i].0
  {
    var a, b, tail := pairs[0].0, pairs[0].1, pairs[1..];
    DisjointTail(pairs);
    if i == 0 {
      assert InPair(pairs[0], a) && InPair(pairs[0], b);
      PermutedOutside(tail, a);
      PermutedOutside(tail, b);
    } else {
      assert tail[i - 1] == pairs[i];
      assert InPair(tail[i - 1], pairs[i].0) && InPair(tail[i - 1], pairs[i].1);
      PermutedInPair(tail, i - 1);
    }
  }

  lemma PermutedTwice(pairs: seq<Pair>, x: TaskId)
    requires Disjoint(pairs)
    ensures Permuted(pairs, Permuted(pairs, x)) == x
  {
    if i :| 0 <= i < |pairs| && InPair(pairs[i], x) {
      PermutedInPair(pairs, i);
    } else {
      PermutedOutside(pairs, x);
    }
  }

  ghost predicate NoEdgeInsidePairs(tasks: TaskMap, pairs: seq<Pair>)
    requires Known(tasks, pairs)
  {
    forall i :: 0 <= i < |pairs| ==> !DirectEdge(tasks, pairs[i].0, pairs[i].1)
  }

  /** For a disjoint request it is enough to look at the edges before the first swap. */
  lemma {:induction false} DisjointIsEdgeFree(tasks: TaskMap, pairs: seq<Pair>)
    requires KeyedById(tasks) && Agree(tasks) && Acyclic(tasks) && Known(tasks, pairs)
    requires Disjoint(pairs) && NoEdgeInsidePairs(tasks, pairs)
    ensures EdgeFree(tasks, pairs)
    decreases |pairs|
  {
    hide SwapStep, Relabel, KeyedById, Agree, Acyclic;
    if pairs != [] {
      var a, b, tail := pairs[0].0, pairs[0].1, pairs[1..];
      var next := SwapStep(tasks, a, b);
      assert !DirectEdge(tasks, pairs[0].0, pairs[0].1);
      SwapKeepsGraph(tasks, a, b);
      SwapRefines(tasks, a, b);
      DisjointTail(pairs);
      forall i | 0 <= i < |tail|
        ensures tail[i].0 in next && tail[i].1 in next && !DirectEdge(next, tail[i].0, tail[i].1)
      {
        assert tail[i] == pairs[i + 1];
        assert InPair(tail[i], tail[i].0) && InPair(tail[i], tail[i].1);
        RelabelEntry(tasks, a, b, tail[i].0, tail[i].1);
        RelabelEntry(tasks, a, b, tail[i].1, tail[i].0);
      }
      DisjointIsEdgeFree(next, tail);
    }
  }

  // -- the effect of a reversal -----------------------------------------------------------------------------

  /** Distinct existing ids, where the two tasks of a position pair do not depend on each other directly. */
  ghost predicate Reversible(tasks: TaskMap, ids: seq<TaskId>) {
    && NoDuplicates(ids) && (forall id :: id in ids ==> id in tasks)
    && NoEdgeInsidePairs(tasks, ReversePairs(ids))
  }

  lemma ReversePairsAreDisjoint(ids: seq<TaskId>)
    requires NoDuplicates(ids)
    ensures Disjoint(ReversePairs(ids))
  {
    var pairs := ReversePairs(ids);
    forall i, j, x | 0 <= i < j < |pairs| && InPair(pairs[i], x) ensures !InPair(pairs[j], x) {
      assert pairs[i] == (ids[i], ids[|ids| - 1 - i]) && pairs[j] == (ids[j], ids[|ids| - 1 - j]);
    }
  }

  lemma ReversedPosition(ids: seq<TaskId>, i: nat)
    requires NoDuplicates(ids) && i < |ids|
    ensures Permuted(ReversePairs(ids), ids[i]) == ids[|ids| - 1 - i]
  {
    var pairs := ReversePairs(ids);
    ReversePairsAreDisjoint(ids);
    if i < |ids| / 2 {
      PermutedInPair(pairs, i);
    } else if |ids| - 1 - i < |ids| / 2 {
      PermutedInPair(pairs, |ids| - 1 - i);
    } else {
      PermutedOutside(pairs, ids[i]);
    }
  }

  lemma OtherPositionsStay(ids: seq<TaskId>, x: TaskId)
    requires x !in ids
    ensures Permuted(ReversePairs(ids), x) == x
  {
    PermutedOutside(ReversePairs(ids), x);
  }

  /** A reversal puts the task of position i at position n - 1 - i, renamed throughout, and
      leaves every task outside the list under its id. */
  lemma ReverseReverses(tasks: TaskMap, ids: seq<TaskId>)
    requires KeyedById(tasks) && Agree(tasks) && Acyclic(tasks) && Reversible(tasks, ids)
    ensures var pairs := ReversePairs(ids);
      && (forall i :: 0 <= i < |ids| ==>
            Relabelled(pairs, tasks[ids[i]], SwapPairs(tasks, pairs)) &&
            Permuted(pairs, ids[i]) == ids[|ids| - 1 - i])
      && (forall k :: k in tasks && k !in ids ==>
            Relabelled(pairs, tasks[k], SwapPairs(tasks, pairs)) && Permuted(pairs, k) == k)
  {
    var pairs := ReversePairs(ids);
    ReversePairsAreDisjoint(ids);
    DisjointIsEdgeFree(tasks, pairs);
    forall k | k in tasks ensures Relabelled(pairs, tasks[k], SwapPairs(tasks, pairs)) {
      SwitchRefinesRelabelling(tasks, pairs, k);
    }
    forall i | 0 <= i < |ids| ensures Permuted(pairs, ids[i]) == ids[|ids| - 1 - i] {
      ReversedPosition(ids, i);
    }
    forall k | k in tasks && k !in ids ensures Permuted(pairs, k) == k {
      OtherPositionsStay(ids, k);
    }
  }

  /** A swapped pair is as free of edges afterwards as it was before. */
  lemma PairStaysEdgeFree(tasks: TaskMap, pairs: seq<Pair>, after: TaskMap, i: nat)
    requires Known(tasks, pairs) && Known(after, pairs) && Disjoint(pairs) && i < |pairs|
    requires KeyedById(tasks) && !DirectEdge(tasks, pairs[i].0, pairs[i].1)
    requires Relabelled(pairs, tasks[pairs[i].0], after) && Relabelled(pairs, tasks[pairs[i].1], after)
    ensures !DirectEdge(after, pairs[i].0, pairs[i].1)
  {
    PermutedInPair(pairs, i);
    PermutedTwice(pairs, pairs[i].0);
    PermutedTwice(pairs, pairs[i].1);
  }

  lemma SwitchKeepsDisjointEdgeFree(tasks: TaskMap, pairs: seq<Pair>)
    requires KeyedById(tasks) && Agree(tasks) && Acyclic(tasks) && Known(tasks, pairs)
    requires Disjoint(pairs) && NoEdgeInsidePairs(tasks, pairs)
    ensures var once := SwapPairs(tasks, pairs);
      && once.Keys == tasks.Keys && KeyedById(once) && Agree(once) && Acyclic(once) && Known(once, pairs)
      && NoEdgeInsidePairs(once, pairs)
  {
    hide SwapPairs, Agree, Acyclic, EdgeFree, Relabelled;
    var once := SwapPairs(tasks, pairs);
    DisjointIsEdgeFree(tasks, pairs);
    SwapPairsKeepsGraph(tasks, pairs);
    forall i | 0 <= i < |pairs| ensures !DirectEdge(once, pairs[i].0, pairs[i].1) {
      SwitchRefinesRelabelling(tasks, pairs, pairs[i].0);
      SwitchRefinesRelabelling(tasks, pairs, pairs[i].1);
      PairStaysEdgeFree(tasks, pairs, once, i);
    }
  }

  lemma SwitchTwiceRestoresTask(tasks: TaskMap, pairs: seq<Pair>, k: TaskId)
    requires KeyedById(tasks) && Agree(tasks) && Acyclic(tasks) && Known(tasks, pairs)
    requires Disjoint(pairs) && NoEdgeInsidePairs(tasks, pairs) && k in tasks
    ensures var once := SwapPairs(tasks, pairs);
      && KeyedById(once) && Known(once, pairs)
      && k in SwapPairs(once, pairs) && SwapPairs(once, pairs)[k] == tasks[k]
  {
    hide SwapPairs, Agree, Acyclic, EdgeFree, NoEdgeInsidePairs;
    var once := SwapPairs(tasks, pairs);
    SwitchKeepsDisjointEdgeFree(tasks, pairs);
    DisjointIsEdgeFree(tasks, pairs);
    SwitchRefinesRelabelling(tasks, pairs, k);
    DisjointIsEdgeFree(once, pairs);
    SwitchRefinesRelabelling(once, pairs, Permuted(pairs, k));
    RelabelledTwice(pairs, tasks[k], once, SwapPairs(once, pairs));
  }

  /** The state after switching a disjoint request twice is the state before, list for list. */
  lemma SwitchTwiceRestores(tasks: TaskMap, pairs: seq<Pair>)
    requires KeyedById(tasks) && Agree(tasks) && Acyclic(tasks) && Known(tasks, pairs)
    requires Disjoint(pairs) && NoEdgeInsidePairs(tasks, pairs)
    ensures var once := SwapPairs(tasks, pairs);
      && KeyedById(once) && Known(once, pairs)
      && SwapPairs(once, pairs) == tasks
  {
    hide SwapPairs, Agree, Acyclic, EdgeFree, NoEdgeInsidePairs, KeyedById;
    var once := SwapPairs(tasks, pairs);
    SwitchKeepsDisjointEdgeFree(tasks, pairs);
    DisjointIsEdgeFree(once, pairs);
    SwapPairsKeepsGraph(once, pairs);
    var twice := SwapPairs(once, pairs);
    forall k | k in tasks ensures twice[k] == tasks[k] {
      SwitchTwiceRestoresTask(tasks, pairs, k);
    }
  }

  lemma RelabelledTwice(pairs: seq<Pair>, task: Task, once: TaskMap, twice: TaskMap)
    requires Disjoint(pairs) && Relabelled(pairs, task, once) && KeyedById(once)
    requires Relabelled(pairs, once[Permuted(pairs, task.id)], twice)
    ensures task.id in twice && twice[task.id] == task
  {
    PermutedTwice(pairs, task.id);
    var last := twice[task.id];
    forall x ensures x in task.dependencies <==> x in last.dependencies {
      PermutedTwice(pairs, x);
    }
    forall x ensures x in task.dependents <==> x in last.dependents {
      PermutedTwice(pairs, x);
    }
  }

  lemma ReverseTwiceRestores(tasks: TaskMap, ids: seq<TaskId>)
    requires KeyedById(tasks) && Agree(tasks) && Acyclic(tasks) && Reversible(tasks, ids)
    ensures var once := SwapPairs(tasks, ReversePairs(ids));
      && KeyedById(once) && Known(once, ReversePairs(ids))
      && SwapPairs(once, ReversePairs(ids)) == tasks
  {
    ReversePairsAreDisjoint(ids);
    SwitchTwiceRestores(tasks, ReversePairs(ids));
  }

  // -- exactly when a disjoint request is a relabelling -----------------------------------------------------

  ghost predicate DependsOnItself(tasks: TaskMap, x: TaskId) {
    x in tasks && x in tasks[x].dependencies
  }

  /** A swap of two other tasks leaves a self-dependency alone. */
  lemma OtherSwapKeepsLoop(tasks: TaskMap, a: TaskId, b: TaskId, x: TaskId)
    requires KeyedById(tasks) && a in tasks && b in tasks && x != a && x != b && DependsOnItself(tasks, x)
    ensures DependsOnItself(SwapStep(tasks, a, b), x)
  {
  }

  lemma {:induction false} OtherPairsKeepLoop(tasks: TaskMap, pairs: seq<Pair>, x: TaskId)
    requires KeyedById(tasks) && Known(tasks, pairs) && DependsOnItself(tasks, x)
    requires forall i :: 0 <= i < |pairs| ==> !InPair(pairs[i], x)
    ensures DependsOnItself(SwapPairs(tasks, pairs), x)
    decreases |pairs|
  {
    hide SwapStep, KeyedById;
    if pairs != [] {
      var (a, b) := pairs[0];
      assert !InPair(pairs[0], x);
      SwapKeepsKeys(tasks, a, b);
      OtherSwapKeepsLoop(tasks, a, b, x);
      assert forall i :: 0 <= i < |pairs[1..]| ==> pairs[1..][i] == pairs[i + 1];
      OtherPairsKeepLoop(SwapStep(tasks, a, b), pairs[1..], x);
    }
  }

  lemma EdgeSwapLeavesLoop(tasks: TaskMap, a: TaskId, b: TaskId) returns (x: TaskId)
    requires KeyedById(tasks) && Agree(tasks) && Acyclic(tasks) && a in tasks && b in tasks && a != b
    requires DirectEdge(tasks, a, b)
    ensures (x == a || x == b) && DependsOnItself(SwapStep(tasks, a, b), x)
  {
    hide SwapStep, KeyedById, Agree, Acyclic;
    CarriedDependencies(tasks, a, b);
    if b in tasks[a].dependencies {
      NoMutualDependency(tasks, b, a);
      x := b;
    } else {
      x := a;
    }
  }

  /** In a disjoint request an edge inside any pair ends in a task that depends on itself. */
  lemma {:induction false} EdgeInsidePairLeavesLoop(tasks: TaskMap, pairs: seq<Pair>) returns (x: TaskId)
    requires KeyedById(tasks) && Agree(tasks) && Acyclic(tasks) && Known(tasks, pairs) && Disjoint(pairs)
    requires !NoEdgeInsidePairs(tasks, pairs)
    ensures DependsOnItself(SwapPairs(tasks, pairs), x)
    decreases |pairs|
  {
    hide SwapStep, Relabel, KeyedById, Agree, Acyclic;
    var a, b, tail := pairs[0].0, pairs[0].1, pairs[1..];
    var next := SwapStep(tasks, a, b);
    SwapKeepsKeys(tasks, a, b);
    DisjointTail(pairs);
    assert forall j :: 0 <= j < |tail| ==> tail[j] == pairs[j + 1];
    if DirectEdge(tasks, a, b) {
      x := EdgeSwapLeavesLoop(tasks, a, b);
      assert InPair(pairs[0], x);
      OtherPairsKeepLoop(next, tail, x);
    } else {
      var i :| 0 <= i < |pairs| && DirectEdge(tasks, pairs[i].0, pairs[i].1);
      assert tail[i - 1] == pairs[i];
      SwapKeepsGraph(tasks, a, b);
      SwapRefines(tasks, a, b);
      assert InPair(tail[i - 1], pairs[i].0) && InPair(tail[i - 1], pairs[i].1);
      RelabelEntry(tasks, a, b, pairs[i].0, pairs[i].1);
      RelabelEntry(tasks, a, b, pairs[i].1, pairs[i].0);
      assert DirectEdge(next, tail[i - 1].0, tail[i - 1].1);
      x := EdgeInsidePairLeavesLoop(next, tail);
    }
  }

  /** The whole result is the composed renaming of every task. */
  ghost predicate WholeRelabelling(tasks: TaskMap, pairs: seq<Pair>)
    requires KeyedById(tasks) && Known(tasks, pairs)
  {
    forall k :: k in tasks ==> Relabelled(pairs, tasks[k], SwapPairs(tasks, pairs))
  }

  lemma {:induction false} PermutedStaysKnown(tasks: TaskMap, pairs: seq<Pair>, x: TaskId)
    requires Known(tasks, pairs)
    ensures Permuted(pairs, x) in tasks <==> x in tasks
  {
    if pairs != [] {
      assert pairs[0].0 in tasks && pairs[0].1 in tasks;
      assert forall i :: 0 <= i < |pairs[1..]| ==> pairs[1..][i] == pairs[i + 1];
      PermutedStaysKnown(tasks, pairs[1..], SwapId(pairs[0].0, pairs[0].1, x));
    }
  }

  lemma {:induction false} SwapPairsKeysOnly(tasks: TaskMap, pairs: seq<Pair>)
    requires KeyedById(tasks) && Known(tasks, pairs)
    ensures SwapPairs(tasks, pairs).Keys == tasks.Keys
    decreases |pairs|
  {
    hide SwapStep, KeyedById;
    if pairs != [] {
      SwapKeepsKeys(tasks, pairs[0].0, pairs[0].1);
      assert forall i :: 0 <= i < |pairs[1..]| ==> pairs[1..][i] == pairs[i + 1];
      SwapPairsKeysOnly(SwapStep(tasks, pairs[0].0, pairs[0].1), pairs[1..]);
    }
  }

  lemma LoopIsNoRelabelling(tasks: TaskMap, pairs: seq<Pair>, x: TaskId)
    requires KeyedById(tasks) && Acyclic(tasks) && Known(tasks, pairs) && Disjoint(pairs)
    requires DependsOnItself(SwapPairs(tasks, pairs), x)
    ensures !WholeRelabelling(tasks, pairs)
  {
    hide SwapPairs, Acyclic, Disjoint;
    SwapPairsKeysOnly(tasks, pairs);
    PermutedTwice(pairs, x);
    PermutedStaysKnown(tasks, pairs, x);
    var k := Permuted(pairs, x);
    NoSelfDependency(tasks, k);
    LoopComesFromLoop(pairs, tasks[k], SwapPairs(tasks, pairs));
  }

  lemma LoopComesFromLoop(pairs: seq<Pair>, task: Task, after: TaskMap)
    ensures Relabelled(pairs, task, after) && DependsOnItself(after, Permuted(pairs, task.id)) ==>
      task.id in task.dependencies
  {
  }

  /** A disjoint request is the composed relabelling exactly when the graph before it has no direct
      edge inside any pair. */
  lemma DisjointSwitchIff(tasks: TaskMap, pairs: seq<Pair>)
    requires KeyedById(tasks) && Agree(tasks) && Acyclic(tasks) && Known(tasks, pairs) && Disjoint(pairs)
    ensures WholeRelabelling(tasks, pairs) <==> NoEdgeInsidePairs(tasks, pairs)
  {
    hide SwapPairs, Agree, Acyclic, Disjoint, Relabelled, NoEdgeInsidePairs, KeyedById;
    if NoEdgeInsidePairs(tasks, pairs) {
      DisjointIsEdgeFree(tasks, pairs);
      forall k | k in tasks ensures Relabelled(pairs, tasks[k], SwapPairs(tasks, pairs)) {
        SwitchRefinesRelabelling(tasks, pairs, k);
      }
    } else {
      var x := EdgeInsidePairLeavesLoop(tasks, pairs);
      LoopIsNoRelabelling(tasks, pairs, x);
    }
  }

  /** So a reversal of distinct existing ids reverses exactly when it does not pair a task with a
      direct dependency of it. */
  lemma ReverseReversesIff(tasks: TaskMap, ids: seq<TaskId>)
    requires KeyedById(tasks) && Agree(tasks) && Acyclic(tasks)
    requires NoDuplicates(ids) && forall id :: id in ids ==> id in tasks
    ensures Known(tasks, ReversePairs(ids))
    ensures WholeRelabelling(tasks, ReversePairs(ids)) <==> Reversible(tasks, ids)
  {
    ReversePairsAreDisjoint(ids);
    DisjointSwitchIff(tasks, ReversePairs(ids));
  }

  // -- overlapping pairs ------------------------------------------------------------------------------------

  /** A swap record by record, whatever edges there are. */
  lemma SwapStepAt(tasks: TaskMap, a: TaskId, b: TaskId, k: TaskId)
    requires KeyedById(tasks) && a in tasks && b in tasks && a != b && k in tasks
    ensures k in SwapStep(tasks, a, b) && SwapId(a, b, k) in tasks
    ensures var own, after := tasks[SwapId(a, b, k)], SwapStep(tasks, a, b)[k];
      && after == own.(id := k, dependencies := after.dependencies, dependents := after.dependents)
      && after.dependencies == (if k in SymmetricDifference(tasks[a].dependents, tasks[b].dependents)
                                then SwapSet(a, b, own.dependencies) else own.dependencies)
      && after.dependents == (if k in SymmetricDifference(tasks[a].dependencies, tasks[b].dependencies)
                              then SwapSet(a, b, own.dependents) else own.dependents)
  {
  }

  /** Three queued tasks that differ only in their lists. */
  function Three(details: Details, d0: set<TaskId>, d1: set<TaskId>, d2: set<TaskId>,
                 r0: set<TaskId>, r1: set<TaskId>, r2: set<TaskId>): TaskMap
  {
    map[0 := Task(0, details, DEFAULT_GROUP, d0, r0, 0, Queued),
        1 := Task(1, details, DEFAULT_GROUP, d1, r1, 0, Queued),
        2 := Task(2, details, DEFAULT_GROUP, d2, r2, 0, Queued)]
  }

  /** A map of three such records is told by its lists. */
  lemma IsThree(details: Details, tasks: TaskMap)
    requires tasks.Keys == {0, 1, 2}
    requires forall k :: k in tasks ==>
      tasks[k] == Task(k, details, DEFAULT_GROUP, tasks[k].dependencies, tasks[k].dependents, 0, Queued)
    ensures tasks == Three(details, tasks[0].dependencies, tasks[1].dependencies, tasks[2].dependencies,
                           tasks[0].dependents, tasks[1].dependents, tasks[2].dependents)
  {
  }

  lemma SwapThree(details: Details, tasks: TaskMap, b: TaskId)
    requires tasks.Keys == {0, 1, 2} && (b == 1 || b == 2)
    requires forall k :: k in tasks ==>
      tasks[k] == Task(k, details, DEFAULT_GROUP, tasks[k].dependencies, tasks[k].dependents, 0, Queued)
    ensures var after := SwapStep(tasks, 0, b);
      && after.Keys == {0, 1, 2} && KeyedById(tasks) && KeyedById(after)
      && (forall k :: k in after ==>
            && after[k] == Task(k, details, DEFAULT_GROUP, after[k].dependencies, after[k].dependents, 0, Queued)
            && after[k].dependencies == (if k in SymmetricDifference(tasks[0].dependents, tasks[b].dependents)
                                         then SwapSet(0, b, tasks[SwapId(0, b, k)].dependencies)
                                         else tasks[SwapId(0, b, k)].dependencies)
            && after[k].dependents == (if k in SymmetricDifference(tasks[0].dependencies, tasks[b].dependencies)
                                       then SwapSet(0, b, tasks[SwapId(0, b, k)].dependents)
                                       else tasks[SwapId(0, b, k)].dependents))
  {
    hide SwapStep, SwapSet, SymmetricDifference;
    assert KeyedById(tasks);
    SwapKeepsKeys(tasks, 0, b);
    forall k | k in tasks {
      SwapStepAt(tasks, 0, b, k);
    }
  }

  lemma FirstSwap(details: Details)
    ensures SwapStep(Three(details, {}, {0}, {0}, {1, 2}, {}, {}), 0, 1) == Three(details, {0}, {}, {1}, {}, {1, 2}, {})
  {
    hide SwapStep, KeyedById;
    var before := Three(details, {}, {0}, {0}, {1, 2}, {}, {});
    var after := SwapStep(before, 0, 1);
    SwapThree(details, before, 1);
    assert after[0].dependencies == {0} && after[0].dependents == {};
    assert after[1].dependencies == {} && after[1].dependents == {1, 2};
    assert after[2].dependencies == {1} && after[2].dependents == {};
    IsThree(details, after);
  }

  lemma SecondSwap(details: Details)
    ensures SwapStep(Three(details, {0}, {}, {1}, {}, {1, 2}, {}), 0, 2) == Three(details, {1}, {}, {0}, {}, {0, 1}, {})
  {
    hide SwapStep, KeyedById;
    var before := Three(details, {0}, {}, {1}, {}, {1, 2}, {});
    var after := SwapStep(before, 0, 2);
    SwapThree(details, before, 2);
    assert after[0].dependencies == {1} && after[0].dependents == {};
    assert after[1].dependencies == {} && after[1].dependents == {0, 1};
    assert after[2].dependencies == {0} && after[2].dependents == {};
    IsThree(details, after);
  }

  lemma ThirdSwap(details: Details)
    ensures SwapStep(Three(details, {1}, {}, {0}, {}, {0, 1}, {}), 0, 1) == Three(details, {}, {0}, {0}, {0, 1}, {}, {})
  {
    hide SwapStep, KeyedById;
    var before := Three(details, {1}, {}, {0}, {}, {0, 1}, {});
    var after := SwapStep(before, 0, 1);
    SwapThree(details, before, 1);
    assert after[0].dependencies == {} && after[0].dependents == {0, 1};
    assert after[1].dependencies == {0} && after[1].dependents == {};
    assert after[2].dependencies == {0} && after[2].dependents == {};
    IsThree(details, after);
  }

  lemma FourthSwap(details: Details)
    ensures SwapStep(Three(details, {}, {0}, {0}, {0, 1}, {}, {}), 0, 2) == Three(details, {2}, {2}, {}, {}, {}, {0, 1})
  {
    hide SwapStep, KeyedById;
    var before := Three(details, {}, {0}, {0}, {0, 1}, {}, {});
    var after := SwapStep(before, 0, 2);
    SwapThree(details, before, 2);
    assert after[0].dependencies == {2} && after[0].dependents == {};
    assert after[1].dependencies == {2} && after[1].dependents == {};
    assert after[2].dependencies == {} && after[2].dependents == {0, 1};
    IsThree(details, after);
  }

  lemma StarIsSound(details: Details)
    ensures var tasks := Three(details, {}, {0}, {0}, {1, 2}, {}, {});
      KeyedById(tasks) && ExactIndex(tasks) && Acyclic(tasks)
  {
    hide Three;
    var tasks := Three(details, {}, {0}, {0}, {1, 2}, {}, {});
    StarRecords(details);
    assert Ranked(tasks, map k | k in tasks :: if k == 0 then 0 else 1, 1);
  }

  lemma StarRecords(details: Details)
    ensures var tasks := Three(details, {}, {0}, {0}, {1, 2}, {}, {});
      && tasks.Keys == {0, 1, 2}
      && (forall k :: k in tasks ==> tasks[k].id == k)
      && (forall a, k: TaskId :: k in tasks ==> (a in tasks[k].dependencies <==> a == 0 && k != 0))
      && (forall a, k: TaskId :: k in tasks ==> (a in tasks[k].dependents <==> k == 0 && (a == 1 || a == 2)))
  {
  }

  lemma FirstPairHasEdge(details: Details)
    ensures var tasks := Three(details, {}, {0}, {0}, {1, 2}, {}, {});
      var pairs := [(0, 1), (0, 2), (0, 1), (0, 2)];
      KeyedById(tasks) && Known(tasks, pairs) && !EdgeFree(tasks, pairs)
  {
    hide SwapStep;
    var pairs: seq<Pair> := [(0, 1), (0, 2), (0, 1), (0, 2)];
    assert pairs[0] == (0, 1);
    assert DirectEdge(Three(details, {}, {0}, {0}, {1, 2}, {}, {}), 0, 1);
  }

  lemma StarIsRenamed(details: Details, k: TaskId)
    requires k in {0, 1, 2}
    ensures var pairs := [(0, 1), (0, 2), (0, 1), (0, 2)];
      Relabelled(pairs, Three(details, {}, {0}, {0}, {1, 2}, {}, {})[k], Three(details, {2}, {2}, {}, {}, {}, {0, 1}))
  {
    hide Permuted;
    var pairs: seq<Pair> := [(0, 1), (0, 2), (0, 1), (0, 2)];
    forall x: TaskId ensures Permuted(pairs, x) == if x == 0 then 2 else if x == 1 then 0 else if x == 2 then 1 else x {
      FourTranspositions(x);
    }
  }

  /** With overlapping pairs a later swap can undo an earlier mistake: here the first pair is joined by
      an edge, yet the whole request is the composed renaming. */
  lemma LaterSwapUndoes(details: Details)
    ensures var tasks := Three(details, {}, {0}, {0}, {1, 2}, {}, {});
      var pairs := [(0, 1), (0, 2), (0, 1), (0, 2)];
      && KeyedById(tasks) && ExactIndex(tasks) && Acyclic(tasks) && Known(tasks, pairs)
      && !EdgeFree(tasks, pairs) && WholeRelabelling(tasks, pairs)
  {
    hide SwapPairs, EdgeFree, Relabelled, KeyedById, ExactIndex, Acyclic, Known;
    StarIsSound(details);
    FirstPairHasEdge(details);
    FourSwaps(details);
    forall k | k in Three(details, {}, {0}, {0}, {1, 2}, {}, {}) {
      StarIsRenamed(details, k);
    }
  }

  lemma FourTranspositions(x: TaskId)
    ensures Permuted([(0, 1), (0, 2), (0, 1), (0, 2)], x) ==
            if x == 0 then 2 else if x == 1 then 0 else if x == 2 then 1 else x
  {
    var pairs: seq<Pair> := [(0, 1), (0, 2), (0, 1), (0, 2)];
    var x1 := SwapId(0, 1, x);
    var x2 := SwapId(0, 2, x1);
    var x3 := SwapId(0, 1, x2);
    assert pairs[1..][1..][1..][1..] == [];
    assert Permuted(pairs[1..][1..][1..], x3) == SwapId(0, 2, x3);
    assert Permuted(pairs[1..][1..], x2) == Permuted(pairs[1..][1..][1..], x3);
    assert Permuted(pairs[1..], x1) == Permuted(pairs[1..][1..], x2);
  }

  lemma FourSwaps(details: Details)
    ensures var tasks := Three(details, {}, {0}, {0}, {1, 2}, {}, {});
      var pairs := [(0, 1), (0, 2), (0, 1), (0, 2)];
      && KeyedById(tasks) && Known(tasks, pairs)
      && SwapPairs(tasks, pairs) == Three(details, {2}, {2}, {}, {}, {}, {0, 1})
  {
    hide SwapStep;
    FirstSwap(details);
    SecondSwap(details);
    ThirdSwap(details);
    FourthSwap(details);
    var pairs: seq<Pair> := [(0, 1), (0, 2), (0, 1), (0, 2)];
    assert pairs[1..] == [(0, 2), (0, 1), (0, 2)];
    assert pairs[1..][1..] == [(0, 1), (0, 2)];
    assert pairs[1..][1..][1..] == [(0, 2)];
    assert pairs[1..][1..][1..][1..] == [];
    var s1 := Three(details, {0}, {}, {1}, {}, {1, 2}, {});
    var s2 := Three(details, {1}, {}, {0}, {}, {0, 1}, {});
    var s3 := Three(details, {}, {0}, {0}, {0, 1}, {}, {});
    var s4 := Three(details, {2}, {2}, {}, {}, {}, {0, 1});
    assert SwapPairs(s4, []) == s4;
    assert SwapPairs(s3, [(0, 2)]) == s4;
    assert SwapPairs(s2, [(0, 1), (0, 2)]) == s4;
    assert SwapPairs(s1, [(0, 2), (0, 1), (0, 2)]) == s4;
  }
}
