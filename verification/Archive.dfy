/** The client's choice of tasks to archive, and the daemon's reaction to it. */
module Archive {
  import opened Lists
  import opened Tasks
  import opened DependencyGraph
  import opened ReverseIndex
  import opened Removal
  import opened RemovalCheck
  import opened AddTask

  const ARCHIVE_GROUP := "archive"

  /** Some unfinished task outside the targets depends on the task; found by walking the
      forward lists of all tasks. */
  predicate HasBlockingDependant(tasks: TaskMap, id: TaskId, targets: set<TaskId>) {
    exists k :: k in tasks && id in tasks[k].dependencies && !IsDone(tasks[k]) && tasks[k].id !in targets
  }

  /** That is the first test of the daemon, on a rebuilt index; on the index at hand if it agrees. */
  lemma BlockingIsActiveDependant(tasks: TaskMap, id: TaskId, targets: set<TaskId>)
    requires KeyedById(tasks) && id in tasks
    ensures HasBlockingDependant(tasks, id, targets) <==> !(ActiveDependants(BuildIndex(tasks), id) <= targets)
    ensures Agree(tasks) ==> ActiveDependants(BuildIndex(tasks), id) == ActiveDependants(tasks, id)
  {
    if HasBlockingDependant(tasks, id, targets) {
      var k :| k in tasks && id in tasks[k].dependencies && !IsDone(tasks[k]) && tasks[k].id !in targets;
      assert k in ActiveDependants(BuildIndex(tasks), id);
    }
    if !(ActiveDependants(BuildIndex(tasks), id) <= targets) {
      var d :| d in ActiveDependants(BuildIndex(tasks), id) && d !in targets;
      assert id in tasks[d].dependencies;
    }
  }

  /** What the client archives: the largest part of the request that no unfinished task outside of
      it depends on, going by the forward lists. */
  ghost function Archivable(tasks: TaskMap, ids: seq<TaskId>): set<TaskId> {
    GreatestRemovable(BuildIndex(tasks), Elems(RemovalCandidates(tasks, ids)))
  }

  /** The fixpoint loop: throw out everything blocked by what is left, until nothing is. */
  method ArchivableTasks(tasks: TaskMap, ids: seq<TaskId>) returns (archivable: set<TaskId>, blocked: set<TaskId>)
    requires KeyedById(tasks)
    ensures archivable == Archivable(tasks, ids)
    ensures blocked == (set id | id in ids && id in tasks) - archivable
  {
    hide KeyedById, HasBlockingDependant, WaitsFor, BuildIndex;
    var candidates := set id | id in ids && id in tasks;
    ghost var requested := Elems(RemovalCandidates(tasks, ids));
    archivable := set id | id in candidates && IsRemovableStatus(tasks[id]);
    blocked := set id | id in candidates && !IsRemovableStatus(tasks[id]);
    assert archivable == requested;
    while true
      invariant Archivable(tasks, ids) <= archivable <= requested
      invariant blocked == candidates - archivable
      decreases archivable
    {
      var toRemove := set id | id in archivable && HasBlockingDependant(tasks, id, archivable);
      KeptThisRound(tasks, requested, archivable);
      if toRemove == {} {
        assert forall id :: id in archivable ==> id !in toRemove;
        StableIsClosed(tasks, archivable);
        GreatestContainsClosed(BuildIndex(tasks), requested, archivable);
        break;
      }
      archivable := archivable - toRemove;
      blocked := blocked + toRemove;
    }
  }

  lemma KeptThisRound(tasks: TaskMap, requested: set<TaskId>, current: set<TaskId>)
    requires KeyedById(tasks)
    requires GreatestRemovable(BuildIndex(tasks), requested) <= current <= requested <= tasks.Keys
    ensures forall id :: id in GreatestRemovable(BuildIndex(tasks), requested) ==>
      !HasBlockingDependant(tasks, id, current)
  {
    hide GreatestRemovable, BuildIndex, KeyedById;
    GreatestIsClosed(BuildIndex(tasks), requested);
    forall id | id in GreatestRemovable(BuildIndex(tasks), requested)
      ensures !HasBlockingDependant(tasks, id, current)
    {
      BlockingIsActiveDependant(tasks, id, current);
    }
  }

  lemma StableIsClosed(tasks: TaskMap, current: set<TaskId>)
    requires KeyedById(tasks) && current <= tasks.Keys
    requires forall id :: id in current ==> !HasBlockingDependant(tasks, id, current)
    ensures Closed(BuildIndex(tasks), current)
  {
    forall t | t in current ensures ActiveDependants(BuildIndex(tasks), t) <= current {
      BlockingIsActiveDependant(tasks, t, current);
    }
  }

  /** With an agreeing index that is the largest part the daemon could accept. */
  lemma ArchivableIsRemovable(tasks: TaskMap, ids: seq<TaskId>)
    requires Agree(tasks)
    ensures Archivable(tasks, ids) == GreatestRemovable(tasks, Elems(RemovalCandidates(tasks, ids)))
  {
    var requested := Elems(RemovalCandidates(tasks, ids));
    hide WaitsFor, RemovalCandidates;
    assert forall t :: ActiveDependants(BuildIndex(tasks), t) == ActiveDependants(tasks, t);
    GreatestIsClosed(tasks, requested);
    GreatestIsClosed(BuildIndex(tasks), requested);
    GreatestContainsClosed(tasks, requested, GreatestRemovable(BuildIndex(tasks), requested));
    GreatestContainsClosed(BuildIndex(tasks), requested, GreatestRemovable(tasks, requested));
  }

  // -- archiving a snapshot: copies first, then the removal request -----------------------------------------

  function CopyRequest(task: Task): AddRequest {
    AddRequest(task.details, ARCHIVE_GROUP, [], task.priority, true, None)
  }

  /** The state after the stashed copies of `sources` have been added one by one. */
  function WithCopies(tasks: TaskMap, snapshot: TaskMap, sources: seq<TaskId>): TaskMap
    requires forall id :: id in sources ==> id in snapshot
    decreases |sources|
  {
    if sources == [] then tasks
    else WithCopies(Added(tasks, CopyRequest(snapshot[sources[0]])), snapshot, sources[1..])
  }

  /** `after` holds the tasks of `before` unchanged, and only newcomers that no one waits for
      and that no list mentions. */
  ghost predicate GrownBy(before: TaskMap, after: TaskMap) {
    && before.Keys <= after.Keys
    && (forall k :: k in before ==> after[k] == before[k])
    && (forall k :: k in after && k !in before ==> after[k].dependencies == {} && after[k].dependents == {})
  }

  lemma CopyGrows(tasks: TaskMap, task: Task)
    ensures GrownBy(tasks, Added(tasks, CopyRequest(task)))
  {
    AddedRecords(tasks, CopyRequest(task));
    forall k | k in tasks ensures Added(tasks, CopyRequest(task))[k] == tasks[k] {
      assert tasks[k].dependents + {} == tasks[k].dependents;
    }
  }

  lemma {:induction false} CopiesGrow(tasks: TaskMap, snapshot: TaskMap, sources: seq<TaskId>)
    requires forall id :: id in sources ==> id in snapshot
    ensures GrownBy(tasks, WithCopies(tasks, snapshot, sources))
    decreases |sources|
  {
    if sources != [] {
      var next := Added(tasks, CopyRequest(snapshot[sources[0]]));
      CopyGrows(tasks, snapshot[sources[0]]);
      CopiesGrow(next, snapshot, sources[1..]);
      var last := WithCopies(tasks, snapshot, sources);
      forall k | k in last && k !in tasks ensures last[k].dependencies == {} && last[k].dependents == {} {
        if k in next { assert last[k] == next[k]; }
      }
    }
  }

  ghost predicate IsCopy(copy: Task, id: TaskId, source: Task) {
    && copy.id == id && copy.details == source.details && copy.priority == source.priority
    && copy.group == "archive" && copy.status == Stashed(None)
    && copy.dependencies == {} && copy.dependents == {}
  }

  /** The copies get consecutive ids; each has command, path, label and priority of its source, sits stashed
      in the archive group, and has no edges. */
  lemma {:induction false} CopiesCarry(tasks: TaskMap, snapshot: TaskMap, sources: seq<TaskId>, i: nat)
    requires (forall id :: id in sources ==> id in snapshot) && i < |sources|
    ensures var after, id := WithCopies(tasks, snapshot, sources), NextId(tasks) + i;
      id in after && id !in tasks && IsCopy(after[id], id, snapshot[sources[i]])
    decreases |sources|
  {
    hide Added, IsCopy;
    var request := CopyRequest(snapshot[sources[0]]);
    var next := Added(tasks, request);
    FirstCopy(tasks, snapshot[sources[0]]);
    CopiesGrow(next, snapshot, sources[1..]);
    if i > 0 {
      CopiesCarry(next, snapshot, sources[1..], i - 1);
      assert sources[1..][i - 1] == sources[i];
    }
  }

  lemma FirstCopy(tasks: TaskMap, source: Task)
    ensures var id, next := NextId(tasks), Added(tasks, CopyRequest(source));
      && next.Keys == tasks.Keys + {id} && IsCopy(next[id], id, source)
      && NextId(next) == id + 1
  {
    AddedRecords(tasks, CopyRequest(source));
    hide Added;
    MaxIs(Added(tasks, CopyRequest(source)).Keys, NextId(tasks));
  }

  lemma MaxIs(s: set<TaskId>, m: TaskId)
    requires IsMax(s, m)
    ensures s != {} && SetMax(s) == m
  {
  }

  /** Nothing but the copies is added. */
  lemma {:induction false} CopiesCount(tasks: TaskMap, snapshot: TaskMap, sources: seq<TaskId>)
    requires forall id :: id in sources ==> id in snapshot
    ensures |WithCopies(tasks, snapshot, sources).Keys| == |tasks.Keys| + |sources|
    decreases |sources|
  {
    hide Added;
    if sources != [] {
      FirstCopy(tasks, snapshot[sources[0]]);
      CopiesCount(Added(tasks, CopyRequest(snapshot[sources[0]])), snapshot, sources[1..]);
    }
  }

  /** No source lists the id of a copy as a dependant; only leftovers of a reset could. */
  ghost predicate FreshCopies(tasks: TaskMap, after: TaskMap, sources: seq<TaskId>) {
    forall k, c :: k in sources && k in tasks && c in after && c !in tasks ==> c !in tasks[k].dependents
  }

  lemma ExactIndexFreesCopies(tasks: TaskMap, after: TaskMap, sources: seq<TaskId>)
    requires NoStaleDependents(tasks)
    ensures FreshCopies(tasks, after, sources)
  {
  }

  /** All sources pass the status filter of the daemon again. */
  lemma SourcesAreCandidates(tasks: TaskMap, ids: seq<TaskId>, sources: seq<TaskId>)
    requires Elems(sources) == Archivable(tasks, ids)
    requires forall id :: id in sources ==> id in tasks
    ensures RemovalCandidates(WithCopies(tasks, tasks, sources), sources) == sources
  {
    var after := WithCopies(tasks, tasks, sources);
    CopiesGrow(tasks, tasks, sources);
    forall id | id in sources ensures id in after && IsRemovableStatus(after[id]) {
      assert id in Elems(sources);
      assert id in RemovalCandidates(tasks, ids);
    }
    MatchingAll(after, IsRemovableStatus, sources);
  }

  lemma {:induction false} CopiesStash(tasks: TaskMap, snapshot: TaskMap, sources: seq<TaskId>, c: TaskId)
    requires forall id :: id in sources ==> id in snapshot
    requires c in WithCopies(tasks, snapshot, sources) && c !in tasks
    ensures WithCopies(tasks, snapshot, sources)[c].status == Stashed(None)
    decreases |sources|
  {
    if sources != [] {
      var next := Added(tasks, CopyRequest(snapshot[sources[0]]));
      AddedRecords(tasks, CopyRequest(snapshot[sources[0]]));
      CopiesGrow(next, snapshot, sources[1..]);
      if c !in next { CopiesStash(next, snapshot, sources[1..], c); }
    }
  }

  lemma ListedCopyIsActive(tasks: TaskMap, sources: seq<TaskId>, k: TaskId, c: TaskId)
    requires forall id :: id in sources ==> id in tasks
    requires k in tasks && c in WithCopies(tasks, tasks, sources) && c !in tasks
    ensures c in tasks[k].dependents ==> c in ActiveDependants(WithCopies(tasks, tasks, sources), k)
  {
    CopiesGrow(tasks, tasks, sources);
    CopiesStash(tasks, tasks, sources, c);
  }

  /** A copy is unfinished, so the sources stay closed exactly when they were and name no copy. */
  lemma SourcesStayClosedIff(tasks: TaskMap, sources: seq<TaskId>)
    requires forall id :: id in sources ==> id in tasks
    ensures var after := WithCopies(tasks, tasks, sources);
      Closed(after, Elems(sources)) <==> Closed(tasks, Elems(sources)) && FreshCopies(tasks, after, sources)
  {
    var after := WithCopies(tasks, tasks, sources);
    CopiesGrow(tasks, tasks, sources);
    hide WithCopies;
    if Closed(after, Elems(sources)) {
      forall t, d | t in Elems(sources) && d in ActiveDependants(tasks, t) ensures d in Elems(sources) {
        assert d in ActiveDependants(after, t);
      }
      forall k, c | k in sources && k in tasks && c in after && c !in tasks ensures c !in tasks[k].dependents {
        ListedCopyIsActive(tasks, sources, k, c);
        assert k in Elems(sources);
        assert c in ActiveDependants(after, k) ==> c in Elems(sources);
      }
    }
  }

  lemma DependantsStay(tasks: TaskMap, sources: seq<TaskId>, t: TaskId)
    requires forall id :: id in sources ==> id in tasks
    requires FreshCopies(tasks, WithCopies(tasks, tasks, sources), sources) && t in sources
    ensures ActiveDependants(WithCopies(tasks, tasks, sources), t) == ActiveDependants(tasks, t)
  {
    CopiesGrow(tasks, tasks, sources);
  }

  /** A circle does not see the tasks outside of what is to be deleted. */
  lemma CircleCarries(tasks: TaskMap, after: TaskMap, toDelete: set<TaskId>, p: seq<TaskId>)
    requires forall t :: t in toDelete ==> t in after && ActiveDependants(after, t) == ActiveDependants(tasks, t)
    requires Chain(RecursionGraph(tasks, toDelete), p) && |p| >= 2 && p[0] == p[|p| - 1]
    ensures Chain(RecursionGraph(after, toDelete), p) && p[0] in toDelete
  {
    CircleStaysInside(tasks, toDelete, p);
    assert forall i :: 0 <= i < |p| ==> p[i] in p;
  }

  lemma SameCircles(tasks: TaskMap, sources: seq<TaskId>)
    requires forall id :: id in sources ==> id in tasks
    requires FreshCopies(tasks, WithCopies(tasks, tasks, sources), sources)
    ensures Circular(RecursionGraph(WithCopies(tasks, tasks, sources), Elems(sources))) <==>
            Circular(RecursionGraph(tasks, Elems(sources)))
  {
    var after, toDelete := WithCopies(tasks, tasks, sources), Elems(sources);
    CopiesGrow(tasks, tasks, sources);
    forall t | t in toDelete ensures ActiveDependants(after, t) == ActiveDependants(tasks, t) {
      DependantsStay(tasks, sources, t);
    }
    hide WithCopies, ActiveDependants, RecursionGraph, Chain;
    if p :| Chain(RecursionGraph(after, toDelete), p) && |p| >= 2 && p[0] == p[|p| - 1] {
      CircleCarries(after, tasks, toDelete, p);
    }
    if p :| Chain(RecursionGraph(tasks, toDelete), p) && |p| >= 2 && p[0] == p[|p| - 1] {
      CircleCarries(tasks, after, toDelete, p);
    }
  }

  /** The daemon answers the removal request of the client, and accepts every archived task, exactly
      when no source lists a copy, nothing but sources waits for a source going by the daemon's
      index, and no circle of unfinished dependants runs among the sources. */
  lemma ArchivedTasksAreRemovableIff(tasks: TaskMap, ids: seq<TaskId>, sources: seq<TaskId>)
    requires Elems(sources) == Archivable(tasks, ids)
    requires forall id :: id in sources ==> id in tasks
    ensures var after := WithCopies(tasks, tasks, sources);
      (exists fuel :: AcceptedWithin(after, sources, fuel) == Some(sources)) <==>
        && FreshCopies(tasks, after, sources)
        && Closed(tasks, Elems(sources))
        && !Circular(RecursionGraph(tasks, Elems(sources)))
    ensures Agree(tasks) ==> Closed(tasks, Elems(sources))
  {
    hide WithCopies, FreshCopies, Closed, Circular, RecursionGraph, Agree, Archivable;
    var after := WithCopies(tasks, tasks, sources);
    SourcesAreCandidates(tasks, ids, sources);
    AllAcceptedIff(after, sources);
    SourcesStayClosedIff(tasks, sources);
    if FreshCopies(tasks, after, sources) {
      SameCircles(tasks, sources);
    }
    if exists fuel :: AcceptedWithin(after, sources, fuel) == Some(sources) {
      var fuel :| AcceptedWithin(after, sources, fuel) == Some(sources);
      assert FilterRequest(after, sources, sources, fuel) == Some(sources);
    }
    if fuel :| FilterRequest(after, sources, sources, fuel) == Some(sources) {
      assert AcceptedWithin(after, sources, fuel) == Some(sources);
    }
    if Agree(tasks) {
      ArchivableIsRemovable(tasks, ids);
      GreatestIsClosed(tasks, Elems(RemovalCandidates(tasks, ids)));
    }
  }

  /** In a sound graph the copies alone decide. */
  lemma ArchivedTasksAreRemovable(tasks: TaskMap, ids: seq<TaskId>, sources: seq<TaskId>)
    requires Agree(tasks) && Acyclic(tasks)
    requires Elems(sources) == Archivable(tasks, ids)
    requires forall id :: id in sources ==> id in tasks
    ensures (exists fuel :: AcceptedWithin(WithCopies(tasks, tasks, sources), sources, fuel) == Some(sources)) <==>
            FreshCopies(tasks, WithCopies(tasks, tasks, sources), sources)
  {
    hide AcceptedWithin, WithCopies, FreshCopies, RecursionGraph, Agree, Acyclic, Archivable, Circular, Closed;
    ArchivedTasksAreRemovableIff(tasks, ids, sources);
    SoundGraphHasNoCircle(tasks, Elems(sources));
    AcyclicIffNotCircular(RecursionGraph(tasks, Elems(sources)));
  }

  ghost predicate WaitForEachOther(tasks: TaskMap, a: TaskId, b: TaskId) {
    && a != b && a in tasks && tasks[a].status.Queued? && tasks[a].dependencies == tasks[a].dependents == {b}
    && b in tasks && tasks[b].status.Queued? && tasks[b].dependencies == tasks[b].dependents == {a}
  }

  /** Two tasks that wait for each other can be archived from an exact index, and the request that
      is to remove them afterwards is never answered. */
  lemma MutualWaitHangsArchive(tasks: TaskMap, a: TaskId, b: TaskId, fuel: nat)
    requires ExactIndex(tasks) && WaitForEachOther(tasks, a, b)
    ensures Archivable(tasks, [a, b]) == {a, b} && FreshCopies(tasks, WithCopies(tasks, tasks, [a, b]), [a, b])
    ensures AcceptedForRemoval(WithCopies(tasks, tasks, [a, b]), [a, b]) == [a, b]
    ensures AcceptedWithin(WithCopies(tasks, tasks, [a, b]), [a, b], fuel) == None
  {
    var sources, both := [a, b], {a, b};
    var after := WithCopies(tasks, tasks, sources);
    assert Elems(sources) == both;
    MatchingAll(tasks, IsRemovableStatus, sources);
    ArchivableIsRemovable(tasks, sources);
    ExactIndexFreesCopies(tasks, after, sources);
    hide WithCopies, IsTaskRemovable, FilterRequest, GreatestRemovable, ExactIndex, Archivable;
    OnlyEachOther(tasks, a, b);
    SourcesAreCandidates(tasks, sources, sources);
    DependantsStay(tasks, sources, a);
    DependantsStay(tasks, sources, b);
    PairIsGreatest(after, a, b);
    KeepAllOf(sources, GreatestRemovable(after, both));
    MutualWaitNeverEnds(after, a, b, both, fuel);
    NeverGetsPastFirst(after, sources, fuel);
  }

  lemma OnlyEachOther(tasks: TaskMap, a: TaskId, b: TaskId)
    requires WaitForEachOther(tasks, a, b)
    ensures ActiveDependants(tasks, a) == {b} && ActiveDependants(tasks, b) == {a}
    ensures GreatestRemovable(tasks, {a, b}) == {a, b}
  {
    PairIsGreatest(tasks, a, b);
  }

  lemma PairIsGreatest(tasks: TaskMap, a: TaskId, b: TaskId)
    requires ActiveDependants(tasks, a) == {b} && ActiveDependants(tasks, b) == {a}
    ensures GreatestRemovable(tasks, {a, b}) == {a, b}
  {
    hide WaitsFor;
    GreatestContainsClosed(tasks, {a, b}, {a, b});
  }
}
