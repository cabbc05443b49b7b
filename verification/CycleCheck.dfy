/** The depth-first search that refuses edits which would close a dependency cycle. */
module CycleCheck {
  import opened Lists
  import opened Tasks
  import opened DependencyGraph

  /** `a` depends on `b`, directly or through other tasks. */
  ghost predicate Leads(tasks: TaskMap, a: TaskId, b: TaskId) {
    exists p :: ChainBetween(tasks, p, a, b) && |p| >= 2
  }

  /** All ids a search can meet. */
  ghost function Universe(tasks: TaskMap, starts: set<TaskId>): set<TaskId> {
    starts + tasks.Keys + set k, d | k in tasks && d in tasks[k].dependencies :: d
  }

  /** The visited tasks outside `pending` have been explored: their dependencies are visited
      too, and none of them is the target. */
  ghost predicate Explored(tasks: TaskMap, pending: set<TaskId>, visited: set<TaskId>, target: TaskId) {
    forall x, d {:trigger x in visited, d in tasks[x].dependencies} ::
      x in visited && x !in pending && x in tasks && d in tasks[x].dependencies ==>
      d in visited && d != target
  }

  /** The recursive search with its shared visited set and path, on any graph at all. */
  method Dfs(tasks: TaskMap, current: TaskId, target: TaskId, visited: set<TaskId>, path: seq<TaskId>,
             ghost universe: set<TaskId>)
    returns (found: bool, visited': set<TaskId>, path': seq<TaskId>)
    requires current in universe && visited <= universe
    requires forall x, d :: x in tasks && d in tasks[x].dependencies ==> d in universe
    ensures visited <= visited' <= universe
    ensures !found ==> path' == path && current in visited' && (current == target ==> path == [])
    ensures !found ==> Explored(tasks, visited, visited', target)
    ensures found ==> path <= path' && path' != []
    ensures found ==> ChainBetween(tasks, path'[|path|..] + [target], current, target)
    decreases universe - visited
  {
    if current == target && path != [] {
      assert path[|path|..] + [target] == [target];
      return true, visited, path;
    }
    if current in visited {
      return false, visited, path;
    }
    visited', path' := visited + {current}, path + [current];
    if current in tasks {
      var remaining := tasks[current].dependencies;
      ghost var done: set<TaskId> := {};
      while remaining != {}
        invariant done + remaining == tasks[current].dependencies
        invariant visited + {current} <= visited' <= universe
        invariant path' == path + [current]
        invariant forall d :: d in done ==> d in visited' && d != target
        invariant Explored(tasks, visited + {current}, visited', target)
        decreases remaining
      {
        var dep :| dep in remaining;
        remaining := remaining - {dep};
        done := done + {dep};
        found, visited', path' := Dfs(tasks, dep, target, visited', path', universe);
        if found {
          ExtendFound(tasks, current, dep, target, path, path');
          return;
        }
      }
      assert done == tasks[current].dependencies;
    }
    path' := path;
    found := false;
  }

  lemma ExtendFound(tasks: TaskMap, current: TaskId, dep: TaskId, target: TaskId, path: seq<TaskId>, path': seq<TaskId>)
    requires current in tasks && dep in tasks[current].dependencies && path + [current] <= path'
    requires ChainBetween(tasks, path'[|path| + 1..] + [target], dep, target)
    ensures ChainBetween(tasks, path'[|path|..] + [target], current, target)
  {
    var tail := path'[|path| + 1..] + [target];
    var whole := path'[|path|..] + [target];
    assert path'[|path|] == (path + [current])[|path|] == current;
    assert whole == [current] + tail;
    forall i | 0 <= i < |whole| - 1 ensures whole[i] in tasks && whole[i + 1] in tasks[whole[i]].dependencies {
      if i > 0 { assert whole[i] == tail[i - 1] && whole[i + 1] == tail[i - 1 + 1]; }
    }
  }

  /** A visited set that is explored throughout shields the target. */
  lemma ExploredShields(tasks: TaskMap, visited: set<TaskId>, start: TaskId, target: TaskId)
    requires start in visited && Explored(tasks, {}, visited, target)
    ensures !Leads(tasks, start, target)
  {
    forall p | ChainBetween(tasks, p, start, target) ensures |p| < 2 {
      if |p| >= 2 {
        var n := |p| - 1;
        assert p[n - 1] in tasks && p[n - 1 + 1] in tasks[p[n - 1]].dependencies;
        ChainSlice(tasks, p, 0, n - 1);
        ClosedSetTrapsChain(tasks, visited, p[0..n - 1 + 1]);
      }
    }
  }

  /** The verdict on a whole list of new dependencies: sound, complete, and on refusal the
      reported path is a real chain from a new dependency back to the task. */
  method CheckCircularDependency(tasks: TaskMap, id: TaskId, newDependencies: seq<TaskId>)
    returns (cycle: Option<seq<TaskId>>)
    ensures cycle.Some? <==> exists d :: d in newDependencies && Leads(tasks, d, id)
    ensures cycle.Some? ==> exists d :: d in newDependencies && ChainBetween(tasks, cycle.value, d, id)
  {
    ghost var universe := Universe(tasks, Elems(newDependencies));
    for i := 0 to |newDependencies|
      invariant forall d :: d in newDependencies[..i] ==> !Leads(tasks, d, id)
    {
      var dep := newDependencies[i];
      var found, visited, path := Dfs(tasks, dep, id, {}, [], universe);
      if found {
        assert path[0..] == path;
        assert ChainBetween(tasks, path + [id], dep, id) && |path + [id]| >= 2;
        return Some(path + [id]);
      }
      ExploredShields(tasks, visited, dep, id);
    }
    return None;
  }
}
