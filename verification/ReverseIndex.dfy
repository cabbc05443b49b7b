/** Rebuilding the `dependents` lists from scratch. */
module ReverseIndex {
  import opened Lists
  import opened Tasks
  import opened DependencyGraph

  function DependantsOf(tasks: TaskMap, a: TaskId): set<TaskId> {
    set b | b in tasks && a in tasks[b].dependencies
  }

  function BuildIndex(tasks: TaskMap): TaskMap {
    map a | a in tasks :: tasks[a].(dependents := DependantsOf(tasks, a))
  }

  /** Same records up to the reverse lists. */
  ghost predicate SameForward(before: TaskMap, after: TaskMap) {
    && before.Keys == after.Keys
    && forall k :: k in before ==> after[k] == before[k].(dependents := after[k].dependents)
  }

  lemma BuildIndexExact(tasks: TaskMap)
    ensures ExactIndex(BuildIndex(tasks)) && SameForward(tasks, BuildIndex(tasks))
  {
  }

  /** An exact index is precisely one that a rebuild leaves untouched. */
  lemma ExactIffRebuildIsIdentity(tasks: TaskMap)
    ensures ExactIndex(tasks) <==> BuildIndex(tasks) == tasks
  {
    if ExactIndex(tasks) {
      forall a | a in tasks ensures BuildIndex(tasks)[a] == tasks[a] {
        assert DependantsOf(tasks, a) == tasks[a].dependents;
      }
    }
    if BuildIndex(tasks) == tasks {
      BuildIndexExact(tasks);
    }
  }

  /** What the reverse lists hold once the tasks in `walked` have been walked. */
  function PartialIndex(tasks: TaskMap, walked: set<TaskId>): TaskMap {
    map a | a in tasks :: tasks[a].(dependents := DependantsOf(tasks, a) * walked)
  }

  /** A dependency's record once `id` is listed under it (at most once). */
  function WithDependent(id: TaskId): Task -> Task {
    (task: Task) => task.(dependents := task.dependents + {id})
  }

  function WithoutDependent(id: TaskId): Task -> Task {
    (task: Task) => task.(dependents := task.dependents - {id})
  }

  lemma WalkOne(tasks: TaskMap, walked: set<TaskId>, id: TaskId)
    requires id in tasks
    ensures PartialIndex(tasks, walked + {id}) ==
            Updated(PartialIndex(tasks, walked), tasks[id].dependencies, WithDependent(id))
  {
    var x := PartialIndex(tasks, walked + {id});
    var y := Updated(PartialIndex(tasks, walked), tasks[id].dependencies, WithDependent(id));
    forall a | a in tasks ensures x[a] == y[a] {
      assert x[a].dependents == y[a].dependents;
    }
  }

  lemma WalkNone(tasks: TaskMap)
    ensures PartialIndex(tasks, {}) == map a | a in tasks :: tasks[a].(dependents := {})
  {
    var x := PartialIndex(tasks, {});
    forall a | a in tasks ensures x[a] == tasks[a].(dependents := {}) {
      assert x[a].dependents == {};
    }
  }

  lemma WalkAll(tasks: TaskMap)
    ensures PartialIndex(tasks, tasks.Keys) == BuildIndex(tasks)
  {
    var x, y := PartialIndex(tasks, tasks.Keys), BuildIndex(tasks);
    forall a | a in tasks ensures x[a] == y[a] {
      assert x[a].dependents == y[a].dependents;
    }
  }

  method BuildReverseDependencyIndex(state: InternalState)
    modifies state`tasks
    ensures state.tasks == BuildIndex(old(state.tasks))
  {
    ghost var before := state.tasks;
    state.tasks := map k | k in state.tasks :: state.tasks[k].(dependents := {});
    var remaining := state.tasks.Keys;
    WalkNone(before);
    assert before.Keys - remaining == {};
    ghost var all := before.Keys;
    while remaining != {}
      invariant remaining <= all
      invariant state.tasks == PartialIndex(before, all - remaining)
    {
      var id :| id in remaining;
      WalkOne(before, all - remaining, id);
      assert all - (remaining - {id}) == all - remaining + {id};
      remaining := remaining - {id};
      state.UpdateTasks(state.tasks[id].dependencies, WithDependent(id));
    }
    assert all - remaining == all;
    WalkAll(before);
  }
}
