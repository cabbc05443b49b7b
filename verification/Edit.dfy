/** Editing tasks: locking, validating against the current graph, rewriting records and index. */
module Edit {
  import opened Lists
  import opened Tasks
  import opened DependencyGraph
  import opened ReverseIndex
  import opened CycleCheck

  datatype EditItem = EditItem(id: TaskId, details: Details, priority: int, dependencies: seq<TaskId>)

  // -- locking ----------------------------------------------------------------------------------------------

  predicate Editable(task: Task) { IsQueued(task) || IsStashed(task) }

  function Lock(task: Task): Task {
    task.(status := Locked(task.status))
  }

  function Unlock(task: Task): Task {
    if task.status.Locked? then task.(status := task.status.previous) else task
  }

  /** Tasks are locked one by one; the first id that is missing or not editable ends the request,
      and what has been locked before stays locked. */
  function LockAll(tasks: TaskMap, ids: seq<TaskId>): (TaskMap, bool) {
    if ids == [] then (tasks, true)
    else if ids[0] !in tasks || !Editable(tasks[ids[0]]) then (tasks, false)
    else LockAll(tasks[ids[0] := Lock(tasks[ids[0]])], ids[1..])
  }

  method EditRequest(state: InternalState, ids: seq<TaskId>) returns (ok: bool)
    modifies state`tasks
    ensures (state.tasks, ok) == LockAll(old(state.tasks), ids)
  {
    ghost var before := state.tasks;
    for i := 0 to |ids|
      invariant LockAll(before, ids) == LockAll(state.tasks, ids[i..])
    {
      var id := ids[i];
      assert ids[i..][0] == id && ids[i..][1..] == ids[i + 1..];
      if id !in state.tasks || !Editable(state.tasks[id]) {
        return false;
      }
      state.tasks := state.tasks[id := Lock(state.tasks[id])];
    }
    return true;
  }

  /** Undoes the lock on every named task that holds one. */
  function UnlockAll(tasks: TaskMap, ids: seq<TaskId>): (TaskMap, bool) {
    if ids == [] then (tasks, true)
    else if ids[0] !in tasks || !tasks[ids[0]].status.Locked? then (UnlockAll(tasks, ids[1..]).0, false)
    else UnlockAll(tasks[ids[0] := Unlock(tasks[ids[0]])], ids[1..])
  }

  method EditRestore(state: InternalState, ids: seq<TaskId>) returns (ok: bool)
    modifies state`tasks
    ensures (state.tasks, ok) == UnlockAll(old(state.tasks), ids)
  {
    ghost var before := state.tasks;
    var failed := false;
    for i := 0 to |ids|
      invariant UnlockAll(before, ids).0 == UnlockAll(state.tasks, ids[i..]).0
      invariant UnlockAll(before, ids).1 == (UnlockAll(state.tasks, ids[i..]).1 && !failed)
    {
      var id := ids[i];
      assert ids[i..][0] == id && ids[i..][1..] == ids[i + 1..];
      if id !in state.tasks || !state.tasks[id].status.Locked? {
        failed := true;
      } else {
        state.tasks := state.tasks[id := Unlock(state.tasks[id])];
      }
    }
    ok := !failed;
  }

  lemma {:induction false} LockAllTouchesOnlyListed(tasks: TaskMap, ids: seq<TaskId>)
    ensures var after := LockAll(tasks, ids).0;
      && SameGraph(tasks, after)
      && (forall k :: k in tasks && k !in ids ==> after[k] == tasks[k])
      && (forall k :: k in tasks ==> after[k] == tasks[k] || (after[k] == Lock(tasks[k]) && Editable(tasks[k])))
  {
    if ids != [] && ids[0] in tasks && Editable(tasks[ids[0]]) {
      var next := tasks[ids[0] := Lock(tasks[ids[0]])];
      LockAllTouchesOnlyListed(next, ids[1..]);
      assert ids == [ids[0]] + ids[1..];
    }
  }

  /** Giving up an edit undoes its lock: a granted request followed by a restore of the same
      ids leaves every task as it was. */
  lemma {:induction false} RestoreUndoesRequest(tasks: TaskMap, ids: seq<TaskId>)
    requires LockAll(tasks, ids).1
    ensures UnlockAll(LockAll(tasks, ids).0, ids) == (tasks, true)
  {
    if ids != [] {
      var id := ids[0];
      var next := tasks[id := Lock(tasks[id])];
      var locked := LockAll(next, ids[1..]).0;
      LockAllTouchesOnlyListed(next, ids[1..]);
      RestoreUndoesRequest(next, ids[1..]);
      assert locked[id] == next[id];
      UnlockElsewhere(locked, ids[1..], id, tasks[id]);
      GrantedOnce(next, ids[1..], id);
      assert next[id := tasks[id]] == tasks;
    }
  }

  /** A locked task cannot be granted again, so a granted request names each task once. */
  lemma {:induction false} GrantedOnce(tasks: TaskMap, ids: seq<TaskId>, id: TaskId)
    requires LockAll(tasks, ids).1 && id in tasks && tasks[id].status.Locked?
    ensures id !in ids
  {
    if ids != [] {
      assert id != ids[0];
      GrantedOnce(tasks[ids[0] := Lock(tasks[ids[0]])], ids[1..], id);
    }
  }

  lemma {:induction false} UnlockElsewhere(tasks: TaskMap, ids: seq<TaskId>, id: TaskId, task: Task)
    requires id in tasks
    ensures id !in ids ==>
      UnlockAll(tasks[id := task], ids) == (UnlockAll(tasks, ids).0[id := task], UnlockAll(tasks, ids).1)
  {
    if ids != [] && id !in ids {
      assert ids[0] in ids;
      if ids[0] in tasks && tasks[ids[0]].status.Locked? {
        var next := tasks[ids[0] := Unlock(tasks[ids[0]])];
        assert tasks[id := task][ids[0] := Unlock(tasks[ids[0]])] == next[id := task];
        UnlockElsewhere(next, ids[1..], id, task);
      } else {
        UnlockElsewhere(tasks, ids[1..], id, task);
      }
    }
  }

  /** The task waits in the queue or is stashed, and so may be locked. */
  ghost predicate Lockable(tasks: TaskMap, k: TaskId) {
    k in tasks && (tasks[k].status == Queued || tasks[k].status.Stashed?)
  }

  lemma LockStep(tasks: TaskMap, ids: seq<TaskId>)
    requires ids != [] && Lockable(tasks, ids[0])
    ensures var next := tasks[ids[0] := tasks[ids[0]].(status := Locked(tasks[ids[0]].status))];
      LockAll(tasks, ids) == LockAll(next, ids[1..])
  {
  }

  /** A request is granted exactly if it names waiting tasks, each once; it then locks them, remembering
      their status, and no others. */
  lemma {:induction false} LockOutcome(tasks: TaskMap, ids: seq<TaskId>, k: TaskId)
    requires k in tasks
    ensures var (after, granted) := LockAll(tasks, ids);
      && (granted <==> NoDuplicates(ids) && forall id :: id in ids ==> Lockable(tasks, id))
      && after.Keys == tasks.Keys
      && (granted ==> after[k] == if k in ids then tasks[k].(status := Locked(tasks[k].status)) else tasks[k])
    decreases |ids|
  {
    if ids != [] {
      assert ids == [ids[0]] + ids[1..];
      if Lockable(tasks, ids[0]) {
        var next := tasks[ids[0] := tasks[ids[0]].(status := Locked(tasks[ids[0]].status))];
        LockStep(tasks, ids);
        LockOutcome(next, ids[1..], k);
        NoDuplicatesSplit(ids);
        forall id ensures Lockable(next, id) <==> Lockable(tasks, id) && id != ids[0] {
        }
      } else {
        assert ids[0] in ids;
      }
    }
  }

  lemma NoDuplicatesSplit(ids: seq<TaskId>)
    requires ids != []
    ensures NoDuplicates(ids) <==> ids[0] !in ids[1..] && NoDuplicates(ids[1..])
  {
    forall i | 0 <= i < |ids[1..]| ensures ids[1..][i] == ids[i + 1] {
    }
    if NoDuplicates(ids[1..]) && ids[0] !in ids[1..] {
      forall i, j | 0 <= i < j < |ids| ensures ids[i] != ids[j] {
        assert ids[j] == ids[1..][j - 1];
        if i > 0 { assert ids[i] == ids[1..][i - 1]; }
      }
    }
  }

  /** A request that is not granted has locked what it named before the first id that could not be. */
  lemma {:induction false} LockStops(tasks: TaskMap, ids: seq<TaskId>, n: nat)
    requires n < |ids| && NoDuplicates(ids[..n]) && (forall id :: id in ids[..n] ==> Lockable(tasks, id))
    requires !Lockable(tasks, ids[n]) || ids[n] in ids[..n]
    ensures LockAll(tasks, ids) == (LockAll(tasks, ids[..n]).0, false)
    decreases n
  {
    if n > 0 {
      FirstIsMember(ids[..n]);
      var next := tasks[ids[0] := tasks[ids[0]].(status := Locked(tasks[ids[0]].status))];
      assert ids[..n][0] == ids[0] && ids[..n][1..] == ids[1..][..n - 1] && ids[1..][n - 1] == ids[n];
      LockStep(tasks, ids);
      LockStep(tasks, ids[..n]);
      NoDuplicatesSplit(ids[..n]);
      forall id | id in ids[1..][..n - 1] ensures Lockable(next, id) {
        assert id in ids[..n];
      }
      LockStops(next, ids[1..], n - 1);
    }
  }

  /** Restoring gives each named locked task the status it had before, once, and reports whether all
      named ones were locked. */
  lemma {:induction false} UnlockOutcome(tasks: TaskMap, ids: seq<TaskId>, k: TaskId)
    requires k in tasks && LockedOnce(tasks)
    ensures var (after, ok) := UnlockAll(tasks, ids);
      && (ok <==> NoDuplicates(ids) && forall id :: id in ids ==> id in tasks && tasks[id].status.Locked?)
      && after.Keys == tasks.Keys
      && after[k] == if k in ids && tasks[k].status.Locked? then tasks[k].(status := tasks[k].status.previous)
                     else tasks[k]
    decreases |ids|
  {
    if ids != [] {
      assert ids == [ids[0]] + ids[1..];
      NoDuplicatesSplit(ids);
      if ids[0] in tasks && tasks[ids[0]].status.Locked? {
        var next := tasks[ids[0] := tasks[ids[0]].(status := tasks[ids[0]].status.previous)];
        assert UnlockAll(tasks, ids) == UnlockAll(next, ids[1..]);
        UnlockOutcome(next, ids[1..], k);
      } else {
        UnlockOutcome(tasks, ids[1..], k);
        assert ids[0] in ids;
      }
    }
  }

  // -- applying an edit -------------------------------------------------------------------------------------

  /** The validation of one item: everything is looked up in the graph before the edit. */
  ghost predicate EditAccepted(tasks: TaskMap, item: EditItem) {
    && item.id in tasks && tasks[item.id].status.Locked?
    && (forall d :: d in item.dependencies ==> d in tasks)
    && item.id !in item.dependencies
    && !exists d :: d in item.dependencies && Leads(tasks, d, item.id)
  }

  function EditedRecord(task: Task, item: EditItem): Task {
    Unlock(task).(details := item.details, priority := item.priority, dependencies := Elems(item.dependencies))
  }

  /** The record rewritten, and the index entries that differ between old and new list moved. */
  function Edited(tasks: TaskMap, item: EditItem): TaskMap
    requires item.id in tasks
  {
    var before, after := tasks[item.id].dependencies, Elems(item.dependencies);
    var rewritten := tasks[item.id := EditedRecord(tasks[item.id], item)];
    Updated(Updated(rewritten, before - after, WithoutDependent(item.id)), after - before, WithDependent(item.id))
  }

  /** Items are applied in order; one whose task is not locked any more ends the request. */
  function ApplyEdits(tasks: TaskMap, items: seq<EditItem>): (TaskMap, bool) {
    if items == [] then (tasks, true)
    else if items[0].id !in tasks then ApplyEdits(tasks, items[1..])
    else if !tasks[items[0].id].status.Locked? then (tasks, false)
    else ApplyEdits(Edited(tasks, items[0]), items[1..])
  }

  method ValidateItem(tasks: TaskMap, item: EditItem) returns (ok: bool)
    ensures ok <==> EditAccepted(tasks, item)
  {
    if item.id !in tasks || !tasks[item.id].status.Locked? {
      return false;
    }
    var missing := Keep(item.dependencies, Elems(item.dependencies) - tasks.Keys);
    if missing != [] {
      assert missing[0] in missing;
      return false;
    }
    forall d | d in item.dependencies ensures d in tasks {
      assert d !in missing;
    }
    if item.id in item.dependencies {
      return false;
    }
    var cycle := CheckCircularDependency(tasks, item.id, item.dependencies);
    return cycle == None;
  }

  method ApplyItems(state: InternalState, items: seq<EditItem>) returns (ok: bool)
    modifies state`tasks
    ensures (state.tasks, ok) == ApplyEdits(old(state.tasks), items)
  {
    ghost var before := state.tasks;
    for i := 0 to |items|
      invariant ApplyEdits(before, items) == ApplyEdits(state.tasks, items[i..])
    {
      var item := items[i];
      assert items[i..][0] == item && items[i..][1..] == items[i + 1..];
      if item.id in state.tasks {
        var task := state.tasks[item.id];
        if !task.status.Locked? {
          return false;
        }
        var newDependencies := Elems(item.dependencies);
        state.tasks := state.tasks[item.id := EditedRecord(task, item)];
        state.UpdateTasks(task.dependencies - newDependencies, WithoutDependent(item.id));
        state.UpdateTasks(newDependencies - task.dependencies, WithDependent(item.id));
      }
    }
    return true;
  }

  /** `pueue edit`: all items are validated first, then all are applied. */
  method EditTasks(state: InternalState, items: seq<EditItem>) returns (ok: bool)
    modifies state`tasks
    ensures BatchAccepted(old(state.tasks), items) ==> (state.tasks, ok) == ApplyEdits(old(state.tasks), items)
    ensures !BatchAccepted(old(state.tasks), items) ==> state.tasks == old(state.tasks) && !ok
  {
    for i := 0 to |items|
      invariant state.tasks == old(state.tasks)
      invariant forall j :: 0 <= j < i ==> EditAccepted(state.tasks, items[j])
    {
      var accepted := ValidateItem(state.tasks, items[i]);
      if !accepted {
        return false;
      }
    }
    ok := ApplyItems(state, items);
  }

  ghost predicate BatchAccepted(tasks: TaskMap, items: seq<EditItem>) {
    forall j :: 0 <= j < |items| ==> EditAccepted(tasks, items[j])
  }

  // -- what an edit keeps -----------------------------------------------------------------------------------

  /** The forward half of an edit needs nothing of the index. */
  lemma EditedForward(tasks: TaskMap, item: EditItem)
    requires item.id in tasks
    ensures var after := Edited(tasks, item);
      && after.Keys == tasks.Keys
      && after[item.id].dependencies == Elems(item.dependencies)
      && after[item.id].id == tasks[item.id].id
      && after[item.id].status == Unlock(tasks[item.id]).status
      && after[item.id].group == tasks[item.id].group
      && after[item.id].details == item.details && after[item.id].priority == item.priority
      && (forall k :: k in tasks && k != item.id ==>
            after[k] == tasks[k].(dependents := after[k].dependents))
  {
  }

  lemma EditedRecords(tasks: TaskMap, item: EditItem)
    requires Agree(tasks) && item.id in tasks
    ensures var after := Edited(tasks, item);
      && after.Keys == tasks.Keys
      && after[item.id].dependencies == Elems(item.dependencies)
      && after[item.id].id == tasks[item.id].id
      && after[item.id].status == Unlock(tasks[item.id]).status
      && after[item.id].group == tasks[item.id].group
      && (forall k :: k in tasks ==>
            after[k].dependents == tasks[k].dependents - {item.id} + if k in item.dependencies then {item.id} else {})
      && (forall k :: k in tasks && k != item.id ==>
            after[k] == tasks[k].(dependents := after[k].dependents))
  {
    var after := Edited(tasks, item);
    var listed := Elems(item.dependencies);
    forall k | k in tasks
      ensures after[k].dependents == tasks[k].dependents - {item.id} + if k in item.dependencies then {item.id} else {}
    {
      assert k in listed <==> k in item.dependencies;
      assert item.id in tasks[k].dependents <==> k in tasks[item.id].dependencies;
    }
  }

  lemma EditKeepsGraph(tasks: TaskMap, item: EditItem)
    requires Agree(tasks) && item.id in tasks
    ensures Agree(Edited(tasks, item))
    ensures KeyedById(tasks) ==> KeyedById(Edited(tasks, item))
    ensures NoStaleDependents(tasks) ==> NoStaleDependents(Edited(tasks, item))
    ensures Live(tasks) && (forall d :: d in item.dependencies ==> d in tasks) ==> Live(Edited(tasks, item))
  {
    EditedRecords(tasks, item);
  }

  // -- acyclicity -------------------------------------------------------------------------------------------

  /** The search never meets an edited task from a new dependency. */
  ghost predicate Avoids(tasks: TaskMap, start: TaskId, targets: set<TaskId>) {
    forall t :: t in targets ==> start != t && !Leads(tasks, start, t)
  }

  ghost predicate Above(tasks: TaskMap, x: TaskId, targets: set<TaskId>) {
    exists t :: t in targets && Reaches(tasks, x, t)
  }

  lemma AboveStep(tasks: TaskMap, x: TaskId, d: TaskId, targets: set<TaskId>)
    requires x in tasks && d in tasks[x].dependencies && Above(tasks, d, targets)
    ensures Above(tasks, x, targets)
  {
    var t :| t in targets && Reaches(tasks, d, t);
    ReachesStep(tasks, x, d, t);
  }

  lemma ReachesSplit(tasks: TaskMap, a: TaskId, b: TaskId)
    ensures Reaches(tasks, a, b) ==> a == b || Leads(tasks, a, b)
  {
    if Reaches(tasks, a, b) {
      var p :| ChainBetween(tasks, p, a, b);
      assert |p| == 1 ==> a == b;
    }
  }

  lemma AvoidsNotAbove(tasks: TaskMap, d: TaskId, targets: set<TaskId>)
    requires Avoids(tasks, d, targets)
    ensures !Above(tasks, d, targets)
  {
    forall t | t in targets ensures !Reaches(tasks, d, t) {
      ReachesSplit(tasks, d, t);
    }
  }

  /** `after` differs from `tasks` only in that some targets got new dependencies, none of which
      is or leads to a target in the old graph. */
  ghost predicate SafelyRewired(tasks: TaskMap, after: TaskMap, targets: set<TaskId>) {
    && after.Keys == tasks.Keys
    && forall k, d :: k in tasks && d in after[k].dependencies ==>
         d in tasks[k].dependencies || (k in targets && Avoids(tasks, d, targets))
  }

  /** Everything above a target is lifted over everything else. */
  lemma RewiringKeepsAcyclic(tasks: TaskMap, after: TaskMap, targets: set<TaskId>)
    requires Acyclic(tasks) && SafelyRewired(tasks, after, targets)
    ensures Acyclic(after)
  {
    var rank: map<TaskId, int>, bound: int :| Ranked(tasks, rank, bound);
    ghost var lifted := map x | x in tasks :: if Above(tasks, x, targets) then rank[x] + bound + 1 else rank[x];
    forall k, d | k in after && d in after && d in after[k].dependencies ensures lifted[d] < lifted[k] {
      if d in tasks[k].dependencies {
        if Above(tasks, d, targets) { AboveStep(tasks, k, d, targets); }
      } else {
        AvoidsNotAbove(tasks, d, targets);
        ReachesSelf(tasks, k);
      }
    }
    assert Ranked(after, lifted, 2 * bound + 1);
  }

  /** A chain from `a` to `b` with `b` only at its end. */
  lemma {:induction false} FirstHit(tasks: TaskMap, p: seq<TaskId>, b: TaskId) returns (q: seq<TaskId>)
    requires Chain(tasks, p) && |p| >= 2 && p[|p| - 1] == b && p[0] != b
    ensures Chain(tasks, q) && |q| >= 2 && q[0] == p[0] && q[|q| - 1] == b
    ensures forall i :: 0 <= i < |q| - 1 ==> q[i] != b
  {
    var m := 1;
    while p[m] != b
      invariant 1 <= m < |p|
      invariant forall i :: 0 <= i < m ==> p[i] != b
      decreases |p| - m
    {
      m := m + 1;
    }
    ChainSlice(tasks, p, 0, m);
    q := p[0..m + 1];
  }

  /** A new dependency that leads back to the task closes a cycle in the edited graph. */
  lemma LeadingBackIsCircular(tasks: TaskMap, item: EditItem, d: TaskId)
    requires Agree(tasks) && item.id in tasks && item.id !in item.dependencies
    requires d in item.dependencies && Leads(tasks, d, item.id)
    ensures Circular(Edited(tasks, item))
  {
    var after := Edited(tasks, item);
    EditedRecords(tasks, item);
    var p :| ChainBetween(tasks, p, d, item.id) && |p| >= 2;
    var q := FirstHit(tasks, p, item.id);
    var loop := [item.id] + q;
    forall i | 0 <= i < |loop| - 1 ensures loop[i] in after && loop[i + 1] in after[loop[i]].dependencies {
      if i > 0 {
        assert loop[i] == q[i - 1] && loop[i + 1] == q[i - 1 + 1];
        assert q[i - 1] in tasks && q[i - 1 + 1] in tasks[q[i - 1]].dependencies;
      } else {
        assert d in Elems(item.dependencies);
      }
    }
    assert Chain(after, loop) && |loop| >= 2 && loop[0] == loop[|loop| - 1];
  }

  /** The two graph tests of the validation are exactly right for a single edited task: they
      pass if and only if the edited graph is still free of cycles. */
  lemma SingleEditAcyclicIff(tasks: TaskMap, item: EditItem)
    requires Agree(tasks) && Acyclic(tasks) && item.id in tasks
    ensures Acyclic(Edited(tasks, item)) <==>
            item.id !in item.dependencies && !exists d :: d in item.dependencies && Leads(tasks, d, item.id)
  {
    var after := Edited(tasks, item);
    EditedRecords(tasks, item);
    if item.id in item.dependencies {
      assert item.id in after[item.id].dependencies;
      var loop := [item.id, item.id];
      assert Chain(after, loop) && |loop| >= 2 && loop[0] == loop[|loop| - 1];
    } else if exists d :: d in item.dependencies && Leads(tasks, d, item.id) {
      var d :| d in item.dependencies && Leads(tasks, d, item.id);
      LeadingBackIsCircular(tasks, item, d);
    } else {
      SingleIsSafelyRewired(tasks, item);
      RewiringKeepsAcyclic(tasks, after, {item.id});
    }
    AcyclicIffNotCircular(after);
  }

  lemma SingleIsSafelyRewired(tasks: TaskMap, item: EditItem)
    requires Agree(tasks) && item.id in tasks && item.id !in item.dependencies
    requires !exists d :: d in item.dependencies && Leads(tasks, d, item.id)
    ensures SafelyRewired(tasks, Edited(tasks, item), {item.id})
  {
    var after := Edited(tasks, item);
    EditedRecords(tasks, item);
    forall k, d | k in tasks && d in after[k].dependencies && d !in tasks[k].dependencies
      ensures k in {item.id} && Avoids(tasks, d, {item.id})
    {
      assert k == item.id && d in item.dependencies;
    }
  }

  // -- batches ----------------------------------------------------------------------------------------------

  ghost function EditedIds(items: seq<EditItem>): set<TaskId> {
    set i | 0 <= i < |items| :: items[i].id
  }

  /** No new dependency of any item is, or leads to, a task the same batch edits. */
  ghost predicate SafeBatch(tasks: TaskMap, items: seq<EditItem>) {
    forall i, d :: 0 <= i < |items| && d in items[i].dependencies ==> Avoids(tasks, d, EditedIds(items))
  }

  /** Index, keys and the survival of dependencies do not depend on what the batch holds. */
  lemma {:induction false} BatchKeepsGraph(tasks: TaskMap, items: seq<EditItem>)
    requires Agree(tasks)
    ensures var after := ApplyEdits(tasks, items).0;
      && after.Keys == tasks.Keys
      && Agree(after)
      && (KeyedById(tasks) ==> KeyedById(after))
      && (NoStaleDependents(tasks) ==> NoStaleDependents(after))
    decreases |items|
  {
    if items != [] {
      if items[0].id !in tasks {
        BatchKeepsGraph(tasks, items[1..]);
      } else if tasks[items[0].id].status.Locked? {
        EditKeepsGraph(tasks, items[0]);
        EditedRecords(tasks, items[0]);
        BatchKeepsGraph(Edited(tasks, items[0]), items[1..]);
      }
    }
  }

  ghost predicate ItemDependenciesExist(tasks: TaskMap, items: seq<EditItem>) {
    forall i, d :: 0 <= i < |items| && d in items[i].dependencies ==> d in tasks
  }

  lemma {:induction false} BatchKeepsLive(tasks: TaskMap, items: seq<EditItem>)
    requires Agree(tasks) && Live(tasks) && ItemDependenciesExist(tasks, items)
    ensures Live(ApplyEdits(tasks, items).0)
    decreases |items|
  {
    if items != [] {
      var rest := items[1..];
      assert forall i :: 0 <= i < |rest| ==> rest[i] == items[i + 1];
      if items[0].id !in tasks {
        BatchKeepsLive(tasks, rest);
      } else if tasks[items[0].id].status.Locked? {
        EditKeepsGraph(tasks, items[0]);
        EditedRecords(tasks, items[0]);
        BatchKeepsLive(Edited(tasks, items[0]), rest);
      }
    }
  }

  /** Every dependency after a batch was there before, or was asked for by an item. */
  lemma {:induction false} BatchDependencies(tasks: TaskMap, items: seq<EditItem>, k: TaskId, d: TaskId)
    requires k in tasks && k in ApplyEdits(tasks, items).0
    requires d in ApplyEdits(tasks, items).0[k].dependencies
    ensures d in tasks[k].dependencies || exists i :: 0 <= i < |items| && items[i].id == k && d in items[i].dependencies
    decreases |items|
  {
    if items != [] {
      var item, rest := items[0], items[1..];
      if item.id !in tasks {
        BatchDependencies(tasks, rest, k, d);
      } else if tasks[item.id].status.Locked? {
        EditedForward(tasks, item);
        BatchDependencies(Edited(tasks, item), rest, k, d);
        if d in Edited(tasks, item)[k].dependencies && k == item.id {
          assert d in item.dependencies;
        }
      }
      if i :| 0 <= i < |rest| && rest[i].id == k && d in rest[i].dependencies {
        assert rest[i] == items[i + 1];
      }
    }
  }

  lemma BatchDependencyAvoids(tasks: TaskMap, items: seq<EditItem>, k: TaskId, d: TaskId)
    requires Agree(tasks) && SafeBatch(tasks, items) && k in tasks && k in ApplyEdits(tasks, items).0
    requires d in ApplyEdits(tasks, items).0[k].dependencies
    ensures d in tasks[k].dependencies || (k in EditedIds(items) && Avoids(tasks, d, EditedIds(items)))
  {
    hide Agree, Avoids, ApplyEdits;
    BatchDependencies(tasks, items, k, d);
  }

  /** A batch whose new dependencies stay clear of its own tasks cannot close a cycle. */
  lemma SafeBatchKeepsAcyclic(tasks: TaskMap, items: seq<EditItem>)
    requires Agree(tasks) && Acyclic(tasks) && SafeBatch(tasks, items)
    ensures Acyclic(ApplyEdits(tasks, items).0)
  {
    hide Agree, Acyclic, ApplyEdits, SafeBatch;
    var after := ApplyEdits(tasks, items).0;
    BatchKeepsGraph(tasks, items);
    forall k, d | k in tasks && d in after[k].dependencies
      ensures d in tasks[k].dependencies || (k in EditedIds(items) && Avoids(tasks, d, EditedIds(items)))
    {
      BatchDependencyAvoids(tasks, items, k, d);
    }
    RewiringKeepsAcyclic(tasks, after, EditedIds(items));
  }

  /** An accepted batch of one is safe, so a single accepted edit keeps the graph acyclic. */
  lemma SingleAcceptedIsSafe(tasks: TaskMap, items: seq<EditItem>)
    requires |items| == 1 && BatchAccepted(tasks, items)
    ensures SafeBatch(tasks, items)
  {
    assert EditAccepted(tasks, items[0]);
    assert EditedIds(items) == {items[0].id};
  }

  lemma ApplyOne(tasks: TaskMap, item: EditItem, rest: seq<EditItem>)
    requires item.id in tasks && tasks[item.id].status.Locked?
    ensures ApplyEdits(tasks, [item] + rest) == ApplyEdits(Edited(tasks, item), rest)
  {
    assert ([item] + rest)[1..] == rest;
  }

  lemma EditedDependencies(tasks: TaskMap, item: EditItem, k: TaskId)
    requires Agree(tasks) && item.id in tasks && k in tasks
    ensures var after := Edited(tasks, item);
      && k in after && Agree(after)
      && after[k].dependencies == (if k == item.id then Elems(item.dependencies) else tasks[k].dependencies)
      && (k != item.id ==> after[k].status == tasks[k].status)
  {
    EditedRecords(tasks, item);
    EditKeepsGraph(tasks, item);
  }

  lemma MutualIsCircular(tasks: TaskMap, a: TaskId, b: TaskId)
    requires a in tasks && b in tasks && b in tasks[a].dependencies && a in tasks[b].dependencies
    ensures Circular(tasks)
  {
    var loop := [a, b, a];
    assert Chain(tasks, loop) && |loop| >= 2 && loop[0] == loop[|loop| - 1];
  }

  lemma MutualEdges(tasks: TaskMap, first: EditItem, second: EditItem)
    requires Agree(tasks) && first.id in tasks && second.id in tasks && first.id != second.id
    requires second.id in first.dependencies && first.id in second.dependencies
    ensures Edited(tasks, first)[second.id].status == tasks[second.id].status
    ensures Circular(Edited(Edited(tasks, first), second))
  {
    EditedDependencies(tasks, first, first.id);
    EditedDependencies(tasks, first, second.id);
    EditedDependencies(Edited(tasks, first), second, first.id);
    EditedDependencies(Edited(tasks, first), second, second.id);
    MutualIsCircular(Edited(Edited(tasks, first), second), first.id, second.id);
  }

  /** Two edits that make two tasks wait for each other are both applied, and close a cycle. */
  lemma MutualEditsCloseCycle(tasks: TaskMap, first: EditItem, second: EditItem)
    requires Agree(tasks) && first.id != second.id
    requires first.id in tasks && tasks[first.id].status.Locked? && second.id in first.dependencies
    requires second.id in tasks && tasks[second.id].status.Locked? && first.id in second.dependencies
    ensures ApplyEdits(tasks, [first] + [second]).1
    ensures Circular(ApplyEdits(tasks, [first] + [second]).0)
  {
    MutualEdges(tasks, first, second);
    ApplyOne(tasks, first, [second]);
    ApplyOne(Edited(tasks, first), second, []);
    assert [second] + [] == [second];
  }

  // -- what a batch leaves behind, item by item ---------------------------------------------------------------

  ghost predicate AllLocked(tasks: TaskMap, items: seq<EditItem>) {
    forall i :: 0 <= i < |items| ==> items[i].id in tasks && tasks[items[i].id].status.Locked?
  }

  ghost predicate DistinctIds(items: seq<EditItem>) {
    forall i, j :: 0 <= i < j < |items| ==> items[i].id != items[j].id
  }

  /** No lock hides another one. */
  ghost predicate LockedOnce(tasks: TaskMap) {
    forall k :: k in tasks && tasks[k].status.Locked? ==> !tasks[k].status.previous.Locked?
  }

  /** Some item asks for the dependency of `k` on `d`. */
  ghost predicate Asks(items: seq<EditItem>, k: TaskId, d: TaskId) {
    exists i :: 0 <= i < |items| && items[i].id == k && d in items[i].dependencies
  }

  lemma RestLocked(tasks: TaskMap, items: seq<EditItem>)
    requires items != [] && AllLocked(tasks, items) && DistinctIds(items)
    ensures AllLocked(Edited(tasks, items[0]), items[1..]) && DistinctIds(items[1..])
    ensures items[0].id !in EditedIds(items[1..])
  {
    EditedForward(tasks, items[0]);
    hide Edited;
    forall i | 0 <= i < |items[1..]| ensures items[1..][i] == items[i + 1] {
    }
  }

  lemma AsksSplit(items: seq<EditItem>, k: TaskId, d: TaskId)
    requires items != []
    ensures Asks(items, k, d) <==> (items[0].id == k && d in items[0].dependencies) || Asks(items[1..], k, d)
    ensures k in EditedIds(items) <==> items[0].id == k || k in EditedIds(items[1..])
  {
    forall i | 0 <= i < |items[1..]| ensures items[1..][i] == items[i + 1] {
    }
    if i :| 0 <= i < |items| && items[i].id == k {
      if i > 0 { assert items[1..][i - 1] == items[i]; }
    }
    if i :| 0 <= i < |items| && items[i].id == k && d in items[i].dependencies {
      if i > 0 { assert items[1..][i - 1] == items[i]; }
    }
    if i :| 0 <= i < |items[1..]| && items[1..][i].id == k {
      assert items[i + 1].id == k;
    }
  }

  lemma NobodyAsks(items: seq<EditItem>, k: TaskId, d: TaskId)
    requires Asks(items, k, d)
    ensures k in EditedIds(items)
  {
  }

  /** What the batch makes of one task: an edited one has everything its item asks for and the status
      it had before its lock; all others keep their records but for the index. */
  ghost predicate EditedAsAsked(tasks: TaskMap, items: seq<EditItem>, after: TaskMap, k: TaskId, d: TaskId)
    requires k in tasks && k in after
  {
    && (d in after[k].dependencies <==>
          if k in EditedIds(items) then Asks(items, k, d) else d in tasks[k].dependencies)
    && after[k].id == tasks[k].id && after[k].group == tasks[k].group
    && (k in EditedIds(items) ==> tasks[k].status.Locked? && after[k].status == tasks[k].status.previous)
    && (forall i :: 0 <= i < |items| && items[i].id == k ==>
          after[k].details == items[i].details && after[k].priority == items[i].priority)
    && (k !in EditedIds(items) ==> after[k] == tasks[k].(dependents := after[k].dependents))
  }

  /** A batch of locked tasks with distinct ids goes through, and does just that. */
  lemma {:induction false} BatchOutcome(tasks: TaskMap, items: seq<EditItem>, k: TaskId, d: TaskId)
    requires AllLocked(tasks, items) && DistinctIds(items) && k in tasks
    ensures var (after, ok) := ApplyEdits(tasks, items);
      ok && after.Keys == tasks.Keys && EditedAsAsked(tasks, items, after, k, d)
    decreases |items|
  {
    hide Edited, EditedIds, Asks, DistinctIds;
    if items == [] {
      assert k !in EditedIds(items) by { NoItems(k); }
    } else {
      EditedForward(tasks, items[0]);
      RestLocked(tasks, items);
      BatchOutcome(Edited(tasks, items[0]), items[1..], k, d);
      AsksSplit(items, k, d);
      if Asks(items[1..], k, d) { NobodyAsks(items[1..], k, d); }
      forall i | 0 < i < |items| ensures items[i] == items[1..][i - 1] {
      }
      if items[0].id == k { NobodyNames(items[1..], k); }
    }
  }

  lemma NobodyNames(items: seq<EditItem>, k: TaskId)
    ensures k !in EditedIds(items) ==> forall i :: 0 <= i < |items| ==> items[i].id != k
  {
  }

  lemma NoItems(k: TaskId)
    ensures k !in EditedIds([])
  {
  }

  // -- a batch that names one task twice ------------------------------------------------------------------------

  /** The items up to the first that names a task again. */
  ghost function Effective(items: seq<EditItem>): (r: seq<EditItem>)
    ensures DistinctIds(r) && r <= items
    decreases |items|
  {
    if DistinctIds(items) then items else Effective(items[..|items| - 1])
  }

  lemma {:induction false} ApplyAppend(tasks: TaskMap, xs: seq<EditItem>, ys: seq<EditItem>)
    ensures ApplyEdits(tasks, xs + ys) ==
            if ApplyEdits(tasks, xs).1 then ApplyEdits(ApplyEdits(tasks, xs).0, ys) else ApplyEdits(tasks, xs)
    decreases |xs|
  {
    hide Edited;
    if xs == [] {
      assert xs + ys == ys;
    } else {
      assert (xs + ys)[1..] == xs[1..] + ys;
      if xs[0].id !in tasks {
        ApplyAppend(tasks, xs[1..], ys);
      } else if tasks[xs[0].id].status.Locked? {
        ApplyAppend(Edited(tasks, xs[0]), xs[1..], ys);
      }
    }
  }

  /** Validation accepts it, but the first item releases the lock: the second one ends the request
      with a failure, and everything before it stays applied. */
  lemma {:induction false} RepeatedIdEndsBatch(tasks: TaskMap, items: seq<EditItem>)
    requires AllLocked(tasks, items) && LockedOnce(tasks)
    ensures ApplyEdits(tasks, items) == (ApplyEdits(tasks, Effective(items)).0, DistinctIds(items))
    decreases |items|
  {
    hide Edited, ApplyEdits;
    if DistinctIds(items) {
      BatchGoesThrough(tasks, items);
    } else {
      var n := |items| - 1;
      var init, last := items[..n], items[n];
      assert items == init + [last];
      ApplyAppend(tasks, init, [last]);
      RepeatedIdEndsBatch(tasks, init);
      if DistinctIds(init) {
        LastRepeats(items);
        BatchOutcome(tasks, init, last.id, 0);
        UnlockedEnds(ApplyEdits(tasks, init).0, last);
      }
    }
  }

  /** So any accepted batch does to each task what its items up to the first repetition ask for. */
  lemma AnyBatchOutcome(tasks: TaskMap, items: seq<EditItem>, k: TaskId, d: TaskId)
    requires AllLocked(tasks, items) && LockedOnce(tasks) && k in tasks
    ensures var (after, ok) := ApplyEdits(tasks, items);
      && (ok <==> DistinctIds(items)) && after.Keys == tasks.Keys
      && EditedAsAsked(tasks, Effective(items), after, k, d)
  {
    hide ApplyEdits, EditedAsAsked, LockedOnce;
    RepeatedIdEndsBatch(tasks, items);
    assert AllLocked(tasks, Effective(items));
    BatchOutcome(tasks, Effective(items), k, d);
  }

  lemma LastRepeats(items: seq<EditItem>)
    requires items != [] && !DistinctIds(items) && DistinctIds(items[..|items| - 1])
    ensures items[|items| - 1].id in EditedIds(items[..|items| - 1])
  {
    var n := |items| - 1;
    forall i, j | 0 <= i < j < n ensures items[i].id != items[j].id {
      assert items[..n][i] == items[i] && items[..n][j] == items[j];
    }
    var i, j :| 0 <= i < j < |items| && items[i].id == items[j].id;
    assert items[..n][i].id == items[n].id;
  }

  lemma BatchGoesThrough(tasks: TaskMap, items: seq<EditItem>)
    requires AllLocked(tasks, items) && DistinctIds(items)
    ensures ApplyEdits(tasks, items).1
  {
    if items != [] { BatchOutcome(tasks, items, items[0].id, 0); }
  }

  lemma UnlockedEnds(tasks: TaskMap, item: EditItem)
    requires item.id in tasks && !tasks[item.id].status.Locked?
    ensures ApplyEdits(tasks, [item]) == (tasks, false)
  {
  }

  // -- exactly when a batch closes a cycle ----------------------------------------------------------------------

  /** `d` is `b`, or depends on it in the graph before the batch without passing an edited task. */
  ghost predicate LeadsPastEdited(tasks: TaskMap, edited: set<TaskId>, d: TaskId, b: TaskId) {
    exists p :: ChainBetween(tasks, p, d, b) && forall m :: 0 <= m < |p| - 1 ==> p[m] !in edited
  }

  /** A new dependency of `a` is, or leads to, the edited task `b`. */
  ghost predicate Feeds(tasks: TaskMap, items: seq<EditItem>, a: TaskId, b: TaskId) {
    exists d :: Asks(items, a, d) && LeadsPastEdited(tasks, EditedIds(items), d, b)
  }

  /** The edited tasks with an edge wherever one feeds another; read off the request and the graph
      before it. */
  ghost function FeedGraph(tasks: TaskMap, items: seq<EditItem>): TaskMap {
    map a | a in tasks && a in EditedIds(items) ::
      tasks[a].(dependencies := set b | b in EditedIds(items) && Feeds(tasks, items, a, b))
  }

  lemma LeadsTrans(tasks: TaskMap, a: TaskId, b: TaskId, c: TaskId)
    requires Leads(tasks, a, b) && Leads(tasks, b, c)
    ensures Leads(tasks, a, c)
  {
    var p :| ChainBetween(tasks, p, a, b) && |p| >= 2;
    var q :| ChainBetween(tasks, q, b, c) && |q| >= 2;
    var r := p + q[1..];
    forall i | 0 <= i < |r| - 1 ensures r[i] in tasks && r[i + 1] in tasks[r[i]].dependencies {
      if i < |p| - 1 {
        assert r[i] == p[i] && r[i + 1] == p[i + 1];
      } else {
        assert r[i] == q[i + 1 - |p|] && r[i + 1] == q[i + 1 - |p| + 1];
      }
    }
    assert ChainBetween(tasks, r, a, c);
  }

  /** A feeding edge is a walk of the edited graph. */
  lemma FeedLeads(tasks: TaskMap, items: seq<EditItem>, a: TaskId, b: TaskId)
    requires AllLocked(tasks, items) && DistinctIds(items) && a in tasks && a in EditedIds(items)
    requires Feeds(tasks, items, a, b)
    ensures Leads(ApplyEdits(tasks, items).0, a, b)
  {
    hide ApplyEdits, EditedIds, Asks, DistinctIds, AllLocked;
    var after := ApplyEdits(tasks, items).0;
    var d :| Asks(items, a, d) && LeadsPastEdited(tasks, EditedIds(items), d, b);
    var p :| ChainBetween(tasks, p, d, b) && forall m :: 0 <= m < |p| - 1 ==> p[m] !in EditedIds(items);
    var q := [a] + p;
    BatchOutcome(tasks, items, a, d);
    forall i | 0 <= i < |q| - 1 ensures q[i] in after && q[i + 1] in after[q[i]].dependencies {
      if i > 0 {
        assert q[i] == p[i - 1] && q[i + 1] == p[i - 1 + 1];
        BatchOutcome(tasks, items, q[i], q[i + 1]);
      }
    }
    assert ChainBetween(after, q, a, b);
  }

  lemma {:induction false} FeedChainLeads(tasks: TaskMap, items: seq<EditItem>, f: seq<TaskId>)
    requires AllLocked(tasks, items) && DistinctIds(items)
    requires Chain(FeedGraph(tasks, items), f) && |f| >= 2
    ensures Leads(ApplyEdits(tasks, items).0, f[0], f[|f| - 1])
  {
    hide ApplyEdits, EditedIds, Feeds, DistinctIds, AllLocked, Leads;
    var feed := FeedGraph(tasks, items);
    assert f[0] in feed && f[0 + 1] in feed[f[0]].dependencies;
    FeedLeads(tasks, items, f[0], f[1]);
    if |f| > 2 {
      ChainSlice(feed, f, 1, |f| - 1);
      assert f[1..|f| - 1 + 1] == f[1..];
      FeedChainLeads(tasks, items, f[1..]);
      LeadsTrans(ApplyEdits(tasks, items).0, f[0], f[1], f[|f| - 1]);
    }
  }

  /** The walk from an edited task to the next edited one is a feeding edge. */
  lemma NextEdited(tasks: TaskMap, items: seq<EditItem>, q: seq<TaskId>) returns (m: nat)
    requires AllLocked(tasks, items) && DistinctIds(items)
    requires Chain(ApplyEdits(tasks, items).0, q) && |q| >= 2
    requires q[0] in EditedIds(items) && q[|q| - 1] in EditedIds(items)
    ensures 1 <= m < |q| && q[0] in tasks && q[m] in EditedIds(items) && Feeds(tasks, items, q[0], q[m])
  {
    hide ApplyEdits, EditedIds, Asks, DistinctIds, AllLocked;
    var after := ApplyEdits(tasks, items).0;
    m := 1;
    while q[m] !in EditedIds(items)
      invariant 1 <= m < |q|
      invariant forall i :: 1 <= i < m ==> q[i] !in EditedIds(items)
      decreases |q| - m
    {
      m := m + 1;
    }
    SameKeys(tasks, items);
    assert q[0] in after && q[0 + 1] in after[q[0]].dependencies;
    BatchOutcome(tasks, items, q[0], q[1]);
    var p := q[1..m + 1];
    forall i | 0 <= i < |p| - 1
      ensures p[i] in tasks && p[i + 1] in tasks[p[i]].dependencies && p[i] !in EditedIds(items)
    {
      assert p[i] == q[i + 1] && p[i + 1] == q[i + 1 + 1];
      BatchOutcome(tasks, items, p[i], p[i + 1]);
    }
    assert ChainBetween(tasks, p, q[1], q[m]);
    assert LeadsPastEdited(tasks, EditedIds(items), q[1], q[m]);
  }

  lemma SameKeys(tasks: TaskMap, items: seq<EditItem>)
    requires AllLocked(tasks, items) && DistinctIds(items)
    ensures ApplyEdits(tasks, items).0.Keys == tasks.Keys
  {
    if items != [] { BatchOutcome(tasks, items, items[0].id, 0); }
  }

  /** Every walk of the edited graph between edited tasks is a walk of feeding edges. */
  lemma {:induction false} WalkIsFed(tasks: TaskMap, items: seq<EditItem>, q: seq<TaskId>) returns (f: seq<TaskId>)
    requires AllLocked(tasks, items) && DistinctIds(items)
    requires Chain(ApplyEdits(tasks, items).0, q) && |q| >= 2
    requires q[0] in EditedIds(items) && q[|q| - 1] in EditedIds(items)
    ensures ChainBetween(FeedGraph(tasks, items), f, q[0], q[|q| - 1]) && |f| >= 2
    decreases |q|
  {
    hide ApplyEdits, EditedIds, Feeds, DistinctIds, AllLocked;
    var m := NextEdited(tasks, items, q);
    var feed := FeedGraph(tasks, items);
    assert q[0] in feed && q[m] in feed[q[0]].dependencies;
    if m == |q| - 1 {
      f := [q[0], q[m]];
    } else {
      ChainSlice(ApplyEdits(tasks, items).0, q, m, |q| - 1);
      assert q[m..|q| - 1 + 1] == q[m..];
      var rest := WalkIsFed(tasks, items, q[m..]);
      f := [q[0]] + rest;
      forall i | 0 <= i < |f| - 1 ensures f[i] in feed && f[i + 1] in feed[f[i]].dependencies {
        if i > 0 { assert f[i] == rest[i - 1] && f[i + 1] == rest[i - 1 + 1]; }
      }
    }
  }

  /** A circular chain can be entered at any of its tasks. */
  lemma CycleRotates(tasks: TaskMap, p: seq<TaskId>, i: nat)
    requires Chain(tasks, p) && |p| >= 2 && p[0] == p[|p| - 1] && i < |p| - 1
    ensures Leads(tasks, p[i], p[i])
  {
    var q := p[i..] + p[1..i + 1];
    var back := |p| - 1 - i;
    forall m | 0 <= m < |q| - 1 ensures q[m] in tasks && q[m + 1] in tasks[q[m]].dependencies {
      if m < back {
        assert q[m] == p[i + m] && q[m + 1] == p[i + m + 1];
      } else {
        assert q[m] == p[m - back] && q[m + 1] == p[m - back + 1];
      }
    }
    assert ChainBetween(tasks, q, p[i], p[i]) && |q| >= 2;
  }

  /** Only edited tasks can have new edges, so a new cycle runs through one of them. */
  lemma NewCycleMeetsEdited(tasks: TaskMap, items: seq<EditItem>, p: seq<TaskId>) returns (i: nat)
    requires Acyclic(tasks) && AllLocked(tasks, items) && DistinctIds(items)
    requires Chain(ApplyEdits(tasks, items).0, p) && |p| >= 2 && p[0] == p[|p| - 1]
    ensures i < |p| - 1 && p[i] in EditedIds(items)
  {
    hide Acyclic, ApplyEdits, EditedIds, AllLocked, DistinctIds;
    SameKeys(tasks, items);
    if forall m :: 0 <= m < |p| - 1 ==> p[m] !in EditedIds(items) {
      forall m | 0 <= m < |p| - 1 ensures p[m] in tasks && p[m + 1] in tasks[p[m]].dependencies {
        BatchOutcome(tasks, items, p[m], p[m + 1]);
      }
      assert Circular(tasks);
      AcyclicNotCircular(tasks);
    }
    i :| 0 <= i < |p| - 1 && p[i] in EditedIds(items);
  }

  lemma DistinctBatchIff(tasks: TaskMap, items: seq<EditItem>)
    requires Acyclic(tasks) && AllLocked(tasks, items) && DistinctIds(items)
    ensures Acyclic(ApplyEdits(tasks, items).0) <==> !Circular(FeedGraph(tasks, items))
  {
    hide Acyclic, ApplyEdits, EditedIds, FeedGraph, AllLocked, DistinctIds;
    var after := ApplyEdits(tasks, items).0;
    AcyclicIffNotCircular(after);
    if Circular(after) {
      var p :| Chain(after, p) && |p| >= 2 && p[0] == p[|p| - 1];
      var i := NewCycleMeetsEdited(tasks, items, p);
      CycleRotates(after, p, i);
      var q :| ChainBetween(after, q, p[i], p[i]) && |q| >= 2;
      var f := WalkIsFed(tasks, items, q);
      assert Circular(FeedGraph(tasks, items));
    }
    if Circular(FeedGraph(tasks, items)) {
      var f :| Chain(FeedGraph(tasks, items), f) && |f| >= 2 && f[0] == f[|f| - 1];
      FeedChainLeads(tasks, items, f);
      assert Circular(after);
    }
  }

  lemma EffectiveLocked(tasks: TaskMap, items: seq<EditItem>)
    requires AllLocked(tasks, items)
    ensures AllLocked(tasks, Effective(items))
  {
    forall i | 0 <= i < |Effective(items)| ensures Effective(items)[i] == items[i] {
    }
  }

  /** A batch keeps the graph free of cycles exactly when no edited task feeds itself, directly or
      through other edited tasks: a condition on the request and the graph before it. */
  lemma BatchAcyclicIff(tasks: TaskMap, items: seq<EditItem>)
    requires Acyclic(tasks) && AllLocked(tasks, items) && LockedOnce(tasks)
    ensures Acyclic(ApplyEdits(tasks, items).0) <==> !Circular(FeedGraph(tasks, Effective(items)))
  {
    hide Acyclic, ApplyEdits, FeedGraph, AllLocked, DistinctIds, Effective, Circular;
    RepeatedIdEndsBatch(tasks, items);
    EffectiveLocked(tasks, items);
    DistinctBatchIff(tasks, Effective(items));
  }

  ghost predicate Edgeless(tasks: TaskMap) {
    forall k :: k in tasks ==> tasks[k].dependencies == {} && tasks[k].dependents == {}
  }

  lemma EdgelessIsExact(tasks: TaskMap)
    requires Edgeless(tasks)
    ensures ExactIndex(tasks) && Acyclic(tasks)
  {
    assert Ranked(tasks, map k | k in tasks :: 0, 0);
  }

  lemma EdgelessAccepts(tasks: TaskMap, item: EditItem)
    requires Edgeless(tasks) && item.id in tasks && tasks[item.id].status.Locked?
    requires forall d :: d in item.dependencies ==> d in tasks && d != item.id
    ensures EditAccepted(tasks, item)
  {
    forall d | d in item.dependencies ensures !Leads(tasks, d, item.id) {
      NoEdgesNoLead(tasks, d, item.id);
    }
  }

  /** Each item is checked against the graph before the edit, so such a pair is accepted
      whenever neither task has a dependency yet. */
  lemma MutualEditsAreAccepted(tasks: TaskMap, first: EditItem, second: EditItem)
    requires Edgeless(tasks) && first.id != second.id
    requires first.id in tasks && tasks[first.id].status.Locked? && first.dependencies == [second.id]
    requires second.id in tasks && tasks[second.id].status.Locked? && second.dependencies == [first.id]
    ensures ExactIndex(tasks) && Acyclic(tasks) && BatchAccepted(tasks, [first] + [second])
    ensures ApplyEdits(tasks, [first] + [second]).1
    ensures !Acyclic(ApplyEdits(tasks, [first] + [second]).0)
  {
    hide Edited, Acyclic, ExactIndex, Agree, Edgeless, EditAccepted;
    EdgelessIsExact(tasks);
    EdgelessAccepts(tasks, first);
    EdgelessAccepts(tasks, second);
    MutualEditsCloseCycle(tasks, first, second);
    AcyclicIffNotCircular(ApplyEdits(tasks, [first] + [second]).0);
  }

  lemma NoEdgesNoLead(tasks: TaskMap, a: TaskId, b: TaskId)
    requires forall k :: k in tasks ==> tasks[k].dependencies == {}
    ensures !Leads(tasks, a, b)
  {
  }
}
