/** The dependency graph held in the task records, its hand-maintained reverse index,
    and what it means for the two to agree. */
module DependencyGraph {
  import opened Lists
  import opened Tasks

  /** Every record knows the key it is stored under. */
  ghost predicate KeyedById(tasks: TaskMap) {
    forall k :: k in tasks ==> tasks[k].id == k
  }

  /** `dependents` is the inverse of `dependencies` among the existing tasks. */
  ghost predicate Agree(tasks: TaskMap) {
    forall a, b :: a in tasks && b in tasks ==> (b in tasks[a].dependents <==> a in tasks[b].dependencies)
  }

  /** No index entry names a task that is gone. */
  ghost predicate NoStaleDependents(tasks: TaskMap) {
    forall a, b :: a in tasks && b in tasks[a].dependents ==> b in tasks
  }

  ghost predicate ExactIndex(tasks: TaskMap) {
    Agree(tasks) && NoStaleDependents(tasks)
  }

  /** All dependencies of unfinished tasks still exist. */
  ghost predicate Live(tasks: TaskMap) {
    forall k, d :: k in tasks && !IsDone(tasks[k]) && d in tasks[k].dependencies ==> d in tasks
  }

  /** A numbering that decreases along every edge between existing tasks. */
  ghost predicate Ranked(tasks: TaskMap, rank: map<TaskId, int>, bound: int) {
    && 0 <= bound
    && (forall k :: k in tasks ==> k in rank && 0 <= rank[k] <= bound)
    && (forall k, d :: k in tasks && d in tasks && d in tasks[k].dependencies ==>
          k in rank && d in rank && rank[d] < rank[k])
  }

  ghost predicate Acyclic(tasks: TaskMap) {
    exists rank: map<TaskId, int>, bound: int :: Ranked(tasks, rank, bound)
  }

  /** A walk along dependencies: each element but the last is a task that lists the next one. */
  ghost predicate Chain(tasks: TaskMap, p: seq<TaskId>) {
    && p != []
    && forall i {:trigger p[i]} :: 0 <= i < |p| - 1 ==> p[i] in tasks && p[i + 1] in tasks[p[i]].dependencies
  }

  ghost predicate ChainBetween(tasks: TaskMap, p: seq<TaskId>, a: TaskId, b: TaskId) {
    Chain(tasks, p) && p[0] == a && p[|p| - 1] == b
  }

  /** `a` is `b`, or depends on `b` directly or through other tasks. */
  ghost predicate Reaches(tasks: TaskMap, a: TaskId, b: TaskId) {
    exists p :: ChainBetween(tasks, p, a, b)
  }

  /** Some task depends on itself, directly or through others. */
  ghost predicate Circular(tasks: TaskMap) {
    exists p :: Chain(tasks, p) && |p| >= 2 && p[0] == p[|p| - 1]
  }

  lemma ReachesSelf(tasks: TaskMap, a: TaskId)
    ensures Reaches(tasks, a, a)
  {
    assert ChainBetween(tasks, [a], a, a);
  }

  lemma ReachesStep(tasks: TaskMap, a: TaskId, d: TaskId, b: TaskId)
    requires a in tasks && d in tasks[a].dependencies && Reaches(tasks, d, b)
    ensures Reaches(tasks, a, b)
  {
    var p :| ChainBetween(tasks, p, d, b);
    var q := [a] + p;
    forall i | 0 <= i < |q| - 1 ensures q[i] in tasks && q[i + 1] in tasks[q[i]].dependencies {
      if i > 0 { assert q[i] == p[i - 1] && q[i + 1] == p[i]; }
    }
    assert ChainBetween(tasks, q, a, b);
  }

  lemma ChainSlice(tasks: TaskMap, p: seq<TaskId>, i: nat, j: nat)
    requires Chain(tasks, p) && i <= j < |p|
    ensures Chain(tasks, p[i..j + 1])
    ensures p[i..j + 1][0] == p[i] && p[i..j + 1][j - i] == p[j]
  {
    var q := p[i..j + 1];
    forall m | 0 <= m < |q| - 1 ensures q[m] in tasks && q[m + 1] in tasks[q[m]].dependencies {
      assert q[m] == p[i + m] && q[m + 1] == p[i + m + 1];
    }
  }

  /** Nothing outside a set closed under dependencies can be reached from inside it. */
  lemma {:induction false} ClosedSetTrapsChain(tasks: TaskMap, closed: set<TaskId>, p: seq<TaskId>)
    requires Chain(tasks, p) && p[0] in closed
    requires forall x, d :: x in closed && x in tasks && d in tasks[x].dependencies ==> d in closed
    ensures p[|p| - 1] in closed
  {
    if |p| > 1 {
      assert p[0 + 1] in tasks[p[0]].dependencies;
      var q := p[1..];
      assert p[1..|p| - 1 + 1] == q;
      ChainSlice(tasks, p, 1, |p| - 1);
      ClosedSetTrapsChain(tasks, closed, q);
      assert q[|q| - 1] == p[|p| - 1];
    }
  }

  /** Ranks fall along a chain that ends in an existing task. */
  lemma {:induction false} RankFallsAlongChain(tasks: TaskMap, rank: map<TaskId, int>, bound: int, p: seq<TaskId>)
    requires Ranked(tasks, rank, bound) && Chain(tasks, p) && |p| >= 2 && p[|p| - 1] in tasks
    ensures rank[p[|p| - 1]] < rank[p[0]]
  {
    assert p[0] in tasks && p[0 + 1] in tasks[p[0]].dependencies;
    if |p| > 2 {
      var q := p[1..];
      assert p[1..|p| - 1 + 1] == q;
      ChainSlice(tasks, p, 1, |p| - 1);
      assert q[|q| - 1] == p[|p| - 1];
      RankFallsAlongChain(tasks, rank, bound, q);
      assert p[1] in tasks by { assert q[0] in tasks; }
    }
  }

  lemma AcyclicNotCircular(tasks: TaskMap)
    requires Acyclic(tasks)
    ensures !Circular(tasks)
  {
    var rank: map<TaskId, int>, bound: int :| Ranked(tasks, rank, bound);
    forall p | Chain(tasks, p) && |p| >= 2 ensures p[0] != p[|p| - 1] {
      if p[0] == p[|p| - 1] {
        assert p[0] in tasks;
        RankFallsAlongChain(tasks, rank, bound, p);
      }
    }
  }

  // -- the converse: a graph without circular chains can be ranked ------------------------------------------

  ghost predicate HasPresentDependency(tasks: TaskMap, k: TaskId)
    requires k in tasks
  {
    exists d :: d in tasks[k].dependencies && d in tasks
  }

  lemma {:induction false} NoDuplicatesFits(p: seq<TaskId>, universe: set<TaskId>)
    requires NoDuplicates(p) && forall x :: x in p ==> x in universe
    ensures |p| <= |universe|
  {
    if p != [] {
      var last := p[|p| - 1];
      var rest := p[..|p| - 1];
      forall x | x in rest ensures x in universe - {last} {
        var i :| 0 <= i < |rest| && rest[i] == x;
        assert p[i] == x;
      }
      NoDuplicatesFits(rest, universe - {last});
    }
  }

  /** Where every task has a dependency that exists, one can walk as far as one likes. */
  lemma {:induction false} LongChain(tasks: TaskMap, n: nat) returns (p: seq<TaskId>)
    requires tasks != map[] && forall k :: k in tasks ==> HasPresentDependency(tasks, k)
    ensures Chain(tasks, p) && |p| == n + 1 && forall x :: x in p ==> x in tasks
  {
    if n == 0 {
      var k :| k in tasks;
      p := [k];
    } else {
      var q := LongChain(tasks, n - 1);
      var last := q[|q| - 1];
      assert last in tasks;
      var d :| d in tasks[last].dependencies && d in tasks;
      p := q + [d];
      forall i | 0 <= i < |p| - 1 ensures p[i] in tasks && p[i + 1] in tasks[p[i]].dependencies {
        if i < |q| - 1 { assert q[i] in tasks && q[i + 1] in tasks[q[i]].dependencies; }
      }
    }
  }

  lemma RepeatIsCircular(tasks: TaskMap, p: seq<TaskId>)
    requires Chain(tasks, p) && !NoDuplicates(p)
    ensures Circular(tasks)
  {
    var i, j :| 0 <= i < j < |p| && p[i] == p[j];
    ChainSlice(tasks, p, i, j);
    var q := p[i..j + 1];
    assert Chain(tasks, q) && |q| >= 2 && q[0] == q[|q| - 1];
  }

  lemma EveryoneWaitingIsCircular(tasks: TaskMap)
    requires tasks != map[] && forall k :: k in tasks ==> HasPresentDependency(tasks, k)
    ensures Circular(tasks)
  {
    var p := LongChain(tasks, |tasks.Keys|);
    if NoDuplicates(p) {
      NoDuplicatesFits(p, tasks.Keys);
    }
    RepeatIsCircular(tasks, p);
  }

  /** A task that waits for nothing can be put below a ranking of the others. */
  lemma RankBelow(tasks: TaskMap, k: TaskId, rank: map<TaskId, int>, bound: int)
    requires k in tasks && !HasPresentDependency(tasks, k) && Ranked(tasks - {k}, rank, bound)
    ensures Acyclic(tasks)
  {
    var rest := tasks - {k};
    var lifted := map x | x in tasks :: if x == k then 0 else rank[x] + 1;
    forall x, d | x in tasks && d in tasks && d in tasks[x].dependencies ensures lifted[d] < lifted[x] {
      assert x != k;
      assert x in rest && rest[x] == tasks[x];
    }
    assert Ranked(tasks, lifted, bound + 1);
  }

  lemma {:induction false} NotCircularAcyclic(tasks: TaskMap)
    requires !Circular(tasks)
    ensures Acyclic(tasks)
    decreases |tasks|
  {
    if tasks == map[] {
      assert Ranked(tasks, map[], 0);
    } else {
      if forall k :: k in tasks ==> HasPresentDependency(tasks, k) {
        EveryoneWaitingIsCircular(tasks);
      }
      var k :| k in tasks && !HasPresentDependency(tasks, k);
      RemoveKeepsNotCircular(tasks, k);
      NotCircularAcyclic(tasks - {k});
      var rank: map<TaskId, int>, bound: int :| Ranked(tasks - {k}, rank, bound);
      RankBelow(tasks, k, rank, bound);
    }
  }

  lemma RemoveKeepsNotCircular(tasks: TaskMap, k: TaskId)
    requires k in tasks && !Circular(tasks)
    ensures !Circular(tasks - {k}) && |tasks - {k}| < |tasks|
  {
    var rest := tasks - {k};
    assert rest.Keys == tasks.Keys - {k};
    assert |rest.Keys| == |tasks.Keys| - 1;
    forall p | Chain(rest, p) && |p| >= 2 ensures p[0] != p[|p| - 1] {
      assert Chain(tasks, p);
    }
  }

  /** Ranked graphs are exactly the graphs in which no task waits for itself. */
  lemma AcyclicIffNotCircular(tasks: TaskMap)
    ensures Acyclic(tasks) <==> !Circular(tasks)
  {
    if Acyclic(tasks) { AcyclicNotCircular(tasks); }
    if !Circular(tasks) { NotCircularAcyclic(tasks); }
  }

  // -- steps that leave the graph alone ---------------------------------------------------------------------

  /** Same tasks with the same edges; status, group, priority and details may differ. */
  ghost predicate SameGraph(before: TaskMap, after: TaskMap) {
    && before.Keys == after.Keys
    && forall k :: k in before ==>
         && after[k].id == before[k].id
         && after[k].dependencies == before[k].dependencies
         && after[k].dependents == before[k].dependents
  }

  lemma SameGraphKeeps(before: TaskMap, after: TaskMap)
    requires SameGraph(before, after)
    ensures KeyedById(before) ==> KeyedById(after)
    ensures Agree(before) ==> Agree(after)
    ensures NoStaleDependents(before) ==> NoStaleDependents(after)
    ensures Acyclic(before) ==> Acyclic(after)
  {
    if Acyclic(before) {
      var rank: map<TaskId, int>, bound: int :| Ranked(before, rank, bound);
      assert Ranked(after, rank, bound);
    }
  }
}
