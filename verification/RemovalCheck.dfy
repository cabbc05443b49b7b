/** The daemon's recursive test whether a task may be removed, and exactly when it answers. */
module RemovalCheck {
  import opened Lists
  import opened Tasks
  import opened DependencyGraph

  /** The existing, unfinished tasks listed as depending on `id`. */
  function ActiveDependants(tasks: TaskMap, id: TaskId): set<TaskId> {
    if id in tasks then set d | d in tasks[id].dependents && d in tasks && !IsDone(tasks[d]) else {}
  }

  // -- the check --------------------------------------------------------------------------------------------

  /** The check with at most `fuel` calls inside one another: its verdict, or nothing if it is not over.
      Dependants are taken in ascending order, and the first refusal ends it. */
  function IsTaskRemovable(tasks: TaskMap, id: TaskId, toDelete: set<TaskId>, fuel: nat): Option<bool>
    decreases fuel, 0
  {
    if id !in tasks then Some(true)
    else
      var dependants := ActiveDependants(tasks, id);
      if dependants == {} then Some(true)
      else if !(dependants <= toDelete) then Some(false)
      else if fuel == 0 then None
      else AllRemovable(tasks, SortedSeq(dependants), toDelete, fuel - 1)
  }

  function AllRemovable(tasks: TaskMap, list: seq<TaskId>, toDelete: set<TaskId>, fuel: nat): Option<bool>
    decreases fuel, |list| + 1
  {
    if list == [] then Some(true)
    else
      match IsTaskRemovable(tasks, list[0], toDelete, fuel)
      case None => None
      case Some(false) => Some(false)
      case Some(true) => AllRemovable(tasks, list[1..], toDelete, fuel)
  }

  /** The recursion as the daemon runs it, given that it comes to an end. */
  method CheckRemovable(tasks: TaskMap, id: TaskId, toDelete: set<TaskId>, ghost fuel: nat) returns (ok: bool)
    requires IsTaskRemovable(tasks, id, toDelete, fuel).Some?
    ensures IsTaskRemovable(tasks, id, toDelete, fuel) == Some(ok)
    decreases fuel
  {
    if id !in tasks {
      return true;
    }
    var dependants := SortedSeq(ActiveDependants(tasks, id));
    if dependants == [] {
      NoMembers(ActiveDependants(tasks, id));
      return true;
    }
    assert dependants[0] in ActiveDependants(tasks, id);
    if !(ActiveDependants(tasks, id) <= toDelete) {
      return false;
    }
    for i := 0 to |dependants|
      invariant AllRemovable(tasks, dependants, toDelete, fuel - 1) ==
                AllRemovable(tasks, dependants[i..], toDelete, fuel - 1)
    {
      assert dependants[i..][0] == dependants[i] && dependants[i..][1..] == dependants[i + 1..];
      var removable := CheckRemovable(tasks, dependants[i], toDelete, fuel - 1);
      if !removable {
        return false;
      }
    }
    return true;
  }

  lemma NoMembers(s: set<TaskId>)
    ensures SortedSeq(s) == [] ==> s == {}
  {
    assert |SortedSeq(s)| == |s|;
  }

  // -- more fuel does not change a verdict ------------------------------------------------------------------

  lemma {:induction false} MoreFuel(tasks: TaskMap, id: TaskId, toDelete: set<TaskId>, fuel: nat, more: nat)
    requires IsTaskRemovable(tasks, id, toDelete, fuel).Some? && fuel <= more
    ensures IsTaskRemovable(tasks, id, toDelete, more) == IsTaskRemovable(tasks, id, toDelete, fuel)
    decreases fuel, 0
  {
    var dependants := ActiveDependants(tasks, id);
    if id in tasks && dependants != {} && dependants <= toDelete {
      MoreFuelForAll(tasks, SortedSeq(dependants), toDelete, fuel - 1, more - 1);
    }
  }

  lemma {:induction false} MoreFuelForAll(tasks: TaskMap, list: seq<TaskId>, toDelete: set<TaskId>,
                                          fuel: nat, more: nat)
    requires AllRemovable(tasks, list, toDelete, fuel).Some? && fuel <= more
    ensures AllRemovable(tasks, list, toDelete, more) == AllRemovable(tasks, list, toDelete, fuel)
    decreases fuel, |list| + 1
  {
    if list != [] {
      MoreFuel(tasks, list[0], toDelete, fuel, more);
      if IsTaskRemovable(tasks, list[0], toDelete, fuel) == Some(true) {
        MoreFuelForAll(tasks, list[1..], toDelete, fuel, more);
      }
    }
  }

  /** The list is gone through up to the first refusal. */
  lemma {:induction false} AllSayYes(tasks: TaskMap, list: seq<TaskId>, toDelete: set<TaskId>, fuel: nat)
    ensures AllRemovable(tasks, list, toDelete, fuel) == Some(true) <==>
            forall i :: 0 <= i < |list| ==> IsTaskRemovable(tasks, list[i], toDelete, fuel) == Some(true)
  {
    hide IsTaskRemovable;
    if list != [] {
      AllSayYes(tasks, list[1..], toDelete, fuel);
      assert forall i :: 0 <= i < |list[1..]| ==> list[1..][i] == list[i + 1];
      assert forall i :: 0 < i < |list| ==> list[i] == list[1..][i - 1];
    }
  }

  ghost predicate RefusesAt(tasks: TaskMap, list: seq<TaskId>, toDelete: set<TaskId>, fuel: nat, i: nat)
    requires i < |list|
  {
    && IsTaskRemovable(tasks, list[i], toDelete, fuel) == Some(false)
    && forall j :: 0 <= j < i ==> IsTaskRemovable(tasks, list[j], toDelete, fuel) == Some(true)
  }

  lemma {:induction false} OneSaysNo(tasks: TaskMap, list: seq<TaskId>, toDelete: set<TaskId>, fuel: nat)
    returns (i: nat)
    requires AllRemovable(tasks, list, toDelete, fuel) == Some(false)
    ensures i < |list| && RefusesAt(tasks, list, toDelete, fuel, i)
  {
    hide IsTaskRemovable;
    if IsTaskRemovable(tasks, list[0], toDelete, fuel) == Some(false) {
      i := 0;
    } else {
      var j := OneSaysNo(tasks, list[1..], toDelete, fuel);
      i := j + 1;
      forall m | 0 <= m < i ensures IsTaskRemovable(tasks, list[m], toDelete, fuel) == Some(true) {
        if m > 0 { assert list[m] == list[1..][m - 1]; }
      }
    }
  }

  lemma {:induction false} NoIsReached(tasks: TaskMap, list: seq<TaskId>, toDelete: set<TaskId>, fuel: nat, i: nat)
    requires i < |list| && RefusesAt(tasks, list, toDelete, fuel, i)
    ensures AllRemovable(tasks, list, toDelete, fuel) == Some(false)
  {
    hide IsTaskRemovable;
    if i > 0 {
      forall j | 0 <= j < i ensures list[1..][j] == list[j + 1] {
      }
      NoIsReached(tasks, list[1..], toDelete, fuel, i - 1);
    }
  }

  // -- who waits for whom -----------------------------------------------------------------------------------

  ghost predicate ActiveChain(tasks: TaskMap, p: seq<TaskId>) {
    |p| >= 2 && forall i {:trigger p[i]} :: 0 <= i < |p| - 1 ==> p[i + 1] in ActiveDependants(tasks, p[i])
  }

  ghost predicate ActiveChainBetween(tasks: TaskMap, p: seq<TaskId>, id: TaskId, r: TaskId) {
    ActiveChain(tasks, p) && p[0] == id && p[|p| - 1] == r
  }

  /** `r` is unfinished and waits for `id`, through unfinished tasks only. */
  ghost predicate WaitsFor(tasks: TaskMap, r: TaskId, id: TaskId) {
    exists p :: ActiveChainBetween(tasks, p, id, r)
  }

  lemma DirectWaits(tasks: TaskMap, d: TaskId, id: TaskId)
    requires d in ActiveDependants(tasks, id)
    ensures WaitsFor(tasks, d, id)
  {
    assert ActiveChainBetween(tasks, [id, d], id, d);
  }

  lemma WaitsThrough(tasks: TaskMap, r: TaskId, d: TaskId, id: TaskId)
    requires d in ActiveDependants(tasks, id) && WaitsFor(tasks, r, d)
    ensures WaitsFor(tasks, r, id)
  {
    var p :| ActiveChainBetween(tasks, p, d, r);
    var q := [id] + p;
    forall i | 0 <= i < |q| - 1 ensures q[i + 1] in ActiveDependants(tasks, q[i]) {
      if i > 0 { assert q[i] == p[i - 1] && q[i + 1] == p[i - 1 + 1]; }
    }
    assert ActiveChainBetween(tasks, q, id, r);
  }

  /** The first step of a wait: directly, or through a direct dependant. */
  lemma WaitsSplit(tasks: TaskMap, r: TaskId, id: TaskId)
    requires WaitsFor(tasks, r, id)
    ensures exists d :: d in ActiveDependants(tasks, id) && (d == r || WaitsFor(tasks, r, d))
  {
    var p :| ActiveChainBetween(tasks, p, id, r);
    assert p[0 + 1] in ActiveDependants(tasks, p[0]);
    if |p| > 2 {
      var q := p[1..];
      forall i | 0 <= i < |q| - 1 ensures q[i + 1] in ActiveDependants(tasks, q[i]) {
        assert q[i] == p[i + 1] && q[i + 1] == p[i + 1 + 1];
      }
      assert ActiveChainBetween(tasks, q, p[1], r);
    }
  }

  /** A verdict, once there is one, says whether everyone who waits is to be deleted too. */
  lemma {:induction false} RemovableIffWaitersDeleted(tasks: TaskMap, id: TaskId, toDelete: set<TaskId>, fuel: nat)
    requires IsTaskRemovable(tasks, id, toDelete, fuel).Some?
    ensures IsTaskRemovable(tasks, id, toDelete, fuel) == Some(true) <==>
            forall r :: WaitsFor(tasks, r, id) ==> r in toDelete
    decreases fuel
  {
    hide WaitsFor, IsTaskRemovable, AllRemovable;
    var dependants := ActiveDependants(tasks, id);
    forall d | d in dependants ensures WaitsFor(tasks, d, id) {
      DirectWaits(tasks, d, id);
    }
    CheckUnfolds(tasks, id, toDelete, fuel);
    if dependants <= toDelete && dependants != {} {
      var list := SortedSeq(dependants);
      AllSayYes(tasks, list, toDelete, fuel - 1);
      if IsTaskRemovable(tasks, id, toDelete, fuel).value {
        forall r | WaitsFor(tasks, r, id) ensures r in toDelete {
          WaitsSplit(tasks, r, id);
          var d :| d in dependants && (d == r || WaitsFor(tasks, r, d));
          assert d in list;
          RemovableIffWaitersDeleted(tasks, d, toDelete, fuel - 1);
        }
      } else {
        var i := OneSaysNo(tasks, list, toDelete, fuel - 1);
        assert list[i] in list;
        RemovableIffWaitersDeleted(tasks, list[i], toDelete, fuel - 1);
        var r :| WaitsFor(tasks, r, list[i]) && r !in toDelete;
        WaitsThrough(tasks, r, list[i], id);
      }
    } else {
      if r :| WaitsFor(tasks, r, id) { WaitsSplit(tasks, r, id); }
    }
  }

  lemma CheckUnfolds(tasks: TaskMap, id: TaskId, toDelete: set<TaskId>, fuel: nat)
    ensures var dependants := ActiveDependants(tasks, id);
      IsTaskRemovable(tasks, id, toDelete, fuel) ==
      if dependants == {} then Some(true)
      else if !(dependants <= toDelete) then Some(false)
      else if fuel == 0 then None
      else AllRemovable(tasks, SortedSeq(dependants), toDelete, fuel - 1)
  {
  }

  // -- exactly when the check answers, and what -------------------------------------------------------------

  /** Where the recursion can go: from a task whose unfinished dependants are all to be deleted, to
      each of these. */
  ghost function RecursionGraph(tasks: TaskMap, toDelete: set<TaskId>): TaskMap {
    map k | k in tasks ::
      tasks[k].(dependencies := if ActiveDependants(tasks, k) <= toDelete then ActiveDependants(tasks, k) else {})
  }

  /** Following unfinished dependants from `id` one can come to some task twice. */
  ghost predicate CircleFrom(tasks: TaskMap, toDelete: set<TaskId>, id: TaskId) {
    exists p :: Chain(RecursionGraph(tasks, toDelete), p) && p[0] == id && !NoDuplicates(p)
  }

  /** Everyone who waits is to be deleted too, and no circle is in sight. */
  ghost predicate Fine(tasks: TaskMap, toDelete: set<TaskId>, id: TaskId) {
    (forall r :: WaitsFor(tasks, r, id) ==> r in toDelete) && !CircleFrom(tasks, toDelete, id)
  }

  /** The dependant at which the check of `k` stops: its least one that is not fine. */
  ghost predicate IsNext(tasks: TaskMap, toDelete: set<TaskId>, k: TaskId, n: TaskId) {
    && ActiveDependants(tasks, k) <= toDelete && n in ActiveDependants(tasks, k) && !Fine(tasks, toDelete, n)
    && forall d :: d in ActiveDependants(tasks, k) && d < n ==> Fine(tasks, toDelete, d)
  }

  /** Going from each task to the dependant at which its check stops one comes to a task with an
      unfinished dependant that is not to be deleted. */
  ghost predicate RefusalWalk(tasks: TaskMap, toDelete: set<TaskId>, p: seq<TaskId>) {
    && p != [] && !(ActiveDependants(tasks, p[|p| - 1]) <= toDelete)
    && forall i {:trigger p[i]} :: 0 <= i < |p| - 1 ==> IsNext(tasks, toDelete, p[i], p[i + 1])
  }

  ghost predicate Refused(tasks: TaskMap, toDelete: set<TaskId>, id: TaskId) {
    exists p :: RefusalWalk(tasks, toDelete, p) && p[0] == id
  }

  lemma {:induction false} YesMeansNoCircle(tasks: TaskMap, toDelete: set<TaskId>, id: TaskId, fuel: nat)
    requires IsTaskRemovable(tasks, id, toDelete, fuel) == Some(true)
    ensures !CircleFrom(tasks, toDelete, id)
    decreases fuel
  {
    hide IsTaskRemovable, AllRemovable;
    var graph := RecursionGraph(tasks, toDelete);
    CheckUnfolds(tasks, id, toDelete, fuel);
    forall p | Chain(graph, p) && p[0] == id ensures NoDuplicates(p) {
      if |p| >= 2 {
        var d := p[1];
        assert p[0] in graph && p[0 + 1] in graph[p[0]].dependencies;
        var list := SortedSeq(ActiveDependants(tasks, id));
        assert d in list;
        AllSayYes(tasks, list, toDelete, fuel - 1);
        YesMeansNoCircle(tasks, toDelete, d, fuel - 1);
        NoCircleBehind(graph, p);
      }
    }
  }

  /** If every walk from the second task of a chain is free of repetitions, so is the chain. */
  lemma NoCircleBehind(graph: TaskMap, p: seq<TaskId>)
    requires Chain(graph, p) && |p| >= 2
    requires forall q :: Chain(graph, q) && q[0] == p[1] ==> NoDuplicates(q)
    ensures NoDuplicates(p)
  {
    ChainSlice(graph, p, 1, |p| - 1);
    assert p[1..|p| - 1 + 1] == p[1..];
    assert NoDuplicates(p[1..]);
    forall i, j | 0 <= i < j < |p| ensures p[i] != p[j] {
      if i > 0 {
        assert p[i] == p[1..][i - 1] && p[j] == p[1..][j - 1];
      } else if p[0] == p[j] {
        ChainSlice(graph, p, 1, j);
        RoundTrip(graph, p[1..j + 1], p[0], p[1]);
      }
    }
  }

  lemma RoundTrip(graph: TaskMap, q: seq<TaskId>, k: TaskId, d: TaskId)
    requires Chain(graph, q) && q[0] == d && q[|q| - 1] == k && k in graph && d in graph[k].dependencies
    ensures exists c :: Chain(graph, c) && c[0] == d && !NoDuplicates(c)
  {
    var c := q + [d];
    forall i | 0 <= i < |c| - 1 ensures c[i] in graph && c[i + 1] in graph[c[i]].dependencies {
      if i < |q| - 1 { assert c[i] == q[i] && c[i + 1] == q[i + 1]; }
    }
    assert c[0] == c[|c| - 1];
    assert Chain(graph, c) && !NoDuplicates(c);
  }

  lemma FineDependant(tasks: TaskMap, toDelete: set<TaskId>, k: TaskId, d: TaskId)
    requires Fine(tasks, toDelete, k) && d in ActiveDependants(tasks, k)
    ensures ActiveDependants(tasks, k) <= toDelete && Fine(tasks, toDelete, d)
  {
    hide ActiveDependants;
    forall x | x in ActiveDependants(tasks, k) ensures x in toDelete {
      DirectWaits(tasks, x, k);
    }
    forall r | WaitsFor(tasks, r, d) ensures r in toDelete {
      WaitsThrough(tasks, r, d, k);
    }
    if CircleFrom(tasks, toDelete, d) {
      var p :| Chain(RecursionGraph(tasks, toDelete), p) && p[0] == d && !NoDuplicates(p);
      CircleBefore(tasks, toDelete, k, p);
    }
  }

  lemma CircleBefore(tasks: TaskMap, toDelete: set<TaskId>, k: TaskId, p: seq<TaskId>)
    requires ActiveDependants(tasks, k) <= toDelete
    requires Chain(RecursionGraph(tasks, toDelete), p) && p[0] in ActiveDependants(tasks, k) && !NoDuplicates(p)
    ensures CircleFrom(tasks, toDelete, k)
  {
    var q := RepetitionBefore(RecursionGraph(tasks, toDelete), k, p);
  }

  lemma RepetitionBefore(graph: TaskMap, k: TaskId, p: seq<TaskId>) returns (q: seq<TaskId>)
    requires Chain(graph, p) && k in graph && p[0] in graph[k].dependencies && !NoDuplicates(p)
    ensures Chain(graph, q) && q[0] == k && !NoDuplicates(q)
  {
    q := [k] + p;
    forall i | 0 <= i < |q| - 1 ensures q[i] in graph && q[i + 1] in graph[q[i]].dependencies {
      if i > 0 { assert q[i] == p[i - 1] && q[i + 1] == p[i - 1 + 1]; }
    }
    var i, j :| 0 <= i < j < |p| && p[i] == p[j];
    assert q[i + 1] == q[j + 1];
  }

  /** A chain can be no longer than there are tasks, so a fine task is accepted in that many steps. */
  lemma {:induction false} FineSaysYes(tasks: TaskMap, toDelete: set<TaskId>, p: seq<TaskId>, fuel: nat)
    requires Chain(RecursionGraph(tasks, toDelete), p) && !CircleFrom(tasks, toDelete, p[0])
    requires Fine(tasks, toDelete, p[|p| - 1]) && fuel + |p| > |tasks.Keys|
    ensures IsTaskRemovable(tasks, p[|p| - 1], toDelete, fuel) == Some(true)
    decreases fuel
  {
    hide IsTaskRemovable, AllRemovable, Fine, ActiveDependants;
    var id := p[|p| - 1];
    var dependants := ActiveDependants(tasks, id);
    CheckUnfolds(tasks, id, toDelete, fuel);
    if dependants != {} {
      var list := SortedSeq(dependants);
      forall i | 0 <= i < |list|
        ensures dependants <= toDelete && fuel > 0 && IsTaskRemovable(tasks, list[i], toDelete, fuel - 1) == Some(true)
      {
        assert list[i] in dependants;
        FineDependant(tasks, toDelete, id, list[i]);
        ChainGrows(tasks, toDelete, p, list[i]);
        FineSaysYes(tasks, toDelete, p + [list[i]], fuel - 1);
      }
      NoMembers(dependants);
      AllSayYes(tasks, list, toDelete, if fuel > 0 then fuel - 1 else 0);
    }
  }

  lemma ChainGrows(tasks: TaskMap, toDelete: set<TaskId>, p: seq<TaskId>, d: TaskId)
    requires Chain(RecursionGraph(tasks, toDelete), p) && !CircleFrom(tasks, toDelete, p[0])
    requires d in ActiveDependants(tasks, p[|p| - 1]) && ActiveDependants(tasks, p[|p| - 1]) <= toDelete
    ensures Chain(RecursionGraph(tasks, toDelete), p + [d]) && |p| + 1 <= |tasks.Keys|
  {
    var graph, q := RecursionGraph(tasks, toDelete), p + [d];
    forall i | 0 <= i < |q| - 1 ensures q[i] in graph && q[i + 1] in graph[q[i]].dependencies {
      if i < |p| - 1 { assert q[i] == p[i] && q[i + 1] == p[i + 1]; }
    }
    assert Chain(graph, q) && q[0] == p[0];
    assert NoDuplicates(q);
    forall x | x in q ensures x in tasks.Keys {
      var i :| 0 <= i < |q| && q[i] == x;
      assert i < |q| - 1 ==> q[i] in graph;
    }
    NoDuplicatesFits(q, tasks.Keys);
  }

  lemma FineIsAccepted(tasks: TaskMap, toDelete: set<TaskId>, id: TaskId)
    requires Fine(tasks, toDelete, id)
    ensures IsTaskRemovable(tasks, id, toDelete, |tasks.Keys|) == Some(true)
  {
    FineSaysYes(tasks, toDelete, [id], |tasks.Keys|);
  }

  /** The check accepts exactly the fine tasks. */
  lemma AcceptedIffFine(tasks: TaskMap, toDelete: set<TaskId>, id: TaskId)
    ensures (exists fuel :: IsTaskRemovable(tasks, id, toDelete, fuel) == Some(true)) <==> Fine(tasks, toDelete, id)
  {
    hide IsTaskRemovable, CircleFrom;
    if Fine(tasks, toDelete, id) {
      FineIsAccepted(tasks, toDelete, id);
    }
    if fuel :| IsTaskRemovable(tasks, id, toDelete, fuel) == Some(true) {
      YesMeansNoCircle(tasks, toDelete, id, fuel);
      RemovableIffWaitersDeleted(tasks, id, toDelete, fuel);
    }
  }

  lemma NoIsNotFine(tasks: TaskMap, toDelete: set<TaskId>, id: TaskId, fuel: nat)
    requires IsTaskRemovable(tasks, id, toDelete, fuel) == Some(false)
    ensures !Fine(tasks, toDelete, id)
  {
    hide IsTaskRemovable, CircleFrom, WaitsFor;
    RemovableIffWaitersDeleted(tasks, id, toDelete, fuel);
  }

  lemma {:induction false} NoIsRefused(tasks: TaskMap, toDelete: set<TaskId>, id: TaskId, fuel: nat)
    returns (p: seq<TaskId>)
    requires IsTaskRemovable(tasks, id, toDelete, fuel) == Some(false)
    ensures RefusalWalk(tasks, toDelete, p) && p[0] == id
    decreases fuel
  {
    hide IsTaskRemovable, AllRemovable, Fine, ActiveDependants;
    CheckUnfolds(tasks, id, toDelete, fuel);
    var dependants := ActiveDependants(tasks, id);
    if !(dependants <= toDelete) {
      p := [id];
    } else {
      var list := SortedSeq(dependants);
      var i := OneSaysNo(tasks, list, toDelete, fuel - 1);
      NoIsNotFine(tasks, toDelete, list[i], fuel - 1);
      assert list[i] in dependants;
      forall d | d in dependants && d < list[i] ensures Fine(tasks, toDelete, d) {
        var j :| 0 <= j < |list| && list[j] == d;
        assert j < i;
        assert IsTaskRemovable(tasks, list[j], toDelete, fuel - 1) == Some(true);
        AcceptedIffFine(tasks, toDelete, d);
      }
      var q := NoIsRefused(tasks, toDelete, list[i], fuel - 1);
      assert IsNext(tasks, toDelete, id, q[0]);
      p := WalkBefore(tasks, toDelete, id, q);
    }
  }

  lemma WalkBefore(tasks: TaskMap, toDelete: set<TaskId>, id: TaskId, q: seq<TaskId>) returns (p: seq<TaskId>)
    requires RefusalWalk(tasks, toDelete, q) && IsNext(tasks, toDelete, id, q[0])
    ensures RefusalWalk(tasks, toDelete, p) && p[0] == id
  {
    hide IsNext, ActiveDependants;
    p := [id] + q;
    forall i | 0 <= i < |p| - 1 ensures IsNext(tasks, toDelete, p[i], p[i + 1]) {
      if i > 0 { assert p[i] == q[i - 1] && p[i + 1] == q[i - 1 + 1]; }
    }
  }

  lemma {:induction false} RefusedSaysNo(tasks: TaskMap, toDelete: set<TaskId>, p: seq<TaskId>) returns (fuel: nat)
    requires RefusalWalk(tasks, toDelete, p)
    ensures IsTaskRemovable(tasks, p[0], toDelete, fuel) == Some(false)
    decreases |p|
  {
    hide IsTaskRemovable, AllRemovable, Fine, ActiveDependants;
    if |p| == 1 {
      fuel := 0;
      CheckUnfolds(tasks, p[0], toDelete, 0);
    } else {
      assert IsNext(tasks, toDelete, p[0], p[0 + 1]);
      var tail := p[1..];
      forall i | 0 <= i < |tail| - 1 ensures IsNext(tasks, toDelete, tail[i], tail[i + 1]) {
        assert tail[i] == p[i + 1] && tail[i + 1] == p[i + 1 + 1];
      }
      var rest := RefusedSaysNo(tasks, toDelete, tail);
      var enough := if rest < |tasks.Keys| then |tasks.Keys| else rest;
      var list := SortedSeq(ActiveDependants(tasks, p[0]));
      assert p[1] in list;
      var i: nat :| i < |list| && list[i] == p[1];
      MoreFuel(tasks, p[1], toDelete, rest, enough);
      forall j | 0 <= j < i ensures IsTaskRemovable(tasks, list[j], toDelete, enough) == Some(true) {
        assert list[j] in ActiveDependants(tasks, p[0]) && list[j] < list[i];
        FineIsAccepted(tasks, toDelete, list[j]);
        MoreFuel(tasks, list[j], toDelete, |tasks.Keys|, enough);
      }
      NoIsReached(tasks, list, toDelete, enough, i);
      fuel := enough + 1;
      CheckUnfolds(tasks, p[0], toDelete, fuel);
    }
  }

  /** The check refuses exactly the tasks from which a refusal is reached. */
  lemma RefusedIff(tasks: TaskMap, toDelete: set<TaskId>, id: TaskId)
    ensures (exists fuel :: IsTaskRemovable(tasks, id, toDelete, fuel) == Some(false)) <==> Refused(tasks, toDelete, id)
  {
    hide IsTaskRemovable, IsNext, ActiveDependants;
    if Refused(tasks, toDelete, id) {
      var p :| RefusalWalk(tasks, toDelete, p) && p[0] == id;
      var fuel := RefusedSaysNo(tasks, toDelete, p);
    }
    if fuel :| IsTaskRemovable(tasks, id, toDelete, fuel) == Some(false) {
      var p := NoIsRefused(tasks, toDelete, id, fuel);
    }
  }

  ghost predicate Ends(tasks: TaskMap, toDelete: set<TaskId>, id: TaskId) {
    exists fuel :: IsTaskRemovable(tasks, id, toDelete, fuel).Some?
  }

  ghost predicate Answers(tasks: TaskMap, toDelete: set<TaskId>, id: TaskId) {
    Fine(tasks, toDelete, id) || Refused(tasks, toDelete, id)
  }

  lemma YesIsFine(tasks: TaskMap, toDelete: set<TaskId>, id: TaskId, fuel: nat)
    requires IsTaskRemovable(tasks, id, toDelete, fuel) == Some(true)
    ensures Fine(tasks, toDelete, id)
  {
    hide IsTaskRemovable, CircleFrom;
    YesMeansNoCircle(tasks, toDelete, id, fuel);
    RemovableIffWaitersDeleted(tasks, id, toDelete, fuel);
  }

  lemma Verdicts(verdict: Option<bool>)
    ensures verdict == None || verdict == Some(true) || verdict == Some(false)
  {
    if verdict.Some? {
      if verdict.value { assert verdict == Some(true); } else { assert verdict == Some(false); }
    }
  }

  lemma AnsweredMeansAnswers(tasks: TaskMap, toDelete: set<TaskId>, id: TaskId, fuel: nat)
    requires IsTaskRemovable(tasks, id, toDelete, fuel).Some?
    ensures Answers(tasks, toDelete, id)
  {
    hide IsTaskRemovable, Fine, IsNext;
    Verdicts(IsTaskRemovable(tasks, id, toDelete, fuel));
    if IsTaskRemovable(tasks, id, toDelete, fuel) == Some(true) {
      YesIsFine(tasks, toDelete, id, fuel);
    } else {
      var p := NoIsRefused(tasks, toDelete, id, fuel);
    }
  }

  /** Exactly when the check of a task ends. */
  lemma CheckEndsIff(tasks: TaskMap, toDelete: set<TaskId>, id: TaskId)
    ensures Ends(tasks, toDelete, id) <==> Answers(tasks, toDelete, id)
  {
    hide IsTaskRemovable, Fine, Refused, Answers;
    if fuel :| IsTaskRemovable(tasks, id, toDelete, fuel).Some? {
      AnsweredMeansAnswers(tasks, toDelete, id, fuel);
    }
    if Answers(tasks, toDelete, id) {
      AnswersMeansEnds(tasks, toDelete, id);
    }
  }

  lemma AnswersMeansEnds(tasks: TaskMap, toDelete: set<TaskId>, id: TaskId)
    requires Answers(tasks, toDelete, id)
    ensures Ends(tasks, toDelete, id)
  {
    hide IsTaskRemovable, Fine, IsNext;
    if Fine(tasks, toDelete, id) {
      FineIsAccepted(tasks, toDelete, id);
    } else {
      var p :| RefusalWalk(tasks, toDelete, p) && p[0] == id;
      var fuel := RefusedSaysNo(tasks, toDelete, p);
    }
  }

  // -- special cases ----------------------------------------------------------------------------------------

  lemma {:induction false} RankedAnswers(tasks: TaskMap, id: TaskId, toDelete: set<TaskId>, fuel: nat,
                                         rank: map<TaskId, int>, bound: int)
    requires Ranked(RecursionGraph(tasks, toDelete), rank, bound) && (id in tasks ==> rank[id] <= fuel)
    ensures IsTaskRemovable(tasks, id, toDelete, fuel).Some?
    decreases fuel, 0
  {
    var dependants, graph := ActiveDependants(tasks, id), RecursionGraph(tasks, toDelete);
    if id in tasks && dependants != {} && dependants <= toDelete {
      var list := SortedSeq(dependants);
      forall i | 0 <= i < |list| ensures fuel > 0 && list[i] in tasks && rank[list[i]] <= fuel - 1 {
        assert list[i] in list;
        assert list[i] in graph && list[i] in graph[id].dependencies;
      }
      NoMembers(dependants);
      RankedAnswersAll(tasks, list, toDelete, fuel - 1, rank, bound);
    }
  }

  lemma {:induction false} RankedAnswersAll(tasks: TaskMap, list: seq<TaskId>, toDelete: set<TaskId>, fuel: nat,
                                            rank: map<TaskId, int>, bound: int)
    requires Ranked(RecursionGraph(tasks, toDelete), rank, bound)
    requires forall i :: 0 <= i < |list| ==> list[i] in tasks && rank[list[i]] <= fuel
    ensures AllRemovable(tasks, list, toDelete, fuel).Some?
    decreases fuel, |list| + 1
  {
    hide IsTaskRemovable, RecursionGraph, Ranked;
    if list != [] {
      RankedAnswers(tasks, list[0], toDelete, fuel, rank, bound);
      forall i | 0 <= i < |list[1..]| ensures list[1..][i] == list[i + 1] {
      }
      RankedAnswersAll(tasks, list[1..], toDelete, fuel, rank, bound);
    }
  }

  /** Without any circle every check ends. */
  lemma NoCircleAnswers(tasks: TaskMap, toDelete: set<TaskId>, id: TaskId)
    requires Acyclic(RecursionGraph(tasks, toDelete))
    ensures Answers(tasks, toDelete, id)
  {
    hide Answers, RecursionGraph, IsTaskRemovable;
    var rank: map<TaskId, int>, bound: int :| Ranked(RecursionGraph(tasks, toDelete), rank, bound);
    SameKeys(tasks, toDelete);
    RankedAnswers(tasks, id, toDelete, bound, rank, bound);
    CheckEndsIff(tasks, toDelete, id);
  }

  lemma SameKeys(tasks: TaskMap, toDelete: set<TaskId>)
    ensures RecursionGraph(tasks, toDelete).Keys == tasks.Keys
  {
  }

  /** With an agreeing index and no dependency cycle there is no circle. */
  lemma SoundGraphHasNoCircle(tasks: TaskMap, toDelete: set<TaskId>)
    requires Agree(tasks) && Acyclic(tasks)
    ensures Acyclic(RecursionGraph(tasks, toDelete))
  {
    var rank: map<TaskId, int>, bound: int :| Ranked(tasks, rank, bound);
    assert Ranked(RecursionGraph(tasks, toDelete), map k | k in tasks :: bound - rank[k], bound);
  }

  lemma SoundGraphChecksEnd(tasks: TaskMap, toDelete: set<TaskId>, id: TaskId)
    requires Agree(tasks) && Acyclic(tasks)
    ensures Answers(tasks, toDelete, id)
  {
    SoundGraphHasNoCircle(tasks, toDelete);
    NoCircleAnswers(tasks, toDelete, id);
  }

  /** Two unfinished tasks that wait for each other keep the check busy for ever once both are to
      be deleted. */
  lemma {:induction false} MutualWaitNeverEnds(tasks: TaskMap, a: TaskId, b: TaskId, toDelete: set<TaskId>, fuel: nat)
    requires ActiveDependants(tasks, a) == {b} && ActiveDependants(tasks, b) == {a} && a in toDelete && b in toDelete
    ensures IsTaskRemovable(tasks, a, toDelete, fuel) == None
    decreases fuel
  {
    if fuel > 0 {
      SortedUnique(SortedSeq({b}), [b]);
      MutualWaitNeverEnds(tasks, b, a, toDelete, fuel - 1);
    }
  }
}
