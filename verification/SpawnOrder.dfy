/** What one run of the scheduler loop starts. */
module SpawnOrder {
  import opened Lists
  import opened Tasks
  import opened Scheduler

  // -- what the loop leaves alone ---------------------------------------------------------------------------

  /** A queued task may have been started or have failed to spawn; nothing else changes. */
  ghost predicate OnlyStarts(before: TaskMap, after: TaskMap) {
    && after.Keys == before.Keys
    && forall k :: k in before ==>
         || after[k] == before[k]
         || (before[k].status.Queued? && after[k] == before[k].(status := after[k].status)
             && (after[k].status == TaskStatus.Running || after[k].status == Done(FailedToSpawn)))
  }

  /** Pools only grow, so no child is ever overwritten. */
  ghost predicate PoolsGrow(before: Pools, after: Pools) {
    && after.Keys == before.Keys
    && forall g, w :: g in before && w in before[g] ==> w in after[g] && after[g][w] == before[g][w]
  }

  lemma SpawnedFrame(s: State, settings: Settings, id: TaskId, spawnFails: set<TaskId>)
    ensures var after := Spawned(s, settings, id, spawnFails);
      && (id in s.tasks && s.tasks[id].status.Queued? ==> OnlyStarts(s.tasks, after.tasks))
      && PoolsGrow(s.pools, after.pools)
      && after.groups.Keys == s.groups.Keys
      && (id !in spawnFails ==> after.groups == s.groups)
  {
  }

  lemma {:induction false} SpawnedAllFrame(s: State, settings: Settings, spawnFails: set<TaskId>)
    requires PoolPerGroup(s)
    ensures var after := SpawnedAll(s, settings, spawnFails);
      && OnlyStarts(s.tasks, after.tasks)
      && PoolsGrow(s.pools, after.pools)
      && after.groups.Keys == s.groups.Keys
    decreases |QueuedIds(s.tasks)|
  {
    var next := GetNextTaskId(s);
    if next != None {
      StartConsumesQueued(s, settings, next.value, spawnFails);
      SpawnedFrame(s, settings, next.value, spawnFails);
      var mid := Spawned(s, settings, next.value, spawnFails);
      SpawnedAllFrame(mid, settings, spawnFails);
      FrameComposes(s, mid, SpawnedAll(mid, settings, spawnFails));
    }
  }

  lemma FrameComposes(s: State, mid: State, after: State)
    requires OnlyStarts(s.tasks, mid.tasks) && OnlyStarts(mid.tasks, after.tasks)
    requires PoolsGrow(s.pools, mid.pools) && PoolsGrow(mid.pools, after.pools)
    ensures OnlyStarts(s.tasks, after.tasks) && PoolsGrow(s.pools, after.pools)
  {
  }

  /** The loop stops only when nothing may be started any more. */
  lemma {:induction false} NothingLeftToStart(s: State, settings: Settings, spawnFails: set<TaskId>)
    requires PoolPerGroup(s)
    ensures var after := SpawnedAll(s, settings, spawnFails);
      PoolPerGroup(after) && forall id :: id in after.tasks ==> !Startable(after, id)
    decreases |QueuedIds(s.tasks)|
  {
    var next := GetNextTaskId(s);
    if next != None {
      StartConsumesQueued(s, settings, next.value, spawnFails);
      NothingLeftToStart(Spawned(s, settings, next.value, spawnFails), settings, spawnFails);
    }
  }

  // -- what it starts, when every spawn succeeds ------------------------------------------------------------

  ghost function ReadyIn(s: State, group: string): set<TaskId> {
    set k | k in s.tasks && Ready(s.tasks, k) && s.tasks[k].group == group
  }

  ghost function StartedIn(before: State, after: State, group: string): set<TaskId> {
    set k | k in before.tasks && k in after.tasks && before.tasks[k].group == group
            && before.tasks[k].status.Queued? && after.tasks[k].status == TaskStatus.Running
  }

  ghost function FreeSlots(s: State, group: string): nat
    requires group in s.groups && group in s.pools
  {
    var limit, used := s.groups[group].parallelTasks, |s.pools[group]|;
    if used < limit then limit - used else 0
  }

  /** How many of the ready tasks find room; a limit of zero means no limit. */
  ghost function Room(s: State, group: string): nat
    requires group in s.groups && group in s.pools
  {
    var ready := |ReadyIn(s, group)|;
    if s.groups[group].status != GroupStatus.Running then 0
    else if s.groups[group].parallelTasks == 0 then ready
    else if ready <= FreeSlots(s, group) then ready
    else FreeSlots(s, group)
  }

  /** `chosen` are the first `n` ready tasks of the group in scheduling order. */
  ghost predicate FirstReady(s: State, group: string, chosen: set<TaskId>, n: nat) {
    && chosen <= ReadyIn(s, group) && |chosen| == n
    && forall a, b :: a in chosen && b in ReadyIn(s, group) && b !in chosen ==> Before(s.tasks, a, b)
  }

  /** That pins the set down. */
  lemma FirstReadyUnique(s: State, group: string, chosen: set<TaskId>, chosen': set<TaskId>, n: nat)
    requires FirstReady(s, group, chosen, n) && FirstReady(s, group, chosen', n)
    ensures chosen == chosen'
  {
    FirstReadyIncluded(s, group, chosen, chosen', n);
    FirstReadyIncluded(s, group, chosen', chosen, n);
  }

  lemma FirstReadyIncluded(s: State, group: string, chosen: set<TaskId>, chosen': set<TaskId>, n: nat)
    requires FirstReady(s, group, chosen, n) && FirstReady(s, group, chosen', n)
    ensures chosen <= chosen'
  {
    if a :| a in chosen && a !in chosen' {
      forall b | b in chosen' ensures b in chosen {
        assert a in ReadyIn(s, group) && b in ReadyIn(s, group);
      }
      ProperSubsetSmaller(chosen', chosen);
    }
  }

  lemma ProperSubsetSmaller(s: set<TaskId>, t: set<TaskId>)
    requires s < t
    ensures |s| < |t|
  {
    assert t == s + (t - s) && t - s != {};
  }

  ghost predicate NeverPauses(settings: Settings) {
    !settings.pauseGroupOnFailure && !settings.pauseAllOnFailure
  }

  /** The status a task gets when the scheduler takes it. */
  function TakenStatus(id: TaskId, spawnFails: set<TaskId>): TaskStatus {
    if id in spawnFails then Done(FailedToSpawn) else TaskStatus.Running
  }

  lemma ReadyUnlessTaken(s: State, after: State, id: TaskId, status: TaskStatus, group: string)
    requires id in s.tasks && s.tasks[id].status.Queued? && !status.Queued? && status != Done(Success)
    requires after.tasks == SetStatus(s.tasks, id, status)
    ensures ReadyIn(after, group) == ReadyIn(s, group) - {id}
  {
    forall k | k in s.tasks && k != id ensures Ready(after.tasks, k) <==> Ready(s.tasks, k) {
      forall d | d in s.tasks ensures Succeeded(after.tasks[d]) <==> Succeeded(s.tasks[d]) {
      }
    }
  }

  /** Taking one task takes it, and a slot if it spawns, out of its group; all else stays ready as it was. */
  lemma TakeOne(s: State, settings: Settings, id: TaskId, spawnFails: set<TaskId>, group: string)
    requires PoolPerGroup(s) && Startable(s, id) && group in s.groups
    ensures var after := Spawned(s, settings, id, spawnFails);
      && (NeverPauses(settings) || id !in spawnFails ==> after.groups == s.groups)
      && group in after.groups && group in after.pools
      && after.groups[group].parallelTasks == s.groups[group].parallelTasks
      && (after.groups[group].status == GroupStatus.Running ==> s.groups[group].status == GroupStatus.Running)
      && after.tasks == SetStatus(s.tasks, id, TakenStatus(id, spawnFails))
      && ReadyIn(after, group) == ReadyIn(s, group) - {id}
      && |after.pools[group]| ==
         |s.pools[group]| + if s.tasks[id].group == group && id !in spawnFails then 1 else 0
  {
    hide SetStatus, ReadyIn, DependenciesMet;
    ReadyUnlessTaken(s, Spawned(s, settings, id, spawnFails), id, TakenStatus(id, spawnFails), group);
  }

  /** One run of the loop starts, in every group, exactly the first ready tasks that fit:
      all of them without a limit, none while the group is not running. */
  lemma {:induction false} SpawnNewTakesFirst(s: State, settings: Settings, spawnFails: set<TaskId>, group: string)
    requires PoolPerGroup(s) && group in s.groups && QueuedIds(s.tasks) !! spawnFails
    ensures var after := SpawnedAll(s, settings, spawnFails);
      && after.groups == s.groups
      && FirstReady(s, group, StartedIn(s, after, group), Room(s, group))
      && group in after.pools
      && |after.pools[group]| == |s.pools[group]| + Room(s, group)
    decreases |QueuedIds(s.tasks)|
  {
    var next := GetNextTaskId(s);
    var after := SpawnedAll(s, settings, spawnFails);
    if next == None {
      NothingStarts(s, group);
    } else {
      var id := next.value;
      var mid := Spawned(s, settings, id, spawnFails);
      assert id in QueuedIds(s.tasks);
      StartConsumesQueued(s, settings, id, spawnFails);
      TakeOne(s, settings, id, spawnFails, group);
      SpawnNewTakesFirst(mid, settings, spawnFails, group);
      SpawnedAllFrame(mid, settings, spawnFails);
      StartedSplit(s, mid, after, id, group);
      TakesFirstStep(s, mid, id, group, StartedIn(mid, after, group));
    }
  }

  lemma NothingStarts(s: State, group: string)
    requires PoolPerGroup(s) && group in s.groups && forall id :: id in s.tasks ==> !Startable(s, id)
    ensures StartedIn(s, s, group) == {} && Room(s, group) == 0
  {
    assert HasFreeSlot(s, group) ==> ReadyIn(s, group) == {} by {
      forall k | k in ReadyIn(s, group) ensures Startable(s, k) <==> HasFreeSlot(s, group) {
      }
    }
  }

  lemma StartedSplit(s: State, mid: State, after: State, id: TaskId, group: string)
    requires id in s.tasks && s.tasks[id].status.Queued? && mid.tasks == SetStatus(s.tasks, id, TaskStatus.Running)
    requires OnlyStarts(mid.tasks, after.tasks)
    ensures StartedIn(s, after, group) ==
            StartedIn(mid, after, group) + if s.tasks[id].group == group then {id} else {}
    ensures id !in StartedIn(mid, after, group)
  {
  }

  lemma PickedCounts(s: State, mid: State, id: TaskId, group: string)
    requires Startable(s, id) && ReadyIn(mid, group) == ReadyIn(s, group) - {id}
    ensures |ReadyIn(s, group)| == |ReadyIn(mid, group)| + if s.tasks[id].group == group then 1 else 0
  {
    if s.tasks[id].group == group {
      assert id in ReadyIn(s, group);
    } else {
      assert ReadyIn(mid, group) == ReadyIn(s, group);
    }
  }

  lemma RoomStep(s: State, mid: State, id: TaskId, group: string)
    requires PoolPerGroup(s) && PoolPerGroup(mid) && group in s.groups && mid.groups == s.groups
    requires Startable(s, id) && ReadyIn(mid, group) == ReadyIn(s, group) - {id}
    requires |mid.pools[group]| == |s.pools[group]| + if s.tasks[id].group == group then 1 else 0
    ensures Room(s, group) == Room(mid, group) + if s.tasks[id].group == group then 1 else 0
  {
    hide ReadyIn, DependenciesMet;
    PickedCounts(s, mid, id, group);
  }

  /** The task picked first joins the first ready tasks of what is left. */
  lemma FirstJoins(s: State, mid: State, id: TaskId, group: string, status: TaskStatus, later: set<TaskId>, n: nat)
    requires id in ReadyIn(s, group) && id !in later
    requires mid.tasks == SetStatus(s.tasks, id, status)
    requires ReadyIn(mid, group) == ReadyIn(s, group) - {id}
    requires forall b :: b in ReadyIn(s, group) && b != id ==> Before(s.tasks, id, b)
    requires FirstReady(mid, group, later, n)
    ensures FirstReady(s, group, later + {id}, n + 1)
  {
    var chosen, ready := later + {id}, ReadyIn(s, group);
    forall a, b | a in chosen && b in ready && b !in chosen ensures Before(s.tasks, a, b) {
      if a != id {
        assert b in ReadyIn(mid, group);
        assert Before(mid.tasks, a, b);
      }
    }
  }

  lemma OthersKeepFirst(s: State, mid: State, id: TaskId, group: string, status: TaskStatus, later: set<TaskId>, n: nat)
    requires id in s.tasks && mid.tasks == SetStatus(s.tasks, id, status)
    requires ReadyIn(mid, group) == ReadyIn(s, group)
    requires FirstReady(mid, group, later, n)
    ensures FirstReady(s, group, later, n)
  {
    forall a, b | a in later && b in ReadyIn(s, group) && b !in later ensures Before(s.tasks, a, b) {
      assert b in ReadyIn(mid, group);
      assert Before(mid.tasks, a, b);
    }
  }

  lemma TakesFirstStep(s: State, mid: State, id: TaskId, group: string, later: set<TaskId>)
    requires PoolPerGroup(s) && PoolPerGroup(mid) && group in s.groups && mid.groups == s.groups
    requires Startable(s, id) && mid.tasks == SetStatus(s.tasks, id, TaskStatus.Running)
    requires forall k :: k in s.tasks && Startable(s, k) && k != id ==> Before(s.tasks, id, k)
    requires ReadyIn(mid, group) == ReadyIn(s, group) - {id} && id !in later
    requires |mid.pools[group]| == |s.pools[group]| + if s.tasks[id].group == group then 1 else 0
    requires FirstReady(mid, group, later, Room(mid, group))
    ensures var mine := s.tasks[id].group == group;
      && Room(s, group) == Room(mid, group) + (if mine then 1 else 0)
      && FirstReady(s, group, later + (if mine then {id} else {}), Room(s, group))
  {
    hide FirstReady, Room, SetStatus;
    RoomStep(s, mid, id, group);
    if s.tasks[id].group == group {
      forall b | b in ReadyIn(s, group) && b != id ensures Before(s.tasks, id, b) {
        assert Startable(s, b);
      }
      FirstJoins(s, mid, id, group, TaskStatus.Running, later, Room(mid, group));
    } else {
      assert ReadyIn(mid, group) == ReadyIn(s, group);
      OthersKeepFirst(s, mid, id, group, TaskStatus.Running, later, Room(mid, group));
      assert later + {} == later;
    }
  }

  // -- what it takes, when spawns may fail ------------------------------------------------------------------

  /** The ready tasks of the group of `j` that come before it and would spawn. */
  ghost function Ahead(s: State, spawnFails: set<TaskId>, j: TaskId): set<TaskId>
    requires j in s.tasks
  {
    set k | k in ReadyIn(s, s.tasks[j].group) && k !in spawnFails && Before(s.tasks, k, j)
  }

  /** The task is ready, and those ahead of it leave a slot of its group free. */
  ghost predicate Fits(s: State, spawnFails: set<TaskId>, j: TaskId)
    requires PoolPerGroup(s)
  {
    && Ready(s.tasks, j)
    && var group := s.tasks[j].group;
    && group in s.groups && s.groups[group].status == GroupStatus.Running
    && (s.groups[group].parallelTasks == 0
        || |s.pools[group]| + |Ahead(s, spawnFails, j)| < s.groups[group].parallelTasks)
  }

  ghost predicate PickedFirst(s: State, id: TaskId) {
    Startable(s, id) && forall k :: k in s.tasks && Startable(s, k) && k != id ==> Before(s.tasks, id, k)
  }

  lemma FirstFits(s: State, spawnFails: set<TaskId>, id: TaskId)
    requires PoolPerGroup(s) && PickedFirst(s, id)
    ensures Fits(s, spawnFails, id)
  {
    forall k | k in ReadyIn(s, s.tasks[id].group) && k != id ensures Before(s.tasks, id, k) {
      assert Startable(s, k);
    }
    assert Ahead(s, spawnFails, id) == {};
  }

  lemma AheadStep(s: State, mid: State, status: TaskStatus, id: TaskId, spawnFails: set<TaskId>, j: TaskId)
    requires id in s.tasks && PickedFirst(s, id) && j in s.tasks && j != id && Ready(s.tasks, j)
    requires mid.tasks == SetStatus(s.tasks, id, status)
    requires ReadyIn(mid, s.tasks[j].group) == ReadyIn(s, s.tasks[j].group) - {id}
    ensures |Ahead(s, spawnFails, j)| ==
            |Ahead(mid, spawnFails, j)| + if s.tasks[id].group == s.tasks[j].group && id !in spawnFails then 1 else 0
  {
    hide Ready;
    if s.tasks[id].group == s.tasks[j].group && id !in spawnFails {
      assert Startable(s, j);
      assert Ahead(mid, spawnFails, j) == Ahead(s, spawnFails, j) - {id};
      assert id in Ahead(s, spawnFails, j);
    } else {
      assert Ahead(mid, spawnFails, j) == Ahead(s, spawnFails, j);
    }
  }

  /** Taking the first task leaves the others exactly the room they had. */
  lemma FitsStep(s: State, settings: Settings, id: TaskId, spawnFails: set<TaskId>, j: TaskId)
    requires PoolPerGroup(s) && PickedFirst(s, id) && (NeverPauses(settings) || id !in spawnFails)
    requires j in s.tasks && j != id
    ensures var mid := Spawned(s, settings, id, spawnFails);
      && PoolPerGroup(mid) && j in mid.tasks && mid.tasks[j] == s.tasks[j]
      && (Fits(s, spawnFails, j) <==> Fits(mid, spawnFails, j))
  {
    var mid := Spawned(s, settings, id, spawnFails);
    var group := s.tasks[j].group;
    SpawnedFrame(s, settings, id, spawnFails);
    TakeOne(s, settings, id, spawnFails, s.tasks[id].group);
    if group in s.groups {
      TakeOne(s, settings, id, spawnFails, group);
      assert j in ReadyIn(s, group) <==> j in ReadyIn(mid, group);
      if Ready(s.tasks, j) {
        AheadStep(s, mid, TakenStatus(id, spawnFails), id, spawnFails, j);
      }
    }
  }

  /** With failing spawns that pause nothing, one run takes exactly the ready tasks that fit: a
      failing one is used up without taking a slot from those behind it. */
  lemma {:induction false} TakenIffFits(s: State, settings: Settings, spawnFails: set<TaskId>, j: TaskId)
    requires PoolPerGroup(s) && j in s.tasks
    requires NeverPauses(settings) || QueuedIds(s.tasks) !! spawnFails
    ensures var after := SpawnedAll(s, settings, spawnFails);
      && after.groups == s.groups && j in after.tasks
      && after.tasks[j] == if Fits(s, spawnFails, j) then s.tasks[j].(status := TakenStatus(j, spawnFails))
                           else s.tasks[j]
    decreases |QueuedIds(s.tasks)|
  {
    hide Fits, Spawned, Ready, QueuedIds, OnlyStarts, GetNextTaskId, SetStatus, NeverPauses;
    var next := GetNextTaskId(s);
    if next == None {
      NothingFits(s, spawnFails, j);
    } else {
      var id := next.value;
      var mid := Spawned(s, settings, id, spawnFails);
      ReadyIsQueued(s, id);
      StartConsumesQueued(s, settings, id, spawnFails);
      TakeOne(s, settings, id, spawnFails, s.tasks[id].group);
      TakenNeverFits(s, mid, id, spawnFails);
      TakenIffFits(mid, settings, spawnFails, id);
      if j == id {
        FirstFits(s, spawnFails, id);
      } else {
        FitsStep(s, settings, id, spawnFails, j);
        TakenIffFits(mid, settings, spawnFails, j);
      }
    }
  }

  lemma ReadyIsQueued(s: State, id: TaskId)
    ensures Ready(s.tasks, id) ==> id in s.tasks && s.tasks[id].status.Queued? && id in QueuedIds(s.tasks)
  {
  }

  lemma TakenNeverFits(s: State, mid: State, id: TaskId, spawnFails: set<TaskId>)
    requires PoolPerGroup(mid) && id in s.tasks
    requires mid.tasks == SetStatus(s.tasks, id, TakenStatus(id, spawnFails))
    ensures id in mid.tasks && mid.tasks[id] == s.tasks[id].(status := TakenStatus(id, spawnFails))
    ensures !Fits(mid, spawnFails, id)
  {
  }

  lemma NothingFits(s: State, spawnFails: set<TaskId>, j: TaskId)
    requires PoolPerGroup(s) && forall id :: id in s.tasks ==> !Startable(s, id)
    ensures !Fits(s, spawnFails, j)
  {
    assert Fits(s, spawnFails, j) ==> Startable(s, j);
  }

  /** What a run takes out of the queue of a group, whether it spawns or not. */
  ghost function TakenIn(before: State, after: State, group: string): set<TaskId> {
    set k | k in before.tasks && k in after.tasks && before.tasks[k].group == group
            && before.tasks[k].status.Queued? && !after.tasks[k].status.Queued?
  }

  ghost predicate SlotsTaken(s: State, group: string)
    requires PoolPerGroup(s) && group in s.groups
  {
    s.groups[group].parallelTasks > 0 && |s.pools[group]| >= s.groups[group].parallelTasks
  }

  /** What left the queue of the group is a first part of its ready tasks, of which the pool gained
      those that spawned; if the group runs afterwards, then nothing ready is left or every slot is
      taken; and if it did not run before, nothing left. */
  ghost predicate TookPrefix(s: State, after: State, spawnFails: set<TaskId>, group: string)
    requires PoolPerGroup(s) && PoolPerGroup(after) && group in s.groups && group in after.groups
  {
    var taken := TakenIn(s, after, group);
    && FirstReady(s, group, taken, |taken|)
    && |after.pools[group]| == |s.pools[group]| + |taken - spawnFails|
    && (s.groups[group].status != GroupStatus.Running ==> taken == {})
    && (after.groups[group].status == GroupStatus.Running ==> taken == ReadyIn(s, group) || SlotsTaken(after, group))
  }

  /** One run of the loop does that in every group, however spawns fail and whatever that pauses. */
  lemma {:induction false} SpawnNewTakesPrefix(s: State, settings: Settings, spawnFails: set<TaskId>, group: string)
    requires PoolPerGroup(s) && group in s.groups
    ensures var after := SpawnedAll(s, settings, spawnFails);
      PoolPerGroup(after) && group in after.groups && TookPrefix(s, after, spawnFails, group)
    decreases |QueuedIds(s.tasks)|
  {
    hide Spawned, Ready, ReadyIn, QueuedIds, OnlyStarts, PoolsGrow, GetNextTaskId, SetStatus, TookPrefix;
    var next := GetNextTaskId(s);
    var after := SpawnedAll(s, settings, spawnFails);
    if next == None {
      NothingTaken(s, spawnFails, group);
    } else {
      var id := next.value;
      var mid := Spawned(s, settings, id, spawnFails);
      StartConsumesQueued(s, settings, id, spawnFails);
      TakeOne(s, settings, id, spawnFails, group);
      SpawnNewTakesPrefix(mid, settings, spawnFails, group);
      SpawnedAllFrame(mid, settings, spawnFails);
      ReadyIsQueued(s, id);
      PrefixStep(s, mid, after, id, spawnFails, group);
    }
  }

  /** In a group, what is taken never passes over a ready task of higher priority, nor one of the same
      priority that was added earlier. */
  lemma HigherPriorityFirst(s: State, settings: Settings, spawnFails: set<TaskId>, j: TaskId, k: TaskId)
    requires PoolPerGroup(s) && j in s.tasks && k in s.tasks
    requires s.tasks[j].group == s.tasks[k].group && s.tasks[k].group in s.groups
    requires s.tasks[k].status == Queued
    requires forall d :: d in s.tasks[k].dependencies && d in s.tasks ==> s.tasks[d].status == Done(Success)
    requires s.tasks[k].priority > s.tasks[j].priority || (s.tasks[k].priority == s.tasks[j].priority && k < j)
    ensures var after := SpawnedAll(s, settings, spawnFails).tasks;
      && j in after && k in after
      && (s.tasks[j].status == Queued && after[j].status != Queued ==> after[k].status != Queued)
  {
    hide SpawnedAll, SlotsTaken, FirstReady, ReadyIn, PoolsGrow;
    var group, after := s.tasks[j].group, SpawnedAll(s, settings, spawnFails);
    SpawnNewTakesPrefix(s, settings, spawnFails, group);
    SpawnedAllFrame(s, settings, spawnFails);
    assert TookPrefix(s, after, spawnFails, group);
    if j in TakenIn(s, after, group) {
      NotPassedOver(s, group, TakenIn(s, after, group), j, k);
    }
  }

  lemma NotPassedOver(s: State, group: string, chosen: set<TaskId>, j: TaskId, k: TaskId)
    requires FirstReady(s, group, chosen, |chosen|) && j in chosen && j in s.tasks
    requires k in s.tasks && s.tasks[k].group == group && s.tasks[k].status == Queued
    requires forall d :: d in s.tasks[k].dependencies && d in s.tasks ==> s.tasks[d].status == Done(Success)
    requires s.tasks[k].priority > s.tasks[j].priority || (s.tasks[k].priority == s.tasks[j].priority && k < j)
    ensures k in chosen
  {
    assert k in ReadyIn(s, group);
    assert k in chosen || Before(s.tasks, j, k);
  }

  lemma NothingTaken(s: State, spawnFails: set<TaskId>, group: string)
    requires PoolPerGroup(s) && group in s.groups && forall id :: id in s.tasks ==> !Startable(s, id)
    ensures TookPrefix(s, s, spawnFails, group)
  {
    NothingStarts(s, group);
    assert TakenIn(s, s, group) == {};
    assert {} - spawnFails == {};
  }

  lemma TakenOnce(s: State, mid: State, after: State, id: TaskId, status: TaskStatus, group: string)
    requires id in s.tasks && s.tasks[id].status.Queued? && !status.Queued?
    requires mid.tasks == SetStatus(s.tasks, id, status) && OnlyStarts(mid.tasks, after.tasks)
    ensures id !in TakenIn(mid, after, group)
    ensures TakenIn(s, after, group) == TakenIn(mid, after, group) + if s.tasks[id].group == group then {id} else {}
  {
  }

  lemma TakenSplit(s: State, mid: State, after: State, id: TaskId, spawnFails: set<TaskId>, group: string)
    requires id in s.tasks && s.tasks[id].status.Queued?
    requires mid.tasks == SetStatus(s.tasks, id, TakenStatus(id, spawnFails)) && OnlyStarts(mid.tasks, after.tasks)
    ensures var mine := s.tasks[id].group == group;
      && id !in TakenIn(mid, after, group)
      && TakenIn(s, after, group) == TakenIn(mid, after, group) + (if mine then {id} else {})
      && |TakenIn(s, after, group) - spawnFails| ==
         |TakenIn(mid, after, group) - spawnFails| + if mine && id !in spawnFails then 1 else 0
  {
    hide TakenIn, SetStatus, OnlyStarts;
    var earlier, later := TakenIn(s, after, group), TakenIn(mid, after, group);
    TakenOnce(s, mid, after, id, TakenStatus(id, spawnFails), group);
    if s.tasks[id].group == group && id !in spawnFails {
      assert earlier - spawnFails == (later - spawnFails) + {id};
    } else {
      assert earlier - spawnFails == later - spawnFails;
    }
  }

  lemma PickedBeforeReady(s: State, id: TaskId)
    requires id in s.tasks && PickedFirst(s, id)
    ensures id in ReadyIn(s, s.tasks[id].group)
    ensures forall b :: b in ReadyIn(s, s.tasks[id].group) && b != id ==> Before(s.tasks, id, b)
  {
    forall b | b in ReadyIn(s, s.tasks[id].group) && b != id ensures Before(s.tasks, id, b) {
      assert Startable(s, b);
    }
  }

  lemma NotReadyElsewhere(s: State, id: TaskId, group: string)
    requires id in s.tasks && s.tasks[id].group != group
    ensures id !in ReadyIn(s, group)
  {
  }

  lemma FirstPartGrows(s: State, mid: State, id: TaskId, group: string, status: TaskStatus, later: set<TaskId>)
    requires id in s.tasks && PickedFirst(s, id) && mid.tasks == SetStatus(s.tasks, id, status)
    requires ReadyIn(mid, group) == ReadyIn(s, group) - {id} && id !in later
    requires FirstReady(mid, group, later, |later|)
    ensures var taken := later + if s.tasks[id].group == group then {id} else {};
      && FirstReady(s, group, taken, |taken|)
      && (later == ReadyIn(mid, group) ==> taken == ReadyIn(s, group))
  {
    hide FirstReady, SetStatus, ReadyIn;
    if s.tasks[id].group == group {
      PickedBeforeReady(s, id);
      FirstJoins(s, mid, id, group, status, later, |later|);
      assert |later + {id}| == |later| + 1;
    } else {
      NotReadyElsewhere(s, id, group);
      assert ReadyIn(mid, group) == ReadyIn(s, group);
      OthersKeepFirst(s, mid, id, group, status, later, |later|);
      assert later + {} == later;
    }
  }

  lemma PickedRuns(s: State, id: TaskId)
    requires id in s.tasks && PickedFirst(s, id)
    ensures s.tasks[id].group in s.groups && s.groups[s.tasks[id].group].status == GroupStatus.Running
  {
  }

  lemma PrefixStep(s: State, mid: State, after: State, id: TaskId, spawnFails: set<TaskId>, group: string)
    requires PoolPerGroup(s) && PoolPerGroup(mid) && PoolPerGroup(after)
    requires group in s.groups && group in mid.groups && group in after.groups
    requires id in s.tasks && s.tasks[id].status.Queued? && PickedFirst(s, id)
    requires mid.tasks == SetStatus(s.tasks, id, TakenStatus(id, spawnFails)) && OnlyStarts(mid.tasks, after.tasks)
    requires ReadyIn(mid, group) == ReadyIn(s, group) - {id}
    requires mid.groups[group].status == GroupStatus.Running ==> s.groups[group].status == GroupStatus.Running
    requires |mid.pools[group]| == |s.pools[group]| + if s.tasks[id].group == group && id !in spawnFails then 1 else 0
    requires TookPrefix(mid, after, spawnFails, group)
    ensures TookPrefix(s, after, spawnFails, group)
  {
    hide OnlyStarts, FirstReady, SetStatus, ReadyIn, TakenIn, SlotsTaken, PickedFirst, TakenStatus;
    PickedRuns(s, id);
    TakenSplit(s, mid, after, id, spawnFails, group);
    FirstPartGrows(s, mid, id, group, TakenStatus(id, spawnFails), TakenIn(mid, after, group));
    var later := TakenIn(mid, after, group);
    assert later + {} == later;
  }

  lemma WorkerBelowLimit(s: State, settings: Settings, id: TaskId, spawnFails: set<TaskId>, group: string, worker: nat)
    requires PoolPerGroup(s) && Startable(s, id) && group in s.groups && s.groups[group].parallelTasks > 0
    ensures var after := Spawned(s, settings, id, spawnFails);
      && group in after.groups && group in after.pools
      && after.groups[group].parallelTasks == s.groups[group].parallelTasks
      && (worker in after.pools[group] && worker !in s.pools[group] ==> worker < s.groups[group].parallelTasks)
  {
    assert |s.pools[group].Keys| == |s.pools[group]|;
  }

  /** A worker started by the scheduler in a limited group gets an id below the limit. */
  lemma {:induction false} NewWorkersBelowLimit(s: State, settings: Settings, spawnFails: set<TaskId>,
                                                group: string, worker: nat)
    requires PoolPerGroup(s) && group in s.groups && s.groups[group].parallelTasks > 0
    ensures var after := SpawnedAll(s, settings, spawnFails);
      group in after.pools && (worker in after.pools[group] && worker !in s.pools[group] ==>
                               worker < s.groups[group].parallelTasks)
    decreases |QueuedIds(s.tasks)|
  {
    hide Spawned, Startable, QueuedIds;
    var next := GetNextTaskId(s);
    if next != None {
      StartConsumesQueued(s, settings, next.value, spawnFails);
      WorkerBelowLimit(s, settings, next.value, spawnFails, group, worker);
      NewWorkersBelowLimit(Spawned(s, settings, next.value, spawnFails), settings, spawnFails, group, worker);
    }
  }
}
