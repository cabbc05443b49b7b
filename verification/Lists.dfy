/** Lists of task ids as the daemon keeps them: plain vectors that are searched,
    filtered, pushed to and sorted. */
module Lists {
  /** Ids are unsigned machine words in the daemon; nothing below depends on their sign. */
  type TaskId = nat

  datatype Option<+T> = None | Some(value: T)

  ghost predicate Sorted(s: seq<TaskId>) {
    forall i, j :: 0 <= i < j < |s| ==> s[i] <= s[j]
  }

  ghost predicate StrictlySorted(s: seq<TaskId>) {
    forall i, j :: 0 <= i < j < |s| ==> s[i] < s[j]
  }

  ghost predicate NoDuplicates(s: seq<TaskId>) {
    forall i, j :: 0 <= i < j < |s| ==> s[i] != s[j]
  }

  function Elems(s: seq<TaskId>): set<TaskId> {
    set x | x in s
  }

  lemma StrictCons(x: TaskId, rest: seq<TaskId>)
    requires forall y :: y in rest ==> x < y
    ensures StrictlySorted(rest) ==> StrictlySorted([x] + rest)
  {
    var r := [x] + rest;
    forall i, j | 0 <= i < j < |r| && StrictlySorted(rest) ensures r[i] < r[j] {
      assert r[j] == rest[j - 1];
      if i > 0 { assert r[i] == rest[i - 1]; } else { assert r[j] in rest; }
    }
  }

  lemma StrictHead(s: seq<TaskId>)
    requires s != [] && StrictlySorted(s)
    ensures StrictlySorted(s[1..])
    ensures forall y :: y in s[1..] ==> s[0] < y
  {
  }

  function KeepRec(s: seq<TaskId>, keep: set<TaskId>): seq<TaskId> {
    if s == [] then []
    else if s[0] in keep then [s[0]] + KeepRec(s[1..], keep)
    else KeepRec(s[1..], keep)
  }

  lemma {:induction false} KeepFacts(s: seq<TaskId>, keep: set<TaskId>)
    ensures forall x :: x in KeepRec(s, keep) <==> x in s && x in keep
    ensures StrictlySorted(s) ==> StrictlySorted(KeepRec(s, keep))
  {
    if s != [] {
      KeepFacts(s[1..], keep);
      if StrictlySorted(s) {
        StrictHead(s);
        StrictCons(s[0], KeepRec(s[1..], keep));
      }
    }
  }

  /** `retain(|id| id in keep)`: order is kept. */
  function Keep(s: seq<TaskId>, keep: set<TaskId>): (r: seq<TaskId>)
    ensures forall x :: x in r <==> x in s && x in keep
    ensures StrictlySorted(s) ==> StrictlySorted(r)
  {
    KeepFacts(s, keep);
    KeepRec(s, keep)
  }

  lemma {:induction false} KeepAllOf(s: seq<TaskId>, keep: set<TaskId>)
    requires forall x :: x in s ==> x in keep
    ensures Keep(s, keep) == s
  {
    if s != [] {
      KeepAllOf(s[1..], keep);
    }
  }

  lemma KeepAll(s: seq<TaskId>)
    ensures Keep(s, Elems(s)) == s
  {
    KeepAllOf(s, Elems(s));
  }

  lemma {:induction false} KeepSnoc(s: seq<TaskId>, x: TaskId, keep: set<TaskId>)
    ensures Keep(s + [x], keep) == Keep(s, keep) + if x in keep then [x] else []
  {
    if s == [] {
      assert s + [x] == [x];
    } else {
      assert (s + [x])[1..] == s[1..] + [x];
      KeepSnoc(s[1..], x, keep);
    }
  }

  /** Dropping one element of a filtered list is filtering a little more. */
  lemma DropOne(s: seq<TaskId>, keep: set<TaskId>, x: TaskId)
    ensures Without(Keep(s, keep), x) == Keep(s, keep - {x})
  {
    KeepTwice(s, keep, Elems(Keep(s, keep)) - {x});
    KeepSame(s, keep * (Elems(Keep(s, keep)) - {x}), keep - {x});
  }

  lemma {:induction false} KeepSame(s: seq<TaskId>, a: set<TaskId>, b: set<TaskId>)
    requires forall x :: x in s ==> (x in a <==> x in b)
    ensures Keep(s, a) == Keep(s, b)
  {
    if s != [] {
      KeepSame(s[1..], a, b);
    }
  }

  lemma {:induction false} KeepTwice(s: seq<TaskId>, first: set<TaskId>, second: set<TaskId>)
    ensures Keep(Keep(s, first), second) == Keep(s, first * second)
  {
    if s != [] {
      KeepTwice(s[1..], first, second);
      if s[0] in first {
        assert ([s[0]] + KeepRec(s[1..], first))[1..] == KeepRec(s[1..], first);
      }
    }
  }

  /** `retain(|id| id != x)`. */
  function Without(s: seq<TaskId>, x: TaskId): (r: seq<TaskId>)
    ensures forall y :: y in r <==> y in s && y != x
    ensures StrictlySorted(s) ==> StrictlySorted(r)
  {
    Keep(s, Elems(s) - {x})
  }

  lemma WithoutFirst(x: TaskId, rest: seq<TaskId>)
    requires x !in rest
    ensures Without([x] + rest, x) == rest
  {
    assert ([x] + rest)[1..] == rest;
    KeepAllOf(rest, Elems([x] + rest) - {x});
  }

  function Insert(x: TaskId, s: seq<TaskId>): seq<TaskId> {
    if s == [] || x <= s[0] then [x] + s else [s[0]] + Insert(x, s[1..])
  }

  lemma SortedCons(x: TaskId, rest: seq<TaskId>)
    requires forall y :: y in rest ==> x <= y
    ensures Sorted(rest) ==> Sorted([x] + rest)
  {
    var r := [x] + rest;
    forall i, j | 0 <= i < j < |r| && Sorted(rest) ensures r[i] <= r[j] {
      assert r[j] == rest[j - 1];
      if i > 0 { assert r[i] == rest[i - 1]; } else { assert r[j] in rest; }
    }
  }

  lemma {:induction false} InsertFacts(x: TaskId, s: seq<TaskId>)
    ensures forall y :: y in Insert(x, s) <==> y == x || y in s
    ensures |Insert(x, s)| == |s| + 1
    ensures Sorted(s) ==> Sorted(Insert(x, s))
    ensures StrictlySorted(s) && x !in s ==> StrictlySorted(Insert(x, s))
  {
    if s != [] && x > s[0] {
      var rest := Insert(x, s[1..]);
      InsertFacts(x, s[1..]);
      forall y ensures y in [s[0]] + rest <==> y == x || y in s {
        assert s == [s[0]] + s[1..];
      }
      if Sorted(s) {
        assert forall y :: y in rest ==> s[0] <= y;
        SortedCons(s[0], rest);
      }
      if StrictlySorted(s) && x !in s {
        StrictHead(s);
        StrictCons(s[0], rest);
      }
    } else if Sorted(s) {
      assert forall y :: y in s ==> x <= y;
      SortedCons(x, s);
      if x !in s { StrictCons(x, s); }
    }
  }

  function SortRec(s: seq<TaskId>): seq<TaskId> {
    if s == [] then [] else Insert(s[0], SortRec(s[1..]))
  }

  lemma {:induction false} SortFacts(s: seq<TaskId>)
    ensures forall y :: y in SortRec(s) <==> y in s
    ensures |SortRec(s)| == |s|
    ensures Sorted(SortRec(s))
    ensures NoDuplicates(s) ==> StrictlySorted(SortRec(s))
  {
    if s != [] {
      SortFacts(s[1..]);
      InsertFacts(s[0], SortRec(s[1..]));
    }
  }

  /** `sort_unstable` on a vector of ids. */
  function Sort(s: seq<TaskId>): (r: seq<TaskId>)
    ensures forall y :: y in r <==> y in s
    ensures |r| == |s|
    ensures Sorted(r)
    ensures NoDuplicates(s) ==> StrictlySorted(r)
  {
    SortFacts(s);
    SortRec(s)
  }

  function DedupRec(s: seq<TaskId>): seq<TaskId> {
    if |s| <= 1 then s
    else if s[0] == s[1] then DedupRec(s[1..])
    else [s[0]] + DedupRec(s[1..])
  }

  lemma {:induction false} DedupFacts(s: seq<TaskId>)
    ensures forall y :: y in DedupRec(s) <==> y in s
    ensures Sorted(s) ==> StrictlySorted(DedupRec(s))
  {
    if |s| > 1 {
      DedupFacts(s[1..]);
      if Sorted(s) && s[0] != s[1] {
        assert forall y :: y in DedupRec(s[1..]) ==> s[0] < y;
        StrictCons(s[0], DedupRec(s[1..]));
      }
    }
  }

  /** `dedup`: drops an element equal to its predecessor. */
  function Dedup(s: seq<TaskId>): (r: seq<TaskId>)
    ensures forall y :: y in r <==> y in s
    ensures Sorted(s) ==> StrictlySorted(r)
  {
    DedupFacts(s);
    DedupRec(s)
  }

  /** Pushes `x` unless it is already listed, and sorts (the index update of `add` and `edit`). */
  function PushSorted(s: seq<TaskId>, x: TaskId): (r: seq<TaskId>)
    ensures forall y :: y in r <==> y == x || y in s
    ensures StrictlySorted(s) ==> StrictlySorted(r)
  {
    if x in s then s else Sort(s + [x])
  }

  ghost predicate IsMax(s: set<TaskId>, m: TaskId) {
    m in s && forall x :: x in s ==> x <= m
  }

  lemma {:induction false} MaxExists(s: set<TaskId>)
    requires s != {}
    ensures exists m :: IsMax(s, m)
  {
    var x :| x in s;
    var rest := s - {x};
    assert s == rest + {x};
    if rest == {} {
      assert IsMax(s, x);
    } else {
      MaxExists(rest);
      var m :| IsMax(rest, m);
      assert IsMax(s, if x <= m then m else x);
    }
  }

  function SetMax(s: set<TaskId>): (m: TaskId)
    requires s != {}
    ensures m in s && forall x :: x in s ==> x <= m
  {
    MaxExists(s);
    assert exists m :: m in s && forall x :: x in s ==> x <= m by {
      var m :| IsMax(s, m);
    }
    var m :| m in s && forall x :: x in s ==> x <= m;
    m
  }

  function SortedSeqRec(s: set<TaskId>): seq<TaskId> {
    if s == {} then [] else var m := SetMax(s); SortedSeqRec(s - {m}) + [m]
  }

  lemma StrictSnoc(rest: seq<TaskId>, x: TaskId)
    requires forall y :: y in rest ==> y < x
    ensures StrictlySorted(rest) ==> StrictlySorted(rest + [x])
    ensures forall y :: y in rest + [x] <==> y in rest || y == x
  {
    assert forall i :: 0 <= i < |rest| ==> rest[i] in rest;
  }

  lemma {:induction false} SortedSeqFacts(s: set<TaskId>)
    ensures StrictlySorted(SortedSeqRec(s))
    ensures forall x :: x in SortedSeqRec(s) <==> x in s
    ensures |SortedSeqRec(s)| == |s|
  {
    if s != {} {
      hide StrictlySorted;
      var m := SetMax(s);
      SortedSeqFacts(s - {m});
      StrictSnoc(SortedSeqRec(s - {m}), m);
    } else {
      assert StrictlySorted([]);
    }
  }

  /** The iteration order of a `BTreeMap` over its keys. */
  function SortedSeq(s: set<TaskId>): (r: seq<TaskId>)
    ensures StrictlySorted(r)
    ensures forall x :: x in r <==> x in s
    ensures |r| == |s|
  {
    SortedSeqFacts(s);
    SortedSeqRec(s)
  }

  lemma FirstIsMember(s: seq<TaskId>)
    ensures s != [] ==> s[0] in s
  {
  }

  /** A strictly increasing list is determined by its elements. */
  lemma {:induction false} SortedUnique(a: seq<TaskId>, b: seq<TaskId>)
    requires StrictlySorted(a) && StrictlySorted(b)
    requires forall x :: x in a <==> x in b
    ensures a == b
  {
    FirstIsMember(b);
    if a != [] {
      assert a[0] in b;
      assert b[0] in a;
      var i :| 0 <= i < |a| && a[i] == b[0];
      var j :| 0 <= j < |b| && b[j] == a[0];
      assert a[0] == b[0];
      forall x ensures x in a[1..] <==> x in b[1..] {
        if x in a[1..] { assert x in a; assert x != a[0]; assert x in b; }
        if x in b[1..] { assert x in b; assert x != b[0]; assert x in a; }
      }
      SortedUnique(a[1..], b[1..]);
      assert a == [a[0]] + a[1..];
      assert b == [b[0]] + b[1..];
    }
  }

  /** Two ids trade places; every other id stays. */
  function SwapId(a: TaskId, b: TaskId, x: TaskId): (r: TaskId) {
    if x == a then b else if x == b then a else x
  }

  function SwapAll(s: seq<TaskId>, a: TaskId, b: TaskId): (r: seq<TaskId>)
    ensures |r| == |s|
    ensures forall y :: y in r <==> SwapId(a, b, y) in s
    ensures NoDuplicates(s) ==> NoDuplicates(r)
  {
    var r := seq(|s|, i requires 0 <= i < |s| => SwapId(a, b, s[i]));
    assert forall y :: SwapId(a, b, SwapId(a, b, y)) == y;
    assert forall i :: 0 <= i < |s| ==> r[i] == SwapId(a, b, s[i]) && s[i] == SwapId(a, b, r[i]);
    r
  }
}
