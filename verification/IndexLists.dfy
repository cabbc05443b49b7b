/** The vectors behind the id sets: every operation the daemon performs on a `dependents` list,
    or on the dependencies of a new task, yields the sorted list of the set that the model keeps. */
module IndexLists {
  import opened Lists
  import opened Switch

  /** Pushing unless present, then sorting, adds an element (`add`, `edit`). */
  lemma PushIsInsertion(s: set<TaskId>, x: TaskId)
    ensures PushSorted(SortedSeq(s), x) == SortedSeq(s + {x})
  {
    SortedUnique(PushSorted(SortedSeq(s), x), SortedSeq(s + {x}));
  }

  /** Retaining all other elements removes one (`remove`, `clean`, `edit`). */
  lemma RetainIsRemoval(s: set<TaskId>, x: TaskId)
    ensures Without(SortedSeq(s), x) == SortedSeq(s - {x})
  {
    SortedUnique(Without(SortedSeq(s), x), SortedSeq(s - {x}));
  }

  lemma StrictIsDistinct(list: seq<TaskId>)
    ensures StrictlySorted(list) ==> NoDuplicates(list)
  {
  }

  lemma SwapTwice(a: TaskId, b: TaskId, x: TaskId)
    ensures SwapId(a, b, SwapId(a, b, x)) == x
  {
  }

  /** Renaming two ids in place, then sorting, is the image of the set (`switch`). */
  lemma RenameIsImage(s: set<TaskId>, a: TaskId, b: TaskId)
    ensures Sort(SwapAll(SortedSeq(s), a, b)) == SortedSeq(SwapSet(a, b, s))
  {
    hide Sort, SwapAll, SortedSeq, SwapId, SwapSet, StrictlySorted, NoDuplicates;
    var list := SortedSeq(s);
    StrictIsDistinct(list);
    var renamed := SwapAll(list, a, b);
    forall x ensures x in renamed <==> x in SwapSet(a, b, s) {
      SwapSetIsImage(a, b, s, SwapId(a, b, x));
      SwapTwice(a, b, x);
    }
    SortedUnique(Sort(renamed), SortedSeq(SwapSet(a, b, s)));
  }

  /** Sorting and dropping repetitions forgets how a request listed its ids (`add`). */
  lemma SortDedupIsElements(list: seq<TaskId>)
    ensures Dedup(Sort(list)) == SortedSeq(Elems(list))
  {
    SortedUnique(Dedup(Sort(list)), SortedSeq(Elems(list)));
  }

  /** Sorting a list without repetitions forgets the order in which it grew (the index rebuild). */
  lemma SortIsElements(list: seq<TaskId>)
    requires NoDuplicates(list)
    ensures Sort(list) == SortedSeq(Elems(list))
  {
    SortedUnique(Sort(list), SortedSeq(Elems(list)));
  }
}
