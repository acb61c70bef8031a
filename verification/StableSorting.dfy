/**
 Stable sorting by a total preorder.
 */
module StableSorting {
  ghost predicate IsPreorder<T(!new)>(le: (T, T) -> bool) {
    && (forall a, b :: le(a, b) || le(b, a))
    && (forall a, b, c :: le(a, b) && le(b, c) ==> le(a, c))
  }

  predicate SortedBy<T>(s: seq<T>, le: (T, T) -> bool) {
    forall i, j | 0 <= i < j < |s| :: le(s[i], s[j])
  }

  /** Inserts an element behind all elements that are not greater. */
  function Insert<T>(s: seq<T>, x: T, le: (T, T) -> bool): seq<T> {
    if s == [] || le(s[|s| - 1], x) then s + [x] else Insert(s[..|s| - 1], x, le) + [s[|s| - 1]]
  }

  function StableSort<T>(s: seq<T>, le: (T, T) -> bool): seq<T> {
    if s == [] then [] else Insert(StableSort(s[..|s| - 1], le), s[|s| - 1], le)
  }

  lemma {:induction false} InsertSorts<T(!new)>(s: seq<T>, x: T, le: (T, T) -> bool)
    requires IsPreorder(le) && SortedBy(s, le)
    ensures SortedBy(Insert(s, x, le), le)
    ensures forall y | y in Insert(s, x, le) :: y == x || y in s
  {
    if s == [] {
    } else if le(s[|s| - 1], x) {
      forall i | 0 <= i < |s|
        ensures le(s[i], x)
      {
        assert i == |s| - 1 || le(s[i], s[|s| - 1]);
      }
    } else {
      var front, last := s[..|s| - 1], s[|s| - 1];
      InsertSorts(front, x, le);
      forall i | 0 <= i < |Insert(front, x, le)|
        ensures le(Insert(front, x, le)[i], last)
      {
        assert Insert(front, x, le)[i] in Insert(front, x, le);
        assert le(x, last) && forall j | 0 <= j < |front| :: le(front[j], last);
      }
    }
  }

  lemma {:induction false} InsertKeeps<T>(s: seq<T>, x: T, le: (T, T) -> bool)
    ensures multiset(Insert(s, x, le)) == multiset(s) + multiset{x} && |Insert(s, x, le)| == |s| + 1
  {
    if s != [] && !le(s[|s| - 1], x) {
      InsertKeeps(s[..|s| - 1], x, le);
      assert s == s[..|s| - 1] + [s[|s| - 1]];
    }
  }

  /** Sorting sorts, and neither adds nor drops anything. */
  lemma {:induction false} StableSortSorts<T(!new)>(s: seq<T>, le: (T, T) -> bool)
    requires IsPreorder(le)
    ensures SortedBy(StableSort(s, le), le)
    ensures multiset(StableSort(s, le)) == multiset(s) && |StableSort(s, le)| == |s|
  {
    if s != [] {
      var front, last := s[..|s| - 1], s[|s| - 1];
      StableSortSorts(front, le);
      InsertSorts(StableSort(front, le), last, le);
      InsertKeeps(StableSort(front, le), last, le);
      assert s == front + [last];
    }
  }

  /** Sorting leaves a sequence alone exactly when it is sorted already. */
  lemma {:induction false} SortedIsUntouched<T(!new)>(s: seq<T>, le: (T, T) -> bool)
    requires IsPreorder(le)
    ensures StableSort(s, le) == s <==> SortedBy(s, le)
  {
    StableSortSorts(s, le);
    if SortedBy(s, le) && s != [] {
      var front, last := s[..|s| - 1], s[|s| - 1];
      SortedIsUntouched(front, le);
      assert s == front + [last];
    }
  }

  // ----- Stability -----

  /** The elements that meet a condition, in order. */
  function Kept<T>(s: seq<T>, keep: T -> bool): seq<T> {
    if s == [] then [] else Kept(s[..|s| - 1], keep) + if keep(s[|s| - 1]) then [s[|s| - 1]] else []
  }

  lemma {:induction false} InsertIsStable<T(!new)>(s: seq<T>, x: T, le: (T, T) -> bool, keep: T -> bool)
    requires forall a, b | keep(a) && keep(b) :: le(a, b)
    ensures Kept(Insert(s, x, le), keep) == if keep(x) then Kept(s, keep) + [x] else Kept(s, keep)
  {
    if s == [] || le(s[|s| - 1], x) {
      assert (s + [x])[..|s|] == s;
    } else {
      var front, last := s[..|s| - 1], s[|s| - 1];
      InsertIsStable(front, x, le, keep);
      var rest := Insert(front, x, le);
      assert (rest + [last])[..|rest|] == rest;
      if keep(x) {
        assert !keep(last);
      }
    }
  }

  /** Elements that compare as equal keep their order. */
  lemma {:induction false} StableSortIsStable<T(!new)>(s: seq<T>, le: (T, T) -> bool, keep: T -> bool)
    requires forall a, b | keep(a) && keep(b) :: le(a, b)
    ensures Kept(StableSort(s, le), keep) == Kept(s, keep)
  {
    if s != [] {
      var front, last := s[..|s| - 1], s[|s| - 1];
      StableSortIsStable(front, le, keep);
      InsertIsStable(StableSort(front, le), last, le, keep);
    }
  }
}
