/**
 Flat tables of entries tagged with an id.  They are sorted by id, without reordering entries
 of one id, and then queried by binary search.
 */
module KeyedTables {
  import opened Sorting = StableSorting

  predicate SortedKeys<T>(s: seq<(nat, T)>) {
    forall i, j | 0 <= i < j < |s| :: s[i].0 <= s[j].0
  }

  predicate KeysBelow<T>(s: seq<(nat, T)>, bound: nat) {
    forall i | 0 <= i < |s| :: s[i].0 < bound
  }

  predicate AllWithKey<T>(s: seq<(nat, T)>, key: nat) {
    forall i | 0 <= i < |s| :: s[i].0 == key
  }

  /** Entries of a new, larger id may be appended. */
  lemma AppendLarger<T>(s: seq<(nat, T)>, own: seq<(nat, T)>, key: nat)
    requires SortedKeys(s) && KeysBelow(s, key) && AllWithKey(own, key)
    ensures SortedKeys(s + own) && KeysBelow(s + own, key + 1)
  {
  }

  /** The entries of one id among the first `n`, in order. */
  function ForKey<T>(s: seq<(nat, T)>, key: nat, n: nat): seq<T>
    requires n <= |s|
  {
    if n == 0 then [] else ForKey(s, key, n - 1) + if s[n - 1].0 == key then [s[n - 1].1] else []
  }

  function Filtered<T>(s: seq<(nat, T)>, key: nat): seq<T> {
    ForKey(s, key, |s|)
  }

  lemma {:induction false} ForKeyPrefix<T>(s: seq<(nat, T)>, t: seq<(nat, T)>, key: nat, n: nat)
    requires n <= |s| && n <= |t| && forall i | 0 <= i < n :: s[i] == t[i]
    ensures ForKey(s, key, n) == ForKey(t, key, n)
  {
    if n > 0 {
      ForKeyPrefix(s, t, key, n - 1);
    }
  }

  /** Entries of other ids add nothing. */
  lemma {:induction false} ForKeySkips<T>(s: seq<(nat, T)>, key: nat, i: nat, n: nat)
    requires i <= n <= |s| && forall j | i <= j < n :: s[j].0 != key
    ensures ForKey(s, key, n) == ForKey(s, key, i)
  {
    if i < n {
      ForKeySkips(s, key, i, n - 1);
    }
  }

  lemma {:induction false} FilteredConcat<T>(s: seq<(nat, T)>, t: seq<(nat, T)>, key: nat)
    ensures Filtered(s + t, key) == Filtered(s, key) + Filtered(t, key)
    decreases |t|
  {
    if t == [] {
      assert s + t == s;
    } else {
      var front := t[..|t| - 1];
      FilteredConcat(s, front, key);
      ForKeyPrefix(s + t, s + front, key, |s + front|);
      ForKeyPrefix(t, front, key, |front|);
    }
  }

  lemma FilteredSnoc<T>(s: seq<(nat, T)>, x: (nat, T), key: nat)
    ensures Filtered(s + [x], key) == Filtered(s, key) + if x.0 == key then [x.1] else []
  {
    ForKeyPrefix(s + [x], s, key, |s|);
  }

  // ----- Tables joined from segments -----

  /** The first `n` values, tagged with their id. */
  function Tagged<T>(id: nat, values: seq<T>, n: nat): seq<(nat, T)>
    requires n <= |values|
  {
    if n == 0 then [] else Tagged(id, values, n - 1) + [(id, values[n - 1])]
  }

  lemma {:induction false} TaggedFor<T>(id: nat, values: seq<T>, n: nat, key: nat)
    requires n <= |values|
    ensures |Tagged(id, values, n)| == n && AllWithKey(Tagged(id, values, n), id)
    ensures Filtered(Tagged(id, values, n), key) == if key == id then values[..n] else []
  {
    if n > 0 {
      TaggedFor(id, values, n - 1, key);
      FilteredSnoc(Tagged(id, values, n - 1), (id, values[n - 1]), key);
      assert values[..n] == values[..n - 1] + [values[n - 1]];
    }
  }

  /** Values that are entered under one id. */
  datatype Segment<T> = Segment(key: nat, items: seq<T>)

  function TaggedSegment<T>(s: Segment<T>): seq<(nat, T)> {
    Tagged(s.key, s.items, |s.items|)
  }

  function Joined<T>(segments: seq<Segment<T>>, n: nat): seq<(nat, T)>
    requires n <= |segments|
  {
    if n == 0 then [] else Joined(segments, n - 1) + TaggedSegment(segments[n - 1])
  }

  /** A segment is followed by one of a smaller id. */
  predicate Descends<T>(segments: seq<Segment<T>>, i: nat, j: nat) {
    i < j < |segments| && |segments[i].items| > 0 && |segments[j].items| > 0 && segments[i].key > segments[j].key
  }

  predicate KeysAtMost<T>(s: seq<(nat, T)>, key: nat) {
    forall i | 0 <= i < |s| :: s[i].0 <= key
  }

  lemma SortedAppend<T>(s: seq<(nat, T)>, own: seq<(nat, T)>, key: nat)
    requires AllWithKey(own, key) && |own| > 0
    ensures SortedKeys(s + own) <==> SortedKeys(s) && KeysAtMost(s, key)
    ensures forall bound: nat :: KeysAtMost(s + own, bound) <==> KeysAtMost(s, bound) && key <= bound
  {
    var all := s + own;
    assert all[|s|] == own[0];
    assert forall i | 0 <= i < |s| :: all[i] == s[i];
    assert forall i | |s| <= i < |all| :: all[i] == own[i - |s|];
  }

  predicate SegmentAtMost<T>(segment: Segment<T>, key: nat) {
    |segment.items| > 0 ==> segment.key <= key
  }

  lemma {:induction false} JoinedAtMost<T>(segments: seq<Segment<T>>, n: nat, key: nat)
    requires n <= |segments|
    ensures KeysAtMost(Joined(segments, n), key) <==> forall i | 0 <= i < n :: SegmentAtMost(segments[i], key)
  {
    if n > 0 {
      JoinedAtMost(segments, n - 1, key);
      SegmentAppended(Joined(segments, n - 1), segments[n - 1], key);
    }
  }

  /** What entering one more segment does to the table. */
  lemma SegmentAppended<T>(before: seq<(nat, T)>, last: Segment<T>, bound: nat)
    ensures KeysAtMost(before + TaggedSegment(last), bound) <==> KeysAtMost(before, bound) && SegmentAtMost(last, bound)
    ensures SortedKeys(before + TaggedSegment(last)) <==>
            SortedKeys(before) && (|last.items| > 0 ==> KeysAtMost(before, last.key))
  {
    TaggedFor(last.key, last.items, |last.items|, 0);
    if |last.items| > 0 {
      SortedAppend(before, TaggedSegment(last), last.key);
    } else {
      assert before + TaggedSegment(last) == before;
    }
  }

  /** No earlier segment has a larger id than segment `j`. */
  predicate Follows<T>(segments: seq<Segment<T>>, j: nat) {
    forall i: nat | i < j :: !Descends(segments, i, j)
  }

  lemma {:induction false} JoinedSortedUpTo<T>(segments: seq<Segment<T>>, n: nat)
    requires n <= |segments|
    ensures SortedKeys(Joined(segments, n)) <==> forall j | 0 <= j < n :: Follows(segments, j)
  {
    if n > 0 {
      JoinedSortedUpTo(segments, n - 1);
      SegmentAppended(Joined(segments, n - 1), segments[n - 1], 0);
      SegmentFollows(segments, n - 1);
    }
  }

  lemma FollowsAtMost<T>(segments: seq<Segment<T>>, j: nat)
    requires j < |segments| && |segments[j].items| > 0
    ensures Follows(segments, j) <==> forall i | 0 <= i < j :: SegmentAtMost(segments[i], segments[j].key)
  {
    if Follows(segments, j) {
      forall i | 0 <= i < j
        ensures SegmentAtMost(segments[i], segments[j].key)
      {
        assert !Descends(segments, i, j);
      }
    }
  }

  lemma SegmentFollows<T>(segments: seq<Segment<T>>, j: nat)
    requires j < |segments|
    ensures Follows(segments, j) <==> (|segments[j].items| > 0 ==> KeysAtMost(Joined(segments, j), segments[j].key))
  {
    if |segments[j].items| > 0 {
      JoinedAtMost(segments, j, segments[j].key);
      FollowsAtMost(segments, j);
    }
  }

  /** A table joined from segments is sorted exactly when no segment descends to a later one. */
  lemma JoinedSorted<T>(segments: seq<Segment<T>>)
    ensures SortedKeys(Joined(segments, |segments|)) <==> forall i: nat, j: nat :: !Descends(segments, i, j)
  {
    JoinedSortedUpTo(segments, |segments|);
    if forall j | 0 <= j < |segments| :: Follows(segments, j) {
      forall i: nat, j: nat
        ensures !Descends(segments, i, j)
      {
        assert j < |segments| ==> Follows(segments, j);
      }
    }
  }

  function ItemsFor<T>(segment: Segment<T>, key: nat): seq<T> {
    if segment.key == key then segment.items else []
  }

  /** The values entered under one id by the first `n` segments. */
  function Under<T>(segments: seq<Segment<T>>, key: nat, n: nat): seq<T>
    requires n <= |segments|
  {
    if n == 0 then [] else Under(segments, key, n - 1) + ItemsFor(segments[n - 1], key)
  }

  lemma SegmentFiltered<T>(segment: Segment<T>, key: nat)
    ensures Filtered(TaggedSegment(segment), key) == ItemsFor(segment, key)
  {
    TaggedFor(segment.key, segment.items, |segment.items|, key);
    assert segment.items[..|segment.items|] == segment.items;
  }

  lemma {:induction false} JoinedFiltered<T>(segments: seq<Segment<T>>, key: nat, n: nat)
    requires n <= |segments|
    ensures Filtered(Joined(segments, n), key) == Under(segments, key, n)
  {
    if n > 0 {
      JoinedFiltered(segments, key, n - 1);
      SegmentFiltered(segments[n - 1], key);
      FilteredConcat(Joined(segments, n - 1), TaggedSegment(segments[n - 1]), key);
    }
  }

  // ----- Queries -----

  /** A position before which the id is below the key and at which it is not. */
  predicate Boundary<T>(s: seq<(nat, T)>, key: nat, p: nat) {
    p <= |s| && (p > 0 ==> s[p - 1].0 < key) && (p < |s| ==> key <= s[p].0)
  }

  /** Binary search; in a sorted table it finds the first entry whose id is not below the key. */
  method PartitionPoint<T>(s: seq<(nat, T)>, key: nat) returns (p: nat)
    ensures Boundary(s, key, p)
    ensures SortedKeys(s) ==> forall i | 0 <= i < p :: s[i].0 < key
    ensures SortedKeys(s) ==> forall i | p <= i < |s| :: key <= s[i].0
  {
    var lo, hi := 0, |s|;
    while lo < hi
      invariant 0 <= lo <= hi <= |s|
      invariant lo > 0 ==> s[lo - 1].0 < key
      invariant hi < |s| ==> key <= s[hi].0
    {
      var mid := (lo + hi) / 2;
      if s[mid].0 < key {
        lo := mid + 1;
      } else {
        hi := mid;
      }
    }
    p := lo;
  }

  /** The values from a position on while the id matches. */
  function RunFrom<T>(s: seq<(nat, T)>, key: nat, p: nat): seq<T>
    decreases |s| - p
  {
    if p < |s| && s[p].0 == key then [s[p].1] + RunFrom(s, key, p + 1) else []
  }

  lemma {:induction false} RunIsRest<T>(s: seq<(nat, T)>, key: nat, p: nat)
    requires p <= |s| && SortedKeys(s) && forall i | p <= i < |s| :: key <= s[i].0
    ensures ForKey(s, key, p) + RunFrom(s, key, p) == Filtered(s, key)
    decreases |s| - p
  {
    if p < |s| && s[p].0 == key {
      RunIsRest(s, key, p + 1);
      assert ForKey(s, key, p + 1) == ForKey(s, key, p) + [s[p].1];
    } else {
      ForKeySkips(s, key, p, |s|);
    }
  }

  /** In a sorted table, wherever the search ends, the run is everything that is entered under the id. */
  lemma RunIsFiltered<T>(s: seq<(nat, T)>, key: nat, p: nat)
    requires SortedKeys(s) && Boundary(s, key, p)
    ensures RunFrom(s, key, p) == Filtered(s, key)
  {
    ForKeySkips(s, key, 0, p);
    RunIsRest(s, key, p);
  }

  /** Binary search and then reading while the id matches; in a sorted table this is filtering it. */
  method IterForKey<T>(s: seq<(nat, T)>, key: nat) returns (items: seq<T>)
    ensures exists p: nat :: Boundary(s, key, p) && items == RunFrom(s, key, p)
    ensures SortedKeys(s) ==> items == Filtered(s, key)
  {
    var start := PartitionPoint(s, key);
    var i := start;
    items := [];
    while i < |s| && s[i].0 == key
      invariant i <= |s| && items + RunFrom(s, key, i) == RunFrom(s, key, start)
    {
      items := items + [s[i].1];
      i := i + 1;
    }
    if SortedKeys(s) {
      RunIsFiltered(s, key, start);
    }
  }

  // ----- Stable sorting -----

  predicate KeyLe<T>(a: (nat, T), b: (nat, T)) {
    a.0 <= b.0
  }

  /** Sorts by id; entries of one id keep their order. */
  function SortByKey<T(!new)>(s: seq<(nat, T)>): seq<(nat, T)> {
    StableSort(s, KeyLe)
  }

  lemma SortByKeySorts<T(!new)>(s: seq<(nat, T)>)
    ensures SortedKeys(SortByKey(s)) && multiset(SortByKey(s)) == multiset(s)
  {
    StableSortSorts(s, KeyLe);
    assert forall i, j | 0 <= i < j < |SortByKey(s)| :: KeyLe(SortByKey(s)[i], SortByKey(s)[j]);
  }

  lemma {:induction false} InsertIsStable<T(!new)>(s: seq<(nat, T)>, x: (nat, T), key: nat)
    ensures Filtered(Insert(s, x, KeyLe), key) == Filtered(s, key) + if x.0 == key then [x.1] else []
  {
    if s == [] || KeyLe(s[|s| - 1], x) {
      FilteredSnoc(s, x, key);
    } else {
      var front, last := s[..|s| - 1], s[|s| - 1];
      InsertIsStable(front, x, key);
      FilteredSnoc(Insert(front, x, KeyLe), last, key);
      FilteredSnoc(front, last, key);
      assert s == front + [last];
    }
  }

  /** Sorting keeps, for every id, its entries in their order. */
  lemma {:induction false} SortByKeyIsStable<T(!new)>(s: seq<(nat, T)>, key: nat)
    ensures Filtered(SortByKey(s), key) == Filtered(s, key)
  {
    if s != [] {
      var front, last := s[..|s| - 1], s[|s| - 1];
      SortByKeyIsStable(front, key);
      InsertIsStable(SortByKey(front), last, key);
      FilteredSnoc(front, last, key);
      assert s == front + [last];
    }
  }

  /** Sorting leaves a table alone exactly when it is sorted already. */
  lemma SortedIsUntouched<T(!new)>(s: seq<(nat, T)>)
    ensures SortByKey(s) == s <==> SortedKeys(s)
  {
    Sorting.SortedIsUntouched(s, KeyLe);
    assert SortedBy(s, KeyLe) <==> SortedKeys(s);
  }
}
