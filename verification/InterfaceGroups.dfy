/**
 Interfaces and their implementers.  The pairs are sorted and then read group by group.
 */
module InterfaceGroups {
  import opened Common
  import opened StableSorting

  datatype Implementation = Implementation(interface: string, implementer: string)

  datatype Group = Group(interface: string, elements: seq<Implementation>)

  // ----- The order -----

  /** Interfaces first, then implementers. */
  predicate Le(x: Implementation, y: Implementation) {
    if x.interface != y.interface then StringLe(x.interface, y.interface) else StringLe(x.implementer, y.implementer)
  }

  lemma LeTotal(x: Implementation, y: Implementation)
    ensures Le(x, y) || Le(y, x)
  {
    StringLeTotal(x.interface, y.interface);
    StringLeTotal(x.implementer, y.implementer);
  }

  lemma LeTransitive(x: Implementation, y: Implementation, z: Implementation)
    requires Le(x, y) && Le(y, z)
    ensures Le(x, z)
  {
    if x.interface == y.interface && y.interface == z.interface {
      StringLeTransitive(x.implementer, y.implementer, z.implementer);
    } else if x.interface == z.interface {
      StringLeAntisymmetric(x.interface, y.interface);
    } else if x.interface != y.interface && y.interface != z.interface {
      StringLeTransitive(x.interface, y.interface, z.interface);
    }
  }

  predicate Sorted(s: seq<Implementation>) {
    forall i, j | 0 <= i < j < |s| :: Le(s[i], s[j])
  }

  function Sort(s: seq<Implementation>): seq<Implementation> {
    StableSort(s, Le)
  }

  lemma SortSorts(s: seq<Implementation>)
    ensures Sorted(Sort(s)) && multiset(Sort(s)) == multiset(s)
  {
    forall x, y
      ensures Le(x, y) || Le(y, x)
    {
      LeTotal(x, y);
    }
    forall x, y, z | Le(x, y) && Le(y, z)
      ensures Le(x, z)
    {
      LeTransitive(x, y, z);
    }
    StableSortSorts(s, Le);
  }

  // ----- The groups -----

  /** The implementations of one interface among the first `n`. */
  function Of(s: seq<Implementation>, interface: string, n: nat): seq<Implementation>
    requires n <= |s|
  {
    if n == 0 then [] else Of(s, interface, n - 1) + if s[n - 1].interface == interface then [s[n - 1]] else []
  }

  lemma {:induction false} OfSlice(s: seq<Implementation>, interface: string, start: nat, end: nat, n: nat)
    requires start <= end <= n <= |s|
    requires forall i | 0 <= i < n :: s[i].interface == interface <==> start <= i < end
    ensures Of(s, interface, n) == s[start..end]
    decreases n
  {
    if end < n {
      OfSlice(s, interface, start, end, n - 1);
    } else if start < end {
      OfSlice(s, interface, start, end - 1, n - 1);
      assert s[start..end] == s[start..end - 1] + [s[end - 1]];
    } else if n > 0 {
      OfSlice(s, interface, n - 1, n - 1, n - 1);
    }
  }

  /** In a sorted table the entries of one interface stand together. */
  lemma Together(s: seq<Implementation>, i: nat, j: nat, k: nat)
    requires Sorted(s) && i < j < k < |s| && s[i].interface == s[k].interface
    ensures s[j].interface == s[i].interface
  {
    if s[j].interface != s[i].interface {
      assert Le(s[i], s[j]) && Le(s[j], s[k]);
      StringLeAntisymmetric(s[i].interface, s[j].interface);
    }
  }

  function Concat(groups: seq<Group>): seq<Implementation> {
    if groups == [] then [] else Concat(groups[..|groups| - 1]) + groups[|groups| - 1].elements
  }

  /** A group that stands alone: it is not empty and holds all implementers of its interface. */
  predicate IsGroup(s: seq<Implementation>, g: Group) {
    g.elements != [] && g.elements == Of(s, g.interface, |s|)
  }

  /** Nothing before `n` belongs to an interface that comes up from `n` on. */
  predicate Boundary(s: seq<Implementation>, n: nat) {
    forall i, j | 0 <= i < n <= j < |s| :: s[i].interface != s[j].interface
  }

  /** Finds the end of the group that begins at `start`. */
  method GroupEnd(s: seq<Implementation>, start: nat) returns (end: nat)
    requires Sorted(s) && start < |s| && Boundary(s, start)
    ensures start < end <= |s| && Boundary(s, end)
    ensures forall i | start <= i < end :: s[i].interface == s[start].interface
    ensures IsGroup(s, Group(s[start].interface, s[start..end]))
  {
    end := start;
    while end < |s| && s[end].interface == s[start].interface
      invariant start <= end <= |s| && forall i | start <= i < end :: s[i].interface == s[start].interface
    {
      end := end + 1;
    }
    forall i | end <= i < |s|
      ensures s[i].interface != s[start].interface
    {
      if s[i].interface == s[start].interface && end < i {
        Together(s, start, end, i);
      }
    }
    OfSlice(s, s[start].interface, start, end, |s|);
  }

  lemma ConcatSnoc(groups: seq<Group>, g: Group)
    ensures Concat(groups + [g]) == Concat(groups) + g.elements
  {
    assert (groups + [g])[..|groups|] == groups;
  }

  /** Reads the table group by group: every interface comes up once, with all its implementers. */
  method IterInterfaces(s: seq<Implementation>) returns (groups: seq<Group>)
    requires Sorted(s)
    ensures Concat(groups) == s
    ensures forall g | 0 <= g < |groups| :: IsGroup(s, groups[g])
    ensures forall g, h | 0 <= g < h < |groups| :: groups[g].interface != groups[h].interface
  {
    groups := [];
    var start := 0;
    while start < |s|
      invariant start <= |s| && Concat(groups) == s[..start] && Boundary(s, start)
      invariant forall g, j | 0 <= g < |groups| && start <= j < |s| :: groups[g].interface != s[j].interface
      invariant forall g | 0 <= g < |groups| :: IsGroup(s, groups[g])
      invariant forall g, h | 0 <= g < h < |groups| :: groups[g].interface != groups[h].interface
    {
      var end := GroupEnd(s, start);
      var group := Group(s[start].interface, s[start..end]);
      ConcatSnoc(groups, group);
      assert s[..end] == s[..start] + s[start..end];
      groups := groups + [group];
      start := end;
    }
    assert s[..|s|] == s;
  }
}
