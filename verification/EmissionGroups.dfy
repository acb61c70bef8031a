/**
 All groups: consecutive fields of one definition form a group, objects inherit the fields of
 their entity interfaces, and every definition ends up with one block of its own.
 */
module EmissionGroups {
  import opened Common
  import opened EmissionModel
  import opened Emission

  // ----- Groups of composed fields -----

  /** The fields of a definition are consecutive. */
  predicate Grouped(ir: seq<FieldIr>) {
    forall i, j, k | 0 <= i < j < k < |ir| && ir[i].parent == ir[k].parent :: ir[j].parent == ir[i].parent
  }

  /** The fields of one definition among the first `n`. */
  function FieldsOf(ir: seq<FieldIr>, d: Definition, n: nat): seq<FieldIr>
    requires n <= |ir|
  {
    if n == 0 then [] else FieldsOf(ir, d, n - 1) + if ir[n - 1].parent == d then [ir[n - 1]] else []
  }

  lemma {:induction false} FieldsSlice(ir: seq<FieldIr>, d: Definition, start: nat, end: nat, n: nat)
    requires start <= end <= n <= |ir| && forall i | 0 <= i < n :: ir[i].parent == d <==> start <= i < end
    ensures FieldsOf(ir, d, n) == ir[start..end]
    decreases n
  {
    if end < n {
      FieldsSlice(ir, d, start, end, n - 1);
    } else if start < end {
      FieldsSlice(ir, d, start, end - 1, n - 1);
      assert ir[start..end] == ir[start..end - 1] + [ir[end - 1]];
    } else if n > 0 {
      FieldsSlice(ir, d, n - 1, n - 1, n - 1);
    }
  }

  /** The end of the group that begins at `start`, found by binary search. */
  method GroupEnd(ir: seq<FieldIr>, start: nat) returns (end: nat)
    requires Grouped(ir) && start < |ir|
    ensures start < end <= |ir|
    ensures forall i | start <= i < end :: ir[i].parent == ir[start].parent
    ensures forall i | end <= i < |ir| :: ir[i].parent != ir[start].parent
  {
    var d := ir[start].parent;
    var lo, hi := start, |ir|;
    while lo < hi
      invariant start <= lo <= hi <= |ir|
      invariant forall i | start <= i < lo :: ir[i].parent == d
      invariant forall i | hi <= i < |ir| :: ir[i].parent != d
    {
      var mid := (lo + hi) / 2;
      if ir[mid].parent == d {
        forall i | start <= i <= mid
          ensures ir[i].parent == d
        {
          if start < i < mid {
            assert ir[start].parent == ir[mid].parent;
          }
        }
        lo := mid + 1;
      } else {
        forall i | mid <= i < |ir|
          ensures ir[i].parent != d
        {
          assert start < mid < i ==> ir[start].parent != ir[i].parent;
        }
        hi := mid;
      }
    }
    end := lo;
  }

  /** The fields that an object takes over from its entity interfaces. */
  function Inherited(ir: seq<FieldIr>, entityFields: seq<(string, nat)>, name: string, n: nat): seq<FieldIr>
    requires n <= |entityFields| && forall i | 0 <= i < |entityFields| :: entityFields[i].1 < |ir|
  {
    if n == 0 then []
    else Inherited(ir, entityFields, name, n - 1) +
         if entityFields[n - 1].0 == name then [ir[entityFields[n - 1].1]] else []
  }

  datatype Input = Input(ir: seq<FieldIr>, entityFields: seq<(string, nat)>, objectNames: seq<string>)

  predicate Valid(input: Input, objects: nat, interfaces: nat) {
    && Grouped(input.ir)
    && |input.objectNames| == objects
    && (forall i | 0 <= i < |input.entityFields| :: input.entityFields[i].1 < |input.ir|)
    && (forall i | 0 <= i < |input.ir| ::
          match input.ir[i].parent
          case Object(id) => id < objects
          case Interface(id) => id < interfaces
          case Other(_) => false)
  }

  /** Everything that is emitted for a definition: its own fields and those it inherits. */
  function GroupOf(input: Input, d: Definition): seq<FieldIr>
    requires forall i | 0 <= i < |input.entityFields| :: input.entityFields[i].1 < |input.ir|
  {
    FieldsOf(input.ir, d, |input.ir|) +
    if d.Object? && d.id < |input.objectNames| then
      Inherited(input.ir, input.entityFields, input.objectNames[d.id], |input.entityFields|)
    else []
  }

  /** The own fields of a definition are those that name it as their parent, in order and none left out. */
  lemma {:induction false} OwnFieldsAreWritten(ir: seq<FieldIr>, d: Definition, n: nat)
    requires n <= |ir|
    ensures Sifted(ir[..n], (x: FieldIr, y: FieldIr) => x == y && x.parent == d, FieldsOf(ir, d, n))
  {
    hide Sifted;
    var own := (x: FieldIr, y: FieldIr) => x == y && x.parent == d;
    if n == 0 {
      SiftedNone(own);
      assert ir[..0] == [];
    } else {
      OwnFieldsAreWritten(ir, d, n - 1);
      assert ir[..n] == ir[..n - 1] + [ir[n - 1]];
      if ir[n - 1].parent == d {
        SiftedOne(ir[..n - 1], ir[n - 1], own, FieldsOf(ir, d, n - 1), ir[n - 1]);
      } else {
        SiftedSkip(ir[..n - 1], ir[n - 1], own, FieldsOf(ir, d, n - 1));
        assert FieldsOf(ir, d, n - 1) + [] == FieldsOf(ir, d, n - 1);
      }
    }
  }

  /** The entry lists a field under a name. */
  predicate ListedUnder(ir: seq<FieldIr>, name: string, entry: (string, nat), field: FieldIr) {
    entry.0 == name && entry.1 < |ir| && field == ir[entry.1]
  }

  /** The fields that are inherited under a name are those listed under it, in order and none left out. */
  lemma {:induction false} InheritedAreListed(ir: seq<FieldIr>, entityFields: seq<(string, nat)>, name: string, n: nat)
    requires n <= |entityFields| && forall i | 0 <= i < |entityFields| :: entityFields[i].1 < |ir|
    ensures Sifted(entityFields[..n], (x: (string, nat), y: FieldIr) => ListedUnder(ir, name, x, y),
                   Inherited(ir, entityFields, name, n))
  {
    hide Sifted;
    var listed := (x: (string, nat), y: FieldIr) => ListedUnder(ir, name, x, y);
    if n == 0 {
      SiftedNone<(string, nat), FieldIr>(listed);
      assert entityFields[..0] == [];
    } else {
      var before, x := Inherited(ir, entityFields, name, n - 1), entityFields[n - 1];
      InheritedAreListed(ir, entityFields, name, n - 1);
      assert entityFields[..n] == entityFields[..n - 1] + [x];
      if x.0 == name {
        SiftedOne<(string, nat), FieldIr>(entityFields[..n - 1], x, listed, before, ir[x.1]);
      } else {
        SiftedSkip<(string, nat), FieldIr>(entityFields[..n - 1], x, listed, before);
        assert before + [] == before;
      }
    }
  }

  /** The group of a definition is made of its own fields and, for an object, of the entity fields that are listed
      under the name of that object. */
  lemma GroupIsWritten(input: Input, d: Definition) returns (own: seq<FieldIr>, inherited: seq<FieldIr>)
    requires forall i | 0 <= i < |input.entityFields| :: input.entityFields[i].1 < |input.ir|
    ensures GroupOf(input, d) == own + inherited
    ensures Sifted(input.ir, (x: FieldIr, y: FieldIr) => x == y && x.parent == d, own)
    ensures d.Object? && d.id < |input.objectNames| ==>
              var name := input.objectNames[d.id];
              Sifted(input.entityFields, (x: (string, nat), y: FieldIr) => ListedUnder(input.ir, name, x, y), inherited)
    ensures !d.Object? || d.id >= |input.objectNames| ==> inherited == []
  {
    hide Sifted;
    own, inherited := FieldsOf(input.ir, d, |input.ir|), [];
    OwnFieldsAreWritten(input.ir, d, |input.ir|);
    assert input.ir[..|input.ir|] == input.ir;
    if d.Object? && d.id < |input.objectNames| {
      var name := input.objectNames[d.id];
      inherited := Inherited(input.ir, input.entityFields, name, |input.entityFields|);
      InheritedAreListed(input.ir, input.entityFields, name, |input.entityFields|);
      assert input.entityFields[..|input.entityFields|] == input.entityFields;
    }
  }

  // ----- Blocks -----

  datatype Layout = Layout(objects: seq<Range>, interfaces: seq<Range>, emitted: seq<Emitted>)

  predicate Owns(l: Layout, d: Definition, f: nat) {
    && IsOwner(l.objects, l.interfaces, d)
    && RangeOf(l.objects, l.interfaces, d).start <= f < RangeOf(l.objects, l.interfaces, d).end
  }

  predicate Comes(l: Layout, d: Definition, f: nat) {
    f < |l.emitted| && l.emitted[f].owner == d
  }

  /** Each range holds the fields of its definition and no others, so every field has one owner. */
  ghost predicate Exact(l: Layout) {
    forall d, f: nat :: Owns(l, d, f) <==> Comes(l, d, f)
  }

  predicate Lists(l: Layout, d: Definition, block: seq<Emitted>) {
    && IsOwner(l.objects, l.interfaces, d)
    && var r := RangeOf(l.objects, l.interfaces, d);
    r.start <= r.end <= |l.emitted| && l.emitted[r.start..r.end] == block
  }

  predicate Unowning(l: Layout, d: Definition) {
    IsOwner(l.objects, l.interfaces, d) ==> RangeOf(l.objects, l.interfaces, d) == NO_FIELDS
  }

  /** One more block was emitted. */
  ghost predicate Added(l: Layout, m: Layout, d: Definition, block: seq<Emitted>) {
    && |m.objects| == |l.objects| && |m.interfaces| == |l.interfaces| && m.emitted == l.emitted + block
    && forall e | IsOwner(m.objects, m.interfaces, e) ::
         RangeOf(m.objects, m.interfaces, e) ==
         if e == d then Range(|l.emitted|, |m.emitted|) else RangeOf(l.objects, l.interfaces, e)
  }

  lemma AddedExact(l: Layout, m: Layout, d: Definition, block: seq<Emitted>)
    requires Exact(l) && Unowning(l, d) && IsOwner(l.objects, l.interfaces, d) && Added(l, m, d, block)
    requires forall i | 0 <= i < |block| :: block[i].owner == d
    ensures Exact(m)
  {
    forall e, f: nat
      ensures Owns(m, e, f) <==> Comes(m, e, f)
    {
      assert Owns(l, e, f) <==> Comes(l, e, f);
      assert !Owns(l, d, f) && !Comes(l, d, f);
      assert IsOwner(m.objects, m.interfaces, e) <==> IsOwner(l.objects, l.interfaces, e);
      if |l.emitted| <= f < |m.emitted| {
        assert m.emitted[f] == block[f - |l.emitted|];
      }
    }
  }

  lemma AddedLists(l: Layout, m: Layout, d: Definition, block: seq<Emitted>)
    requires IsOwner(l.objects, l.interfaces, d) && Added(l, m, d, block)
    ensures Lists(m, d, block)
  {
    assert IsOwner(m.objects, m.interfaces, d);
  }

  lemma AddedKeeps(l: Layout, m: Layout, d: Definition, block: seq<Emitted>, e: Definition, own: seq<Emitted>)
    requires Added(l, m, d, block) && Lists(l, e, own) && d != e
    ensures Lists(m, e, own)
  {
    assert IsOwner(m.objects, m.interfaces, e);
    var r := RangeOf(l.objects, l.interfaces, e);
    assert m.emitted[r.start..r.end] == l.emitted[r.start..r.end];
  }

  lemma BlockOwner(d: Definition, group: seq<FieldIr>, root: nat)
    ensures forall i | 0 <= i < |Block(d, group, root)| :: Block(d, group, root)[i].owner == d
  {
    var sorted := SortByName(group);
    EmittedAsAt(d, sorted, |sorted|);
  }

  /** The definition has a field before position `n`. */
  predicate Seen(ir: seq<FieldIr>, d: Definition, n: nat)
    requires n <= |ir|
  {
    exists i :: 0 <= i < n && ir[i].parent == d
  }

  /** Definitions whose group was emitted list their block; the others own nothing yet. */
  predicate TileAt(l: Layout, input: Input, root: nat, n: nat, d: Definition)
    requires n <= |input.ir| && forall i | 0 <= i < |input.entityFields| :: input.entityFields[i].1 < |input.ir|
  {
    if Seen(input.ir, d, n) then Lists(l, d, Block(d, GroupOf(input, d), root)) else Unowning(l, d)
  }

  ghost predicate Tiled(l: Layout, input: Input, root: nat, n: nat)
    requires n <= |input.ir| && forall i | 0 <= i < |input.entityFields| :: input.entityFields[i].1 < |input.ir|
  {
    Exact(l) && forall d :: TileAt(l, input, root, n, d)
  }

  lemma {:induction false} TiledGrows(l: Layout, m: Layout, input: Input, root: nat, start: nat, end: nat)
    requires Valid(input, |l.objects|, |l.interfaces|) && start < end <= |input.ir| && Tiled(l, input, root, start)
    requires forall i | start <= i < end :: input.ir[i].parent == input.ir[start].parent
    requires !Seen(input.ir, input.ir[start].parent, start)
    requires var d := input.ir[start].parent; Added(l, m, d, Block(d, GroupOf(input, d), root))
    ensures Tiled(m, input, root, end)
  {
    var d := input.ir[start].parent;
    var block := Block(d, GroupOf(input, d), root);
    BlockOwner(d, GroupOf(input, d), root);
    assert TileAt(l, input, root, start, d);
    AddedExact(l, m, d, block);
    forall e
      ensures TileAt(m, input, root, end, e)
    {
      assert TileAt(l, input, root, start, e);
      if e == d {
        AddedLists(l, m, d, block);
        assert input.ir[start].parent == d;
      } else if Seen(input.ir, e, start) {
        AddedKeeps(l, m, d, block, e, Block(e, GroupOf(input, e), root));
      } else {
        assert IsOwner(m.objects, m.interfaces, e) <==> IsOwner(l.objects, l.interfaces, e);
      }
      assert Seen(input.ir, e, end) <==> Seen(input.ir, e, start) || e == d;
    }
  }

  // ----- Emitting all groups -----

  method InheritedFields(input: Input, name: string) returns (inherited: seq<FieldIr>)
    requires forall i | 0 <= i < |input.entityFields| :: input.entityFields[i].1 < |input.ir|
    ensures inherited == Inherited(input.ir, input.entityFields, name, |input.entityFields|)
  {
    inherited := [];
    for i := 0 to |input.entityFields|
      invariant inherited == Inherited(input.ir, input.entityFields, name, i)
    {
      if input.entityFields[i].0 == name {
        inherited := inherited + [input.ir[input.entityFields[i].1]];
      }
    }
  }

  predicate KnownUpTo(ir: seq<FieldIr>, definitions: map<string, Definition>, n: nat)
    requires n <= |ir|
  {
    forall i | 0 <= i < n :: KnownIn(ir[i], definitions)
  }

  lemma {:induction false} KnownAll(fields: seq<FieldIr>, definitions: map<string, Definition>, n: nat)
    requires n <= |fields|
    ensures AllKnown(fields, definitions, n) <==> KnownUpTo(fields, definitions, n)
  {
    if n > 0 {
      KnownAll(fields, definitions, n - 1);
    }
  }

  /** Sorting does not change which output types are known. */
  lemma KnownSorted(group: seq<FieldIr>, definitions: map<string, Definition>)
    ensures AllKnown(SortByName(group), definitions, |SortByName(group)|) <==> KnownUpTo(group, definitions, |group|)
  {
    var sorted := SortByName(group);
    SortByNameSorts(group);
    KnownAll(sorted, definitions, |sorted|);
    assert forall x :: x in sorted <==> x in group by {
      forall x ensures x in sorted <==> x in group {
        assert x in multiset(sorted) <==> x in multiset(group);
      }
    }
    forall i | 0 <= i < |group| && KnownUpTo(sorted, definitions, |sorted|)
      ensures KnownIn(group[i], definitions)
    {
      assert group[i] in sorted;
    }
    forall i | 0 <= i < |sorted| && KnownUpTo(group, definitions, |group|)
      ensures KnownIn(sorted[i], definitions)
    {
      assert sorted[i] in group;
    }
  }

  lemma {:induction false} InheritedFrom(input: Input, name: string, n: nat)
    requires n <= |input.entityFields| && forall i | 0 <= i < |input.entityFields| :: input.entityFields[i].1 < |input.ir|
    ensures forall x | x in Inherited(input.ir, input.entityFields, name, n) :: x in input.ir
  {
    if n > 0 {
      InheritedFrom(input, name, n - 1);
    }
  }

  /** A group is known if all fields are, and makes its own fields known. */
  lemma KnownGroup(input: Input, definitions: map<string, Definition>, group: seq<FieldIr>, start: nat, end: nat)
    requires start <= end <= |input.ir|
    requires input.ir[start..end] <= group && forall x | x in group :: x in input.ir
    ensures KnownUpTo(input.ir, definitions, |input.ir|) ==> KnownUpTo(group, definitions, |group|)
    ensures KnownUpTo(group, definitions, |group|) && KnownUpTo(input.ir, definitions, start) ==>
              KnownUpTo(input.ir, definitions, end)
  {
    forall i | 0 <= i < |group| && KnownUpTo(input.ir, definitions, |input.ir|)
      ensures KnownIn(group[i], definitions)
    {
      assert group[i] in input.ir;
    }
    forall i | start <= i < end && KnownUpTo(group, definitions, |group|)
      ensures KnownIn(input.ir[i], definitions)
    {
      assert input.ir[i] == input.ir[start..end][i - start] == group[i - start];
    }
  }

  ghost function LayoutOf(e: Emitter): Layout
    reads e`objects, e`interfaces, e`emitted
  {
    Layout(e.objects, e.interfaces, e.emitted)
  }

  /** Collects the group that begins at `start`. */
  method CollectGroup(input: Input, start: nat, end: nat, objects: nat, interfaces: nat) returns (group: seq<FieldIr>)
    requires Valid(input, objects, interfaces) && start < end <= |input.ir|
    requires forall i | 0 <= i < |input.ir| :: input.ir[i].parent == input.ir[start].parent <==> start <= i < end
    ensures group == GroupOf(input, input.ir[start].parent) && group != []
    ensures input.ir[start..end] <= group && forall x | x in group :: x in input.ir
  {
    var d := input.ir[start].parent;
    FieldsSlice(input.ir, d, start, end, |input.ir|);
    group := input.ir[start..end];
    assert group[0] == input.ir[start];
    if d.Object? {
      InheritedFrom(input, input.objectNames[d.id], |input.entityFields|);
      var inherited := InheritedFields(input, input.objectNames[d.id]);
      group := group + inherited;
    } else {
      assert group + [] == group;
    }
  }

  /** Nothing before `n` shares its definition with anything from `n` on. */
  predicate Boundary(ir: seq<FieldIr>, n: nat) {
    forall i, j | 0 <= i < n <= j < |ir| :: ir[i].parent != ir[j].parent
  }

  /** The definition of the group at a boundary is new, and its group ends at a boundary. */
  lemma NextBoundary(ir: seq<FieldIr>, start: nat, end: nat)
    requires start < end <= |ir| && Boundary(ir, start)
    requires forall i | start <= i < end :: ir[i].parent == ir[start].parent
    requires forall i | end <= i < |ir| :: ir[i].parent != ir[start].parent
    ensures Boundary(ir, end) && !Seen(ir, ir[start].parent, start)
    ensures forall i | 0 <= i < |ir| :: ir[i].parent == ir[start].parent <==> start <= i < end
  {
  }

  /** Emits the group that begins at a boundary. */
  method EmitNext(e: Emitter, input: Input, start: nat, end: nat) returns (ok: bool)
    requires e.Standing() && Valid(input, |e.objects|, |e.interfaces|) && start < end <= |input.ir|
    requires forall i | 0 <= i < |input.ir| :: input.ir[i].parent == input.ir[start].parent <==> start <= i < end
    modifies e`fields, e`selectionMap, e`provisions, e`requirements, e`emitted, e`objects, e`interfaces
    ensures KnownUpTo(input.ir, e.definitions, |input.ir|) ==> ok
    ensures ok && KnownUpTo(input.ir, e.definitions, start) ==> KnownUpTo(input.ir, e.definitions, end)
    ensures |e.objects| == |old(e.objects)| && |e.interfaces| == |old(e.interfaces)|
    ensures ok ==> e.Standing()
    ensures var d := input.ir[start].parent;
            ok ==> Added(old(LayoutOf(e)), LayoutOf(e), d, Block(d, GroupOf(input, d), e.root))
  {
    var group := CollectGroup(input, start, end, |e.objects|, |e.interfaces|);
    KnownSorted(group, e.definitions);
    KnownGroup(input, e.definitions, group, start, end);
    ok := e.EmitGroup(input.ir[start].parent, group);
  }

  /** Emits group after group; it panics exactly if the output type of a provided selection is unknown. */
  method EmitGroups(e: Emitter, input: Input) returns (ok: bool)
    requires e.Standing() && Valid(input, |e.objects|, |e.interfaces|)
    requires e.emitted == [] && forall d :: Unowning(LayoutOf(e), d)
    modifies e`fields, e`selectionMap, e`provisions, e`requirements, e`emitted, e`objects, e`interfaces
    ensures ok <==> KnownUpTo(input.ir, e.definitions, |input.ir|)
    ensures ok ==> e.Standing() && |e.objects| == |old(e.objects)| && |e.interfaces| == |old(e.interfaces)|
    ensures ok ==> Tiled(LayoutOf(e), input, e.root, |input.ir|)
  {
    var start := 0;
    NothingTiled(LayoutOf(e), input, e.root);
    while start < |input.ir|
      invariant start <= |input.ir| && |e.objects| == |old(e.objects)| && |e.interfaces| == |old(e.interfaces)|
      invariant e.Standing() && KnownUpTo(input.ir, e.definitions, start)
      invariant Tiled(LayoutOf(e), input, e.root, start) && Boundary(input.ir, start)
    {
      var end := GroupEnd(input.ir, start);
      NextBoundary(input.ir, start, end);
      ghost var l := LayoutOf(e);
      ok := EmitNext(e, input, start, end);
      if !ok {
        return;
      }
      TiledGrows(l, LayoutOf(e), input, e.root, start, end);
      start := end;
    }
    ok := true;
  }

  lemma NothingTiled(l: Layout, input: Input, root: nat)
    requires l.emitted == [] && forall d :: Unowning(l, d)
    requires forall i | 0 <= i < |input.entityFields| :: input.entityFields[i].1 < |input.ir|
    ensures Tiled(l, input, root, 0)
  {
    forall d, f: nat
      ensures Owns(l, d, f) <==> Comes(l, d, f)
    {
      assert Unowning(l, d);
    }
    forall d
      ensures TileAt(l, input, root, 0, d)
    {
      assert Unowning(l, d);
    }
  }
}
