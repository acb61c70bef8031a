/**
 The emitter fills its tables group by group and resolves the selections that were set aside
 when all groups have been emitted.
 */
module Emission {
  import opened Common
  import opened EmissionModel

  predicate IsOwner(objects: seq<Range>, interfaces: seq<Range>, d: Definition) {
    match d
    case Object(id) => id < |objects|
    case Interface(id) => id < |interfaces|
    case Other(_) => false
  }

  function RangeOf(objects: seq<Range>, interfaces: seq<Range>, d: Definition): Range
    requires IsOwner(objects, interfaces, d)
  {
    match d
    case Object(id) => objects[id]
    case Interface(id) => interfaces[id]
  }

  predicate RecordAt(fields: seq<FieldRecord>, emitted: seq<Emitted>, i: nat) {
    i < |fields| && i < |emitted| && RecordOf(fields[i], emitted[i])
  }

  /** Every record has the name, type and arguments of its entry. */
  ghost predicate RecordsStand(fields: seq<FieldRecord>, emitted: seq<Emitted>) {
    |fields| == |emitted| && forall i | 0 <= i < |fields| :: RecordAt(fields, emitted, i)
  }

  predicate BlankAt(fields: seq<FieldRecord>, i: nat) {
    i < |fields| && fields[i].provided == [] && fields[i].required == []
  }

  lemma RecordsGrow(fields: seq<FieldRecord>, emitted: seq<Emitted>, r: FieldRecord, e: Emitted)
    requires RecordsStand(fields, emitted) && RecordOf(r, e)
    ensures RecordsStand(fields + [r], emitted + [e])
  {
    forall i | 0 <= i < |fields + [r]|
      ensures RecordAt(fields + [r], emitted + [e], i)
    {
      if i < |fields| {
        assert RecordAt(fields, emitted, i);
      }
    }
  }

  ghost predicate AllBlank(fields: seq<FieldRecord>) {
    forall i | 0 <= i < |fields| :: BlankAt(fields, i)
  }

  lemma BlankGrows(fields: seq<FieldRecord>, r: FieldRecord)
    requires AllBlank(fields) && r.provided == [] && r.required == []
    ensures AllBlank(fields + [r])
  {
    forall i | 0 <= i < |fields + [r]|
      ensures BlankAt(fields + [r], i)
    {
      assert i < |fields| ==> BlankAt(fields, i);
    }
  }

  /** The selections set aside so far are those of the emitted fields. */
  ghost predicate Deferrals(
    provisions: seq<Deferred>, requirements: seq<Deferred>, emitted: seq<Emitted>, definitions: map<string, Definition>)
  {
    && provisions == AllProvisions(emitted, definitions, |emitted|)
    && requirements == AllRequirements(emitted, |emitted|)
  }

  lemma DeferralsGrow(
    provisions: seq<Deferred>, requirements: seq<Deferred>, emitted: seq<Emitted>, definitions: map<string,
    Definition>, e: Emitted)
    requires Deferrals(provisions, requirements, emitted, definitions)
    ensures Deferrals(ProvisionsAfter(provisions, |emitted|, e, definitions), RequirementsAfter(requirements,
            |emitted|, e),
                      emitted + [e], definitions)
  {
    DeferredPrefix(emitted, emitted + [e], definitions, |emitted|);
  }

  /** The output types of all provided selections are known, for the first `n` fields. */
  predicate AllKnown(fields: seq<FieldIr>, definitions: map<string, Definition>, n: nat)
    requires n <= |fields|
  {
    n == 0 || (KnownIn(fields[n - 1], definitions) && AllKnown(fields, definitions, n - 1))
  }

  predicate KnownIn(ir: FieldIr, definitions: map<string, Definition>) {
    forall i | 0 <= i < |ir.provided| :: ir.provided[i].output in definitions
  }

  lemma {:induction false} UnknownAt(fields: seq<FieldIr>, definitions: map<string, Definition>, i: nat, n: nat)
    requires i < n <= |fields| && !KnownIn(fields[i], definitions)
    ensures !AllKnown(fields, definitions, n)
  {
    if i < n - 1 {
      UnknownAt(fields, definitions, i, n - 1);
    }
  }

  class Emitter {
    var fields: seq<FieldRecord>
    var objects: seq<Range>
    var interfaces: seq<Range>
    var selectionMap: map<(Definition, string), nat>
    var provisions: seq<Deferred>
    var requirements: seq<Deferred>
    const definitions: map<string, Definition>
    const inputs: seq<string>                // names of the input values, emitted before
    const root: nat

    ghost var emitted: seq<Emitted>

    constructor (
      objectCount: nat, interfaceCount: nat, definitions: map<string, Definition>, inputs: seq<string>, root: nat)
      ensures Standing() && emitted == [] && |objects| == objectCount && |interfaces| == interfaceCount
      ensures forall i | 0 <= i < |objects| :: objects[i] == NO_FIELDS
      ensures forall i | 0 <= i < |interfaces| :: interfaces[i] == NO_FIELDS
      ensures this.definitions == definitions && this.inputs == inputs && this.root == root
    {
      this.definitions, this.inputs, this.root := definitions, inputs, root;
      fields, selectionMap, provisions, requirements, emitted := [], map[], [], [], [];
      objects := seq(objectCount, i => NO_FIELDS);
      interfaces := seq(interfaceCount, i => NO_FIELDS);
    }

    /** While groups are emitted, every table stands for what has been emitted so far. */
    ghost predicate Standing()
      reads this`fields, this`selectionMap, this`provisions, this`requirements, this`emitted
    {
      && RecordsStand(fields, emitted)
      && AllBlank(fields)
      && MapStands(selectionMap, emitted)
      && Deferrals(provisions, requirements, emitted, definitions)
    }

    // ----- One field -----

    /** Sets the provided selections of a field aside; an unknown output type is a panic. */
    method DeferProvisions(field: nat, provided: seq<Provision>) returns (ok: bool)
      modifies this`provisions
      ensures ok <==> forall i | 0 <= i < |provided| :: provided[i].output in definitions
      ensures ok ==> provisions == WithProvisions(old(provisions), field, provided, definitions, |provided|)
    {
      for i := 0 to |provided|
        invariant provisions == WithProvisions(old(provisions), field, provided, definitions, i)
        invariant forall j | 0 <= j < i :: provided[j].output in definitions
      {
        var p := provided[i];
        if p.output !in definitions {
          return false;
        }
        provisions := provisions + [Deferred(field, p.subgraph, definitions[p.output], p.selection)];
      }
      return true;
    }

    method DeferRequirements(field: nat, required: seq<Requirement>, target: Definition)
      modifies this`requirements
      ensures requirements == WithRequirements(old(requirements), field, required, target, |required|)
    {
      for i := 0 to |required|
        invariant requirements == WithRequirements(old(requirements), field, required, target, i)
      {
        requirements := requirements + [Deferred(field, required[i].subgraph, target, required[i].selection)];
      }
    }

    method EmitField(owner: Definition, ir: FieldIr) returns (ok: bool)
      requires Standing()
      modifies this`fields, this`selectionMap, this`provisions, this`requirements, this`emitted
      ensures ok <==> KnownIn(ir, definitions)
      ensures ok ==> Standing() && emitted == old(emitted) + [Emitted(owner, ir)]
      ensures ok ==> fields == old(fields) + [FieldRecord(ir.name, ir.output, ir.arguments, [], [])]
    {
      var id := |fields|;
      var record := FieldRecord(ir.name, ir.output, ir.arguments, [], []);
      ghost var e := Emitted(owner, ir);
      RecordsGrow(fields, emitted, record, e);
      MapGrows(selectionMap, emitted, e);
      BlankGrows(fields, record);
      DeferralsGrow(provisions, requirements, emitted, definitions, e);
      fields := fields + [record];
      ok := DeferProvisions(id, ir.provided);
      if !ok {
        return;
      }
      DeferRequirements(id, ir.required, owner);
      selectionMap := selectionMap[(owner, ir.name) := id];
      emitted := emitted + [e];
    }

    /** Reserves a field that no selection can refer to. */
    method Reserve(owner: Definition, name: string)
      requires Standing()
      modifies this`fields, this`provisions, this`requirements, this`emitted
      ensures Standing() && emitted == old(emitted) + [Reserved(owner, name)]
      ensures fields == old(fields) + [FieldRecord(name, owner, Window(0, 0), [], [])]
    {
      var record := FieldRecord(name, owner, Window(0, 0), [], []);
      ghost var e := Reserved(owner, name);
      RecordsGrow(fields, emitted, record, e);
      MapGrows(selectionMap, emitted, e);
      BlankGrows(fields, record);
      DeferralsGrow(provisions, requirements, emitted, definitions, e);
      fields := fields + [record];
      emitted := emitted + [e];
    }

    method ReserveIntrospection(owner: Definition)
      requires Standing()
      modifies this`fields, this`provisions, this`requirements, this`emitted
      ensures Standing() && emitted == old(emitted) + ReservedFor(owner)
    {
      Reserve(owner, INTROSPECTION[0]);
      Reserve(owner, INTROSPECTION[1]);
    }

    // ----- One group -----

    /** Emits the fields of a group that is sorted already. */
    method EmitSorted(owner: Definition, sorted: seq<FieldIr>) returns (ok: bool, range: Range)
      requires Standing()
      modifies this`fields, this`selectionMap, this`provisions, this`requirements, this`emitted
      ensures ok <==> AllKnown(sorted, definitions, |sorted|)
      ensures ok ==> Standing() && emitted == old(emitted) + EmittedAs(owner, sorted, |sorted|)
      ensures ok ==> range == if sorted == [] then NO_FIELDS else Range(|old(emitted)|, |old(emitted)| + |sorted|)
    {
      var start, end := None, None;
      ghost var before := emitted;
      for i := 0 to |sorted|
        invariant Standing() && emitted == before + EmittedAs(owner, sorted, i) && |emitted| == |before| + i
        invariant AllKnown(sorted, definitions, i)
        invariant start == if i == 0 then None else Some(|before|)
        invariant end == if i == 0 then None else Some(|before| + i - 1)
      {
        var id := |fields|;
        ok := EmitField(owner, sorted[i]);
        if !ok {
          UnknownAt(sorted, definitions, i, |sorted|);
          return false, NO_FIELDS;
        }
        ConcatAssoc(before, EmittedAs(owner, sorted, i), [Emitted(owner, sorted[i])]);
        start := if start.Some? then start else Some(id);
        end := Some(id);
      }
      return true, if start.Some? && end.Some? then Range(start.value, end.value + 1) else NO_FIELDS;
    }

    method SetRange(owner: Definition, range: Range)
      requires IsOwner(objects, interfaces, owner)
      modifies this`objects, this`interfaces
      ensures |objects| == |old(objects)| && |interfaces| == |old(interfaces)|
      ensures forall d | IsOwner(objects, interfaces, d) ::
                RangeOf(objects, interfaces, d) == if d == owner then range else RangeOf(old(objects), old(interfaces), d)
    {
      match owner
      case Object(id) => objects := objects[id := range];
      case Interface(id) => interfaces := interfaces[id := range];
    }

    /** Emits the block of one definition and gives it its range. */
    method EmitGroup(owner: Definition, group: seq<FieldIr>) returns (ok: bool)
      requires Standing() && IsOwner(objects, interfaces, owner) && group != []
      modifies this`fields, this`selectionMap, this`provisions, this`requirements, this`emitted, this`objects,
               this`interfaces
      ensures ok <==> AllKnown(SortByName(group), definitions, |SortByName(group)|)
      ensures |objects| == |old(objects)| && |interfaces| == |old(interfaces)|
      ensures ok ==> Standing() && emitted == old(emitted) + Block(owner, group, root)
      ensures ok ==> forall d | IsOwner(objects, interfaces, d) ::
                       RangeOf(objects, interfaces, d) ==
                       if d == owner then Range(|old(emitted)|, |emitted|) else RangeOf(old(objects), old(interfaces), d)
    {
      SortByNameSorts(group);
      var sorted := SortByName(group);
      EmittedAsAt(owner, sorted, |sorted|);
      var range;
      ok, range := EmitSorted(owner, sorted);
      if !ok {
        return;
      }
      if owner == Object(root) {
        ReserveIntrospection(owner);
        ConcatAssoc(old(emitted), EmittedAs(owner, sorted, |sorted|), ReservedFor(owner));
        range := Range(range.start, range.end + 2);
      }
      SetRange(owner, range);
    }
  }
}
