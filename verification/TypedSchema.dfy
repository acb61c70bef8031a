/**
 The tables of an analyzed schema, filled by the two passes and queried afterwards.
 */
module TypedSchema {
  import opened Common
  import opened TypedTypes
  import opened KeyedTables
  import opened TypedAnalysis
  import Interfaces = InterfaceGroups

  lemma {:induction false} TablesPrefix(entries: seq<Entry>, more: seq<Entry>, n: nat)
    requires n <= |entries| && entries <= more
    ensures ArgumentsOf(entries, n) == ArgumentsOf(more, n)
    ensures FieldsOf(entries, n) == FieldsOf(more, n)
  {
    if n > 0 {
      TablesPrefix(entries, more, n - 1);
    }
  }

  lemma {:induction false} FieldsLength(entries: seq<Entry>, n: nat)
    requires n <= |entries|
    ensures |FieldsOf(entries, n)| == n
  {
    if n > 0 {
      FieldsLength(entries, n - 1);
    }
  }

  lemma {:induction false} TaggedPrefix<T>(id: nat, values: seq<T>, more: seq<T>, n: nat)
    requires n <= |values| && values <= more
    ensures Tagged(id, values, n) == Tagged(id, more, n)
  {
    if n > 0 {
      TaggedPrefix(id, values, more, n - 1);
    }
  }

  lemma TaggedSnoc<T>(id: nat, values: seq<T>, x: T)
    ensures Tagged(id, values + [x], |values| + 1) == Tagged(id, values, |values|) + [(id, x)]
  {
    TaggedPrefix(id, values, values + [x], |values|);
  }

  /** The tables of the second pass after one more field. */
  lemma HoldsSnoc(entries: seq<Entry>, e: Entry)
    ensures FieldsOf(entries + [e], |entries| + 1) == FieldsOf(entries, |entries|) + [(e.owner, e.field)]
    ensures ArgumentsOf(entries + [e], |entries| + 1) ==
            ArgumentsOf(entries, |entries|) + Tagged(|entries|, e.arguments, |e.arguments|)
    ensures e.arguments == [] ==> ArgumentsOf(entries + [e], |entries| + 1) == ArgumentsOf(entries, |entries|)
  {
    TablesPrefix(entries, entries + [e], |entries|);
  }

  predicate AllBelow(ids: seq<nat>, bound: nat) {
    forall i | 0 <= i < |ids| :: ids[i] < bound
  }

  lemma {:induction false} RunBelow(s: seq<(nat, nat)>, key: nat, p: nat, bound: nat)
    requires forall i | 0 <= i < |s| :: s[i].1 < bound
    ensures AllBelow(RunFrom(s, key, p), bound)
    decreases |s| - p
  {
    if p < |s| {
      RunBelow(s, key, p + 1, bound);
    }
  }

  class AnalyzedSchema {
    var definitions: seq<Definition>
    var names: map<string, Definition>
    var objects: seq<ObjectRecord>
    var objectFields: seq<(nat, Field)>
    var objectFieldArguments: seq<(nat, FieldArgument)>
    var implementations: seq<Interfaces.Implementation>
    var unions: seq<string>
    var unionVariants: seq<(nat, nat)>
    var enums: seq<string>
    var enumVariants: seq<(nat, string)>
    var scalars: seq<string>

    /** The tables of the first pass. */
    function Contents(): TopLevel
      reads this`definitions, this`names, this`objects, this`implementations
      reads this`unions, this`enums, this`enumVariants, this`scalars
    {
      TopLevel(definitions, names, objects, unions, enums, scalars, enumVariants, implementations)
    }

    /** The tables of the second pass hold these fields, in this order. */
    ghost predicate Holds(entries: seq<Entry>)
      reads this`objectFields, this`objectFieldArguments
    {
      objectFields == FieldsOf(entries, |entries|) && objectFieldArguments == ArgumentsOf(entries, |entries|)
    }

    constructor ()
      ensures Contents() == EMPTY && Holds([]) && unionVariants == []
    {
      definitions, names, objects, implementations := [], map[], [], [];
      unions, enums, enumVariants, scalars := [], [], [], [];
      objectFields, objectFieldArguments, unionVariants := [], [], [];
    }

    // ----- First pass -----

    method PushDefinition(name: string, d: Definition)
      modifies this`definitions, this`names
      ensures Contents() == WithDefinition(old(Contents()), name, d)
    {
      definitions := definitions + [d];
      names := names[name := d];
    }

    method PushOutputType(o: ObjectRecord) returns (id: nat)
      modifies this`definitions, this`names, this`objects
      ensures id == |old(objects)| && Contents() == WithObject(old(Contents()), o)
    {
      id := |objects|;
      PushDefinition(o.name, Object(id));
      objects := objects + [o];
    }

    method AnalyzeDefinition(d: DefinitionNode)
      modifies this`definitions, this`names, this`objects, this`implementations
      modifies this`unions, this`enums, this`enumVariants, this`scalars
      ensures Contents() == WithTop(old(Contents()), d)
    {
      if !d.TypeDefinition? || d.extend {
        return;
      }
      match d.kind
      case ScalarKind =>
        PushDefinition(d.name, CustomScalar(|scalars|));
        scalars := scalars + [d.name];
      case ObjectKind(interfaces, _) =>
        var id := PushOutputType(ObjectRecord(d.name, false));
        for i := 0 to |interfaces|
          modifies this`implementations
          invariant implementations == old(implementations) + Implemented(interfaces, d.name, i)
        {
          implementations := implementations + [Interfaces.Implementation(interfaces[i], d.name)];
        }
      case InterfaceKind(_) =>
      case UnionKind(_) =>
        PushDefinition(d.name, Union(|unions|));
        unions := unions + [d.name];
      case EnumKind(values) =>
        var id := |enums|;
        PushDefinition(d.name, Enum(id));
        enums := enums + [d.name];
        for i := 0 to |values|
          modifies this`enumVariants
          invariant enumVariants == old(enumVariants) + Tagged(id, values, i)
        {
          enumVariants := enumVariants + [(id, values[i])];
        }
      case InputObjectKind(_) =>
        var id := PushOutputType(ObjectRecord(d.name, true));
    }

    method AnalyzeTopLevel(document: seq<DefinitionNode>)
      requires Contents() == EMPTY
      modifies this`definitions, this`names, this`objects, this`implementations
      modifies this`unions, this`enums, this`enumVariants, this`scalars
      ensures Contents() == FirstPass(document)
    {
      for i := 0 to |document|
        invariant Contents() == Top(document, i)
      {
        AnalyzeDefinition(document[i]);
      }
      for i := 0 to |ROOTS|
        invariant Contents() == WithRoots(Top(document, |document|), i)
      {
        if ROOTS[i] !in names {
          var id := PushOutputType(ObjectRecord(ROOTS[i], false));
        }
      }
      implementations := Interfaces.Sort(implementations);
    }

    // ----- Second pass -----

    method PushObjectField(
      id: nat, field: Field, ghost entries: seq<Entry>, ghost origin: Origin) returns (position: nat)
      requires Holds(entries)
      modifies this`objectFields
      ensures position == |entries| && Holds(entries + [Entry(id, origin, field, [])])
    {
      FieldsLength(entries, |entries|);
      position := |objectFields|;
      objectFields := objectFields + [(id, field)];
      HoldsSnoc(entries, Entry(id, origin, field, []));
    }

    /** Records the arguments of the field entered last. */
    method AnalyzeArguments(nodes: seq<ArgumentNode>, position: nat, ghost entries: seq<Entry>, ghost e: Entry)
      requires Holds(entries + [e]) && position == |entries| && e.arguments == []
      modifies this`objectFieldArguments
      ensures Holds(entries + [e.(arguments := Arguments(nodes, names, |nodes|))])
    {
      for i := 0 to |nodes|
        invariant objectFieldArguments ==
                  old(objectFieldArguments) + Tagged(position, Arguments(nodes, names, i), |Arguments(nodes, names, i)|)
      {
        var ty := Resolve(nodes[i].ty, names);
        if ty.Some? {
          var argument := FieldArgument(nodes[i].name, ty.value);
          TaggedSnoc(position, Arguments(nodes, names, i), argument);
          objectFieldArguments := objectFieldArguments + [(position, argument)];
        }
      }
      HoldsSnoc(entries, e);
      HoldsSnoc(entries, e.(arguments := Arguments(nodes, names, |nodes|)));
    }

    method AnalyzeObjectFields(id: nat, nodes: seq<FieldNode>, ghost entries: seq<Entry>)
      requires Holds(entries)
      modifies this`objectFields, this`objectFieldArguments
      ensures Holds(entries + ObjectEntries(id, nodes, names, |nodes|))
    {
      assert entries + [] == entries;
      for i := 0 to |nodes|
        invariant Holds(entries + ObjectEntries(id, nodes, names, i))
      {
        var field := AnalyzeField(nodes[i], names);
        if field.Some? {
          ghost var before := entries + ObjectEntries(id, nodes, names, i);
          var position := PushObjectField(id, field.value, before, WrittenField(nodes[i]));
          AnalyzeArguments(nodes[i].arguments, position, before, Entry(id, WrittenField(nodes[i]), field.value, []));
          ConcatAssoc(entries, ObjectEntries(id, nodes, names, i),
                      [Entry(id, WrittenField(nodes[i]), field.value, Arguments(nodes[i].arguments, names,
                        |nodes[i].arguments|))]);
        }
      }
    }

    method AnalyzeInterfaceFields(id: nat, nodes: seq<FieldNode>, ghost entries: seq<Entry>)
      requires Holds(entries)
      modifies this`objectFields
      ensures Holds(entries + InterfaceEntries(id, nodes, names, |nodes|))
    {
      assert entries + [] == entries;
      for i := 0 to |nodes|
        invariant Holds(entries + InterfaceEntries(id, nodes, names, i))
      {
        var field := AnalyzeField(nodes[i], names);
        if field.Some? {
          var position := PushObjectField(id, field.value, entries + InterfaceEntries(id, nodes, names, i),
                                          WrittenField(nodes[i]));
          ConcatAssoc(entries, InterfaceEntries(id, nodes, names, i), [Entry(id, WrittenField(nodes[i]), field.value,
            [])]);
        }
      }
    }

    method AnalyzeInputFields(id: nat, nodes: seq<ArgumentNode>, ghost entries: seq<Entry>)
      requires Holds(entries)
      modifies this`objectFields
      ensures Holds(entries + InputEntries(id, nodes, names, |nodes|))
    {
      assert entries + [] == entries;
      for i := 0 to |nodes|
        invariant Holds(entries + InputEntries(id, nodes, names, i))
      {
        var field := AnalyzeInputField(nodes[i], names);
        if field.Some? {
          var position := PushObjectField(id, field.value, entries + InputEntries(id, nodes, names, i),
                                          WrittenInput(nodes[i]));
          ConcatAssoc(entries, InputEntries(id, nodes, names, i), [Entry(id, WrittenInput(nodes[i]), field.value, [])]);
        }
      }
    }

    method AnalyzeUnion(id: nat, members: seq<string>)
      modifies this`unionVariants
      ensures unionVariants == old(unionVariants) + Variants(id, members, names, |members|)
    {
      for i := 0 to |members|
        invariant unionVariants == old(unionVariants) + Variants(id, members, names, i)
      {
        if members[i] in names && names[members[i]].Object? {
          unionVariants := unionVariants + [(id, names[members[i]].id)];
        }
      }
    }

    method AnalyzeFieldsOf(d: DefinitionNode, ghost entries: seq<Entry>)
      requires Holds(entries)
      modifies this`objectFields, this`objectFieldArguments, this`unionVariants
      ensures Holds(entries + EntriesOf(d, names))
      ensures unionVariants == old(unionVariants) + VariantsOf(d, names)
    {
      assert entries + [] == entries;
      if !d.TypeDefinition? || d.name !in names {
        return;
      }
      var definition := names[d.name];
      match d.kind
      case UnionKind(members) =>
        if definition.Union? {
          AnalyzeUnion(definition.id, members);
        }
      case ObjectKind(_, nodes) =>
        if definition.Object? {
          AnalyzeObjectFields(definition.id, nodes, entries);
        }
      case InterfaceKind(nodes) =>
        if definition.Object? {
          AnalyzeInterfaceFields(definition.id, nodes, entries);
        }
      case InputObjectKind(nodes) =>
        if definition.Object? {
          AnalyzeInputFields(definition.id, nodes, entries);
        }
      case _ =>
    }

    method AnalyzeFields(document: seq<DefinitionNode>)
      requires Holds([]) && unionVariants == []
      modifies this`objectFields, this`objectFieldArguments, this`unionVariants
      ensures var entries := Entries(document, names, |document|);
              && objectFields == SortByKey(FieldsOf(entries, |entries|))
              && objectFieldArguments == SortByKey(ArgumentsOf(entries, |entries|))
      ensures unionVariants == AllVariants(document, names, |document|)
    {
      for i := 0 to |document|
        invariant Holds(Entries(document, names, i)) && unionVariants == AllVariants(document, names, i)
      {
        AnalyzeFieldsOf(document[i], Entries(document, names, i));
      }
      objectFields := SortByKey(objectFields);
      objectFieldArguments := SortByKey(objectFieldArguments);
    }

    // ----- Queries -----

    /** The arguments recorded for the field at a position. */
    method IterFieldArguments(position: nat) returns (arguments: seq<FieldArgument>)
      requires SortedKeys(objectFieldArguments)
      ensures arguments == Filtered(objectFieldArguments, position)
    {
      arguments := IterForKey(objectFieldArguments, position);
    }

    method IterObjectFields(id: nat) returns (fields: seq<Field>)
      requires SortedKeys(objectFields)
      ensures fields == Filtered(objectFields, id)
    {
      fields := IterForKey(objectFields, id);
    }

    method IterEnumVariants(id: nat) returns (variants: seq<string>)
      requires SortedKeys(enumVariants)
      ensures variants == Filtered(enumVariants, id)
    {
      variants := IterForKey(enumVariants, id);
    }

    /** The objects of a union, as records. */
    method IterUnionVariants(id: nat) returns (variants: seq<ObjectRecord>)
      requires forall i | 0 <= i < |unionVariants| :: unionVariants[i].1 < |objects|
      ensures exists p: nat :: Boundary(unionVariants, id, p) && Denotes(variants, RunFrom(unionVariants, id, p))
      ensures SortedKeys(unionVariants) ==> Denotes(variants, Filtered(unionVariants, id))
    {
      var ids := IterForKey(unionVariants, id);
      ghost var p: nat :| Boundary(unionVariants, id, p) && ids == RunFrom(unionVariants, id, p);
      RunBelow(unionVariants, id, p, |objects|);
      variants := [];
      for i := 0 to |ids|
        invariant |variants| == i && forall j | 0 <= j < i :: variants[j] == objects[ids[j]]
      {
        variants := variants + [objects[ids[i]]];
      }
    }

    /** Records by their ids. */
    predicate Denotes(records: seq<ObjectRecord>, ids: seq<nat>)
      reads this`objects
    {
      |records| == |ids| && forall i | 0 <= i < |ids| :: ids[i] < |objects| && records[i] == objects[ids[i]]
    }

    // ----- Resolvers found outside the schema -----

    predicate Matches(entry: (nat, Field), parent: string, field: string)
      reads this`names
    {
      parent in names && names[parent] == Object(entry.0) && entry.1.name == field
    }

    /** Sets the resolver of a field; a field that has one already is a failed assertion. */
    method PushCustomResolver(parent: string, field: string, resolver: string) returns (ok: bool)
      requires SortedKeys(objectFields)
      modifies this`objectFields
      ensures ok <==> forall i | 0 <= i < |old(objectFields)| ::
                        Matches(old(objectFields)[i], parent, field) ==> old(objectFields)[i].1.resolverName.None?
      ensures |objectFields| == |old(objectFields)| && SortedKeys(objectFields)
      ensures ok ==> forall i | 0 <= i < |objectFields| ::
                       objectFields[i] ==
                       var before := old(objectFields)[i];
                       if Matches(before, parent, field) then (before.0,
                                                               before.1.(resolverName := Some(resolver))) else before
    {
      if parent !in names || !names[parent].Object? {
        return true;
      }
      var id := names[parent].id;
      ghost var before := objectFields;
      var i := PartitionPoint(objectFields, id);
      while i < |objectFields|
        invariant 0 <= i <= |objectFields| && |objectFields| == |before|
        invariant forall j | i <= j < |before| :: objectFields[j] == before[j] && id <= before[j].0
        invariant forall j | 0 <= j < i ::
                    && (Matches(before[j], parent, field) ==> before[j].1.resolverName.None?)
                    && objectFields[j] ==
                       if Matches(before[j], parent, field) then (before[j].0,
                                                                  before[j].1.(resolverName := Some(resolver)))
                       else before[j]
      {
        if objectFields[i].0 != id {
          return true;
        }
        if objectFields[i].1.name == field {
          if objectFields[i].1.resolverName.Some? {
            return false;
          }
          objectFields := objectFields[i := (id, objectFields[i].1.(resolverName := Some(resolver)))];
        }
        i := i + 1;
      }
      return true;
    }
  }

  /** Analyzes a document. */
  method Analyze(document: seq<DefinitionNode>) returns (schema: AnalyzedSchema)
    ensures fresh(schema) && schema.Contents() == FirstPass(document)
    ensures var entries := Entries(document, FirstPass(document).names, |document|);
            && schema.objectFields == SortByKey(FieldsOf(entries, |entries|))
            && schema.objectFieldArguments == SortByKey(ArgumentsOf(entries, |entries|))
    ensures schema.unionVariants == AllVariants(document, FirstPass(document).names, |document|)
    ensures SortedKeys(schema.objectFields) && SortedKeys(schema.objectFieldArguments)
  {
    schema := new AnalyzedSchema();
    schema.AnalyzeTopLevel(document);
    schema.AnalyzeFields(document);
    ghost var entries := Entries(document, FirstPass(document).names, |document|);
    SortByKeySorts(FieldsOf(entries, |entries|));
    SortByKeySorts(ArgumentsOf(entries, |entries|));
  }
}
