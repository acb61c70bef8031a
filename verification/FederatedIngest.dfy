/**
 Ingestion of the definitions of a schema document.  Types and subgraphs are registered first; then
 the fields of every type are appended to one table, so that each type owns a contiguous range of it.
 */
module FederatedIngest {
  import opened Common
  import opened Wrapping
  import opened TypeRefs
  import opened FederatedModel
  import opened FederatedJoin
  import opened FederatedRecords
  import opened FederatedState
  import opened FederatedLayout
  import opened FederatedDefinitions
  import opened FederatedFinal
  import opened FederatedSelecting
  import opened FederatedClosing
  import opened FederatedAttach

  // ----- Fields of one type -----

  lemma ExtrasGrow(graphs: map<string, nat>, fields: seq<Origin>, extras: seq<FieldExtra>, origin: Origin)
    requires ExtrasBegin(graphs, fields, extras)
    ensures ExtrasBegin(graphs, fields + [origin], extras + [Begins(graphs, origin)])
  {
  }

  /** Appends a field and what is known of it. */
  method AppendField(state: State, record: FieldRecord, extra: FieldExtra, origin: Origin)
    requires state.Standing() && extra == Begins(state.graphNames, origin)
    requires FieldStands(state.strings, state.tables.definitionNames, state.source.directives, state.source.inputs,
                         record, origin)
    modifies state`tables, state`source, state`closing
    ensures state.Standing()
    ensures state.tables == WithField(old(state.tables), record, origin)
    ensures state.source == old(state.source).(fields := old(state.source).fields + [origin])
    ensures state.closing == old(state.closing).(extras := state.closing.extras)
  {
    PushField(state.Snapshot(), state.source, record, origin);
    ExtrasGrow(state.graphNames, state.source.fields, state.closing.extras, origin);
    state.tables := WithField(state.tables, record, origin);
    state.source := state.source.(fields := state.source.fields + [origin]);
    state.closing := state.closing.(extras := state.closing.extras + [extra]);
  }

  method IngestField(state: State, parent: Definition, node: FieldNode) returns (r: Result<nat>)
    requires state.Standing() && FieldParsed(node)
    modifies state`strings, state`directives, state`tables, state`source, state`closing
    ensures state.Standing() && old(state.strings) <= state.strings
    ensures state.tables.definitionNames == old(state.tables).definitionNames
    ensures state.tables.enumValues == old(state.tables).enumValues
    ensures old(state.source).inputs <= state.source.inputs
    ensures state.closing == old(state.closing).(extras := state.closing.extras)
    ensures r.Ok? <==> FieldOk(state.Known(), node)
    ensures r.Ok? ==> r.value == |old(state.source).fields|
    ensures r.Ok? ==> state.source.fields == old(state.source).fields + [Declared(parent, node)]
  {
    hide DirectivesStand, InputsStand, EntriesStand, EnumsStand, FieldAt, ExtrasBegin, InputsOk, JoinFieldsOk,
         DirectivesOk, DenotesType, TypeOk, Covers, DenotesOption;
    var ty := state.TypeOf(node.ty);
    if !ty.Ok? {
      return if ty.Err? then Err(ty.error) else Panic;
    }
    ghost var start := state.Snapshot();
    var name := state.InsertString(node.name);
    StringsGrow(start, state.source, state.strings);
    var arguments := state.IngestInputs(node.arguments);
    if !arguments.Ok? {
      return if arguments.Err? then Err(arguments.error) else Panic;
    }
    JoinFieldsExist(state.graphNames, node.directives);
    var resolvableIn := ReadResolvableIn(state.graphNames, node.directives);
    if !resolvableIn.Ok? {
      return Panic;
    }
    var directives := state.CollectComposedDirectives(node.directives);
    if !directives.Ok? {
      return Panic;
    }
    ghost var late := state.Snapshot();
    var description := state.InsertOptional(node.description);
    StringsGrow(late, state.source, state.strings);
    var id := |state.tables.fields|;
    AppendField(state, FieldRecord(name, ty.value, arguments.value, directives.value, description),
                FieldExtra(resolvableIn.value, [], []), Declared(parent, node));
    return Ok(id);
  }

  /** The loop over the fields of a type; it remembers the first and the last id. */
  method IngestFieldList(state: State, parent: Definition, nodes: seq<FieldNode>) returns (r: Result<Option<Range>>)
    requires state.Standing() && FieldsParsed(nodes)
    modifies state`strings, state`directives, state`tables, state`source, state`closing
    ensures state.Standing() && old(state.strings) <= state.strings
    ensures state.tables.definitionNames == old(state.tables).definitionNames
    ensures state.tables.enumValues == old(state.tables).enumValues
    ensures old(state.source).inputs <= state.source.inputs
    ensures state.closing == old(state.closing).(extras := state.closing.extras)
    ensures r.Ok? <==> FieldsOk(state.Known(), nodes, |nodes|)
    ensures r.Ok? ==> state.source.fields == old(state.source).fields + Origins(parent, nodes, |nodes|)
    ensures r.Ok? ==>
              r.value == if nodes == [] then None
                         else Some(Range(|old(state.source).fields|, |old(state.source).fields| + |nodes|))
  {
    hide Stands, ExtrasBegin, FieldOk;
    var start, end := None, None;
    ghost var base, scope := |state.source.fields|, state.Known();
    for i := 0 to |nodes|
      invariant state.Standing() && old(state.strings) <= state.strings
      invariant state.Known() == scope && FieldsOk(scope, nodes, i)
      invariant state.tables.enumValues == old(state.tables).enumValues
      invariant old(state.source).inputs <= state.source.inputs
      invariant state.closing == old(state.closing).(extras := state.closing.extras)
      invariant state.source.fields == old(state.source).fields + Origins(parent, nodes, i)
      invariant start == if i == 0 then None else Some(base)
      invariant end == if i == 0 then None else Some(base + i)
    {
      OriginsAt(parent, nodes, i);
      var id := IngestField(state, parent, nodes[i]);
      if !id.Ok? {
        if FieldsOk(scope, nodes, |nodes|) {
          FieldsOkPrefix(scope, nodes, i + 1, |nodes|);
        }
        return if id.Err? then Err(id.error) else Panic;
      }
      ConcatAssoc(old(state.source).fields, Origins(parent, nodes, i), [Declared(parent, nodes[i])]);
      start := Some(if start.Some? then start.value else id.value);
      end := Some(id.value + 1);
    }
    return Ok(if start.Some? && end.Some? then Some(Range(start.value, end.value)) else None);
  }

  method IngestInterfaceFields(state: State, id: nat, nodes: seq<FieldNode>) returns (r: Result<()>)
    requires state.Standing() && FieldsParsed(nodes) && id < |state.interfaces|
    modifies state`strings, state`directives, state`tables, state`source, state`closing, state`interfaces
    ensures state.Standing() && old(state.strings) <= state.strings
    ensures state.tables.definitionNames == old(state.tables).definitionNames
    ensures state.tables.enumValues == old(state.tables).enumValues
    ensures old(state.source).inputs <= state.source.inputs
    ensures state.closing == old(state.closing).(extras := state.closing.extras)
    ensures r.Ok? <==> FieldsOk(state.Known(), nodes, |nodes|)
    ensures r.Ok? ==> state.source.fields == old(state.source).fields + Origins(Interface(id), nodes, |nodes|)
    ensures r.Ok? ==>
              state.interfaces == WithRange(old(state.interfaces), id, |old(state.source).fields|, |state.source.fields|)
  {
    OriginsAt(Interface(id), nodes, |nodes|);
    var range := IngestFieldList(state, Interface(id), nodes);
    if !range.Ok? {
      return if range.Err? then Err(range.error) else Panic;
    }
    if range.value.Some? {
      state.interfaces := state.interfaces[id := state.interfaces[id].(fields := range.value.value)];
    }
    return Ok(());
  }

  method ReserveField(state: State, name: string, root: nat)
    requires state.Standing()
    modifies state`strings, state`tables, state`source, state`closing
    ensures state.Standing() && old(state.strings) <= state.strings
    ensures state.tables == old(state.tables).(fields := state.tables.fields)
    ensures state.source == old(state.source).(fields := old(state.source).fields + [Reserved(name, root)])
    ensures state.closing == old(state.closing).(extras := state.closing.extras)
  {
    ghost var before := state.Snapshot();
    var id := state.InsertString(name);
    StringsGrow(before, state.source, state.strings);
    AppendField(state, FieldRecord(id, Type(Object(root), New(false)), Window(0, 0), Window(0, 0), None),
                FieldExtra([], [], []), Reserved(name, root));
  }

  method ReserveIntrospection(state: State, root: nat)
    requires state.Standing()
    modifies state`strings, state`tables, state`source, state`closing
    ensures state.Standing() && old(state.strings) <= state.strings
    ensures state.tables == old(state.tables).(fields := state.tables.fields)
    ensures state.source.fields == old(state.source).fields + Introspection(root)
    ensures state.source.inputs == old(state.source).inputs
    ensures state.closing == old(state.closing).(extras := state.closing.extras)
  {
    ReserveField(state, SCHEMA_FIELD, root);
    ReserveField(state, TYPE_FIELD, root);
  }

  method IngestObjectFields(state: State, id: nat, nodes: seq<FieldNode>) returns (r: Result<()>)
    requires state.Standing() && FieldsParsed(nodes) && id < |state.objects|
    modifies state`strings, state`directives, state`tables, state`source, state`closing, state`objects
    ensures state.Standing() && old(state.strings) <= state.strings
    ensures state.tables.definitionNames == old(state.tables).definitionNames
    ensures state.tables.enumValues == old(state.tables).enumValues
    ensures old(state.source).inputs <= state.source.inputs
    ensures state.closing == old(state.closing).(extras := state.closing.extras)
    ensures var root := RootObject(state.tables.definitionNames, state.queryTypeName);
            && (r.Ok? <==> root.Some? && FieldsOk(state.Known(), nodes, |nodes|))
            && (r.Ok? ==> state.source.fields == old(state.source).fields + ObjectOrigins(nodes, id, root))
    ensures r.Ok? ==>
              state.objects == WithRange(old(state.objects), id, |old(state.source).fields|, |state.source.fields|)
  {
    hide DirectivesStand, InputsStand, EntriesStand, EnumsStand, FieldAt, ExtrasBegin;
    OriginsAt(Object(id), nodes, |nodes|);
    var list := IngestFieldList(state, Object(id), nodes);
    if !list.Ok? {
      return if list.Err? then Err(list.error) else Panic;
    }
    var range := list.value;
    var root := RootObject(state.tables.definitionNames, state.queryTypeName);
    if root.None? {
      return Panic;
    }
    if root.value == id {
      var newStart := |state.tables.fields|;
      ReserveIntrospection(state, id);
      ConcatAssoc(old(state.source).fields, Origins(Object(id), nodes, |nodes|), Introspection(id));
      range := if range.Some? then Some(Range(range.value.start, range.value.end + 2))
               else Some(Range(newStart, newStart + 2));
    }
    if range.Some? {
      state.objects := state.objects[id := state.objects[id].(fields := range.value)];
    }
    return Ok(());
  }

  // ----- Links -----

  /** The interfaces of a type, altogether and in each subgraph. */
  method IngestInterfaces(
    state: State, d: Definition, listed: seq<string>, directives: seq<DirectiveNode>) returns (r: Result<()>)
    modifies state`links
    ensures r.Ok? <==> InterfacesOk(state.tables.definitionNames, listed) && AllJoinImplements(state.Known(), directives)
    ensures r.Ok? ==> state.links == LinkedTo(old(state.links), state.Known(), d, listed, directives)
  {
    var interfaces := ReadInterfaces(state.tables.definitionNames, listed);
    if !interfaces.Ok? {
      return if interfaces.Err? then Err(interfaces.error) else Panic;
    }
    var joined := ReadJoinInterfaces(state.Known(), directives);
    if !joined.Ok? {
      return if joined.Err? then Err(joined.error) else Panic;
    }
    state.links := WithInterfaces(state.links, d, interfaces.value, joined.value);
    return Ok(());
  }

  method IngestMembers(
    state: State, id: nat, listed: seq<string>, directives: seq<DirectiveNode>) returns (r: Result<()>)
    modifies state`links
    ensures r.Ok? <==> MembersOk(state.tables.definitionNames, listed) && AllJoinMembers(state.Known(), directives)
    ensures r.Ok? ==>
              state.links == WithMembers(old(state.links), id, Ids(state.tables.definitionNames, listed, |listed|),
                                         JoinMembers(state.Known(), directives, |directives|))
  {
    var members := ReadMembers(state.tables.definitionNames, listed);
    if !members.Ok? {
      return if members.Err? then Err(members.error) else Panic;
    }
    var joined := ReadJoinMembers(state.Known(), directives);
    if !joined.Ok? {
      return if joined.Err? then Err(joined.error) else Panic;
    }
    state.links := WithMembers(state.links, id, members.value, joined.value);
    return Ok(());
  }

  // ----- Input objects -----

  /** Appends the fields of an input object and enters them under their names. */
  method IngestInputObject(
    state: State, id: nat, nodes: seq<InputValueNode>, ghost entries: Entries) returns (r: Result<()>)
    requires state.Standing() && InputsParsed(nodes) && id < |state.inputObjects|
    requires InputEntriesStand(state.inputValuesMap, state.source.inputs, entries)
    modifies state`strings, state`directives, state`tables, state`source, state`inputObjects, state`inputValuesMap
    ensures state.Standing() && old(state.strings) <= state.strings
    ensures state.tables == old(state.tables).(inputValues := state.tables.inputValues)
    ensures r.Ok? <==> InputsOk(state.tables.definitionNames, nodes)
    ensures state.source.fields == old(state.source).fields && old(state.source).inputs <= state.source.inputs
    ensures |state.inputObjects| == |old(state.inputObjects)|
    ensures state.inputObjects == old(state.inputObjects)[id := state.inputObjects[id]]
    ensures r.Ok? ==> Covers(state.source.inputs, state.inputObjects[id], nodes)
    ensures r.Ok? ==> InputEntriesStand(state.inputValuesMap, state.source.inputs, WithEntries(entries, id, nodes,
            |nodes|))
  {
    var start := |state.tables.inputValues|;
    for i := 0 to |nodes|
      invariant state.Standing() && old(state.strings) <= state.strings
      invariant state.tables == old(state.tables).(inputValues := state.tables.inputValues)
      invariant state.inputObjects == old(state.inputObjects)
      invariant state.source.fields == old(state.source).fields
                && state.source.inputs == old(state.source).inputs + nodes[..i]
      invariant forall j | 0 <= j < i :: InputOk(state.tables.definitionNames, nodes[j])
      invariant InputEntriesStand(state.inputValuesMap, state.source.inputs, WithEntries(entries, id, nodes, i))
    {
      EnterInput(state.inputValuesMap, state.source.inputs, WithEntries(entries, id, nodes, i), id, nodes[i]);
      state.inputValuesMap := state.inputValuesMap[(id, nodes[i].name) := |state.tables.inputValues|];
      var x := state.AppendInputField(nodes[i]);
      if !x.Ok? {
        return x;
      }
    }
    assert nodes[..|nodes|] == nodes;
    CoversTail(old(state.source).inputs, nodes);
    state.inputObjects := state.inputObjects[id := Window(start, |state.tables.inputValues| - start)];
    return Ok(());
  }

  // ----- The passes -----

  function LayoutOf(fields: seq<Origin>, state: State): Layout
    reads state`objects, state`interfaces
  {
    Layout(fields, state.objects, state.interfaces)
  }

  predicate Parsed(d: DefinitionNode) {
    d.TypeDefinition? ==>
      match d.ty.kind
      case ObjectKind(_, nodes) => FieldsParsed(nodes)
      case InterfaceKind(_, nodes) => FieldsParsed(nodes)
      case InputObjectKind(nodes) => InputsParsed(nodes)
      case _ => true
  }

  /** What has been read for the input objects: the window of each and the entry of each of their fields. */
  ghost predicate InputsHeld(state: State, declared: seq<seq<InputValueNode>>, entries: Entries)
    reads state`source, state`inputObjects, state`inputValuesMap
  {
    && Listed(state.source.inputs, state.inputObjects, declared)
    && InputEntriesStand(state.inputValuesMap, state.source.inputs, entries)
  }

  lemma InputsHeldGrow(
    inputs: seq<InputValueNode>, more: seq<InputValueNode>, windows: seq<Window>, declared: seq<seq<InputValueNode>>,
    ids: map<(nat, string), nat>, entries: Entries)
    requires Listed(inputs, windows, declared) && InputEntriesStand(ids, inputs, entries) && inputs <= more
    ensures Listed(more, windows, declared) && InputEntriesStand(ids, more, entries)
  {
    ListedGrows(inputs, more, windows, declared);
    InputEntriesGrow(ids, inputs, more, entries);
  }

  /** What reading the fields and links of one definition does. */
  twostate predicate FieldsRead(
    state: State, d: DefinitionNode, declared: seq<seq<InputValueNode>>, entries: Entries, ok: bool)
    reads state
  {
    var names, root := state.tables.definitionNames, RootObject(state.tables.definitionNames, state.queryTypeName);
    && state.Standing() && old(state.strings) <= state.strings
    && state.tables.definitionNames == old(state.tables).definitionNames
    && state.tables.enumValues == old(state.tables).enumValues
    && |state.inputObjects| == |old(state.inputObjects)|
    && state.closing == old(state.closing).(extras := state.closing.extras)
    && (ok <==> Accepted(d, state.Known(), root))
    && (ok ==>
          && LayoutOf(state.source.fields, state) == WithFields(old(LayoutOf(state.source.fields, state)), d, names, root)
          && state.links == WithLinks(old(state.links), d, state.Known())
          && InputsHeld(state, WithInputs(declared, d, names), EntriesWith(entries, d, names)))
  }

  method IngestObject(state: State, ty: TypeNode, id: nat) returns (r: Result<()>)
    requires state.Standing() && ty.kind.ObjectKind? && FieldsParsed(ty.kind.fields) && id < |state.objects|
    modifies state`strings, state`directives, state`tables, state`source, state`closing, state`objects, state`links
    ensures state.Standing() && old(state.strings) <= state.strings
    ensures state.tables.definitionNames == old(state.tables).definitionNames
    ensures state.tables.enumValues == old(state.tables).enumValues
    ensures old(state.source).inputs <= state.source.inputs
    ensures state.closing == old(state.closing).(extras := state.closing.extras)
    ensures var root := RootObject(state.tables.definitionNames, state.queryTypeName);
            && (r.Ok? <==> LinksOk(state.Known(), ty) && root.Some? && FieldsOk(state.Known(), ty.kind.fields,
              |ty.kind.fields|))
            && (r.Ok? ==> state.source.fields == old(state.source).fields + ObjectOrigins(ty.kind.fields, id, root))
    ensures r.Ok? ==>
              state.objects == WithRange(old(state.objects), id, |old(state.source).fields|, |state.source.fields|)
    ensures r.Ok? ==>
              state.links == LinkedTo(old(state.links), state.Known(), Object(id), ty.kind.implements, ty.directives)
  {
    r := IngestInterfaces(state, Object(id), ty.kind.implements, ty.directives);
    if r.Ok? {
      r := IngestObjectFields(state, id, ty.kind.fields);
    }
  }

  method IngestInterface(state: State, ty: TypeNode, id: nat) returns (r: Result<()>)
    requires state.Standing() && ty.kind.InterfaceKind? && FieldsParsed(ty.kind.fields) && id < |state.interfaces|
    modifies state`strings, state`directives, state`tables, state`source, state`closing, state`interfaces, state`links
    ensures state.Standing() && old(state.strings) <= state.strings
    ensures state.tables.definitionNames == old(state.tables).definitionNames
    ensures state.tables.enumValues == old(state.tables).enumValues
    ensures old(state.source).inputs <= state.source.inputs
    ensures state.closing == old(state.closing).(extras := state.closing.extras)
    ensures r.Ok? <==> LinksOk(state.Known(), ty) && FieldsOk(state.Known(), ty.kind.fields, |ty.kind.fields|)
    ensures r.Ok? ==>
              state.source.fields == old(state.source).fields + Origins(Interface(id), ty.kind.fields, |ty.kind.fields|)
    ensures r.Ok? ==>
              state.interfaces == WithRange(old(state.interfaces), id, |old(state.source).fields|, |state.source.fields|)
    ensures r.Ok? ==>
              state.links == LinkedTo(old(state.links), state.Known(), Interface(id), ty.kind.implements, ty.directives)
  {
    r := IngestInterfaces(state, Interface(id), ty.kind.implements, ty.directives);
    if r.Ok? {
      r := IngestInterfaceFields(state, id, ty.kind.fields);
    }
  }

  method ReadObject(
    state: State, d: DefinitionNode, id: nat, ghost declared: seq<seq<InputValueNode>>, ghost entries: Entries)
    returns (r: Result<()>)
    requires state.Standing() && Parsed(d) && InputsHeld(state, declared, entries)
    requires d.TypeDefinition? && d.ty.kind.ObjectKind? && id < |state.objects|
    requires d.ty.name in state.tables.definitionNames && state.tables.definitionNames[d.ty.name] == Object(id)
    modifies state`strings, state`directives, state`tables, state`source, state`closing, state`objects, state`links
    ensures FieldsRead(state, d, declared, entries, r.Ok?)
  {
    r := IngestObject(state, d.ty, id);
    InputsHeldGrow(old(state.source).inputs, state.source.inputs, state.inputObjects, declared, state.inputValuesMap,
                   entries);
  }

  method ReadInterface(
    state: State, d: DefinitionNode, id: nat, ghost declared: seq<seq<InputValueNode>>, ghost entries: Entries)
    returns (r: Result<()>)
    requires state.Standing() && Parsed(d) && InputsHeld(state, declared, entries)
    requires d.TypeDefinition? && d.ty.kind.InterfaceKind? && id < |state.interfaces|
    requires d.ty.name in state.tables.definitionNames && state.tables.definitionNames[d.ty.name] == Interface(id)
    modifies state`strings, state`directives, state`tables, state`source, state`closing, state`interfaces, state`links
    ensures FieldsRead(state, d, declared, entries, r.Ok?)
  {
    r := IngestInterface(state, d.ty, id);
    InputsHeldGrow(old(state.source).inputs, state.source.inputs, state.inputObjects, declared, state.inputValuesMap,
                   entries);
  }

  method ReadUnion(
    state: State, d: DefinitionNode, id: nat, ghost declared: seq<seq<InputValueNode>>, ghost entries: Entries)
    returns (r: Result<()>)
    requires state.Standing() && InputsHeld(state, declared, entries) && d.TypeDefinition? && d.ty.kind.UnionKind?
    requires d.ty.name in state.tables.definitionNames && state.tables.definitionNames[d.ty.name] == Union(id)
    modifies state`links
    ensures FieldsRead(state, d, declared, entries, r.Ok?)
  {
    r := IngestMembers(state, id, d.ty.kind.members, d.ty.directives);
  }

  method ReadInputs(
    state: State, d: DefinitionNode, id: nat, ghost declared: seq<seq<InputValueNode>>, ghost entries: Entries)
    returns (r: Result<()>)
    requires state.Standing() && Parsed(d) && InputsHeld(state, declared, entries)
    requires d.TypeDefinition? && d.ty.kind.InputObjectKind? && id < |state.inputObjects|
    requires d.ty.name in state.tables.definitionNames && state.tables.definitionNames[d.ty.name] == InputObject(id)
    modifies state`strings, state`directives, state`tables, state`source, state`inputObjects, state`inputValuesMap
    ensures FieldsRead(state, d, declared, entries, r.Ok?)
  {
    hide Stands, ExtrasBegin;
    r := IngestInputObject(state, id, d.ty.kind.inputs, entries);
    if r.Ok? {
      ListedGrows(old(state.source).inputs, state.source.inputs, old(state.inputObjects), declared);
      ListedWith(state.source.inputs, old(state.inputObjects), declared, id, state.inputObjects[id], d.ty.kind.inputs);
    }
  }

  /** Reads the fields and links of one definition. */
  method IngestFieldsOf(
    state: State, d: DefinitionNode, ghost declared: seq<seq<InputValueNode>>, ghost entries: Entries)
    returns (r: Result<()>)
    requires state.Standing() && Parsed(d) && InputsHeld(state, declared, entries)
    requires InRange(state.tables.definitionNames, |state.objects|, |state.interfaces|, |state.inputObjects|)
    modifies state`strings, state`directives, state`tables, state`source, state`closing,
             state`objects, state`interfaces, state`inputObjects, state`inputValuesMap, state`links
    ensures FieldsRead(state, d, declared, entries, r.Ok?)
  {
    hide Stands, ExtrasBegin, Listed, InputEntriesStand, InterfacesOk, MembersOk, AllJoinImplements, AllJoinMembers;
    if !d.TypeDefinition? || d.ty.kind.ScalarKind? || d.ty.kind.EnumKind? {
      return Ok(());
    }
    if d.ty.name !in state.tables.definitionNames {
      return Panic;
    }
    var definition := state.tables.definitionNames[d.ty.name];
    match (d.ty.kind, definition)
    case (ObjectKind(_, _), Object(id)) => r := ReadObject(state, d, id, declared, entries);
    case (InterfaceKind(_, _), Interface(id)) => r := ReadInterface(state, d, id, declared, entries);
    case (UnionKind(_), Union(id)) => r := ReadUnion(state, d, id, declared, entries);
    case (InputObjectKind(_), InputObject(id)) => r := ReadInputs(state, d, id, declared, entries);
    case _ => r := Err(BrokenInvariant);
  }

  method IngestFields(
    state: State, document: seq<DefinitionNode>, ghost scope: Scope, ghost l: Layout,
    ghost declared: seq<seq<InputValueNode>>)
    returns (r: Result<()>)
    requires InputsHeld(state, declared, map[]) && state.links == NO_LINKS
    requires state.Standing() && forall i | 0 <= i < |document| :: Parsed(document[i])
    requires state.Known() == scope && LayoutOf(state.source.fields, state) == l
    requires InRange(scope.names, |state.objects|, |state.interfaces|, |state.inputObjects|)
    modifies state`strings, state`directives, state`tables, state`source, state`closing,
             state`objects, state`interfaces, state`inputObjects, state`inputValuesMap, state`links
    ensures state.Standing() && old(state.strings) <= state.strings
    ensures state.tables.definitionNames == scope.names
    ensures state.tables.enumValues == old(state.tables).enumValues
    ensures state.closing == old(state.closing).(extras := state.closing.extras)
    ensures r.Ok? <==> AllAccepted(document, scope, RootObject(scope.names, state.queryTypeName), |document|)
    ensures r.Ok? ==>
              LayoutOf(state.source.fields, state) ==
              LaidOut(l, document, scope.names, RootObject(scope.names, state.queryTypeName), |document|)
    ensures r.Ok? ==> state.links == LinksRead(document, scope, |document|)
    ensures r.Ok? ==>
              InputsHeld(state, InputsRead(declared, document, scope.names, |document|),
                         EntriesRead(document, scope.names, |document|))
  {
    hide Stands, ExtrasBegin, Listed, InputEntriesStand, Accepted;
    ghost var root := RootObject(scope.names, state.queryTypeName);
    for i := 0 to |document|
      invariant state.Standing() && old(state.strings) <= state.strings
      invariant state.Known() == scope
      invariant state.tables.enumValues == old(state.tables).enumValues
      invariant state.closing == old(state.closing).(extras := state.closing.extras)
      invariant |state.inputObjects| == |old(state.inputObjects)|
      invariant LayoutOf(state.source.fields, state) == LaidOut(l, document, scope.names, root, i)
      invariant state.links == LinksRead(document, scope, i)
      invariant InputsHeld(state, InputsRead(declared, document, scope.names, i), EntriesRead(document, scope.names, i))
      invariant AllAccepted(document, scope, root, i)
    {
      LaidOutLengths(l, document, scope.names, root, i);
      var x := IngestFieldsOf(
        state, document[i], InputsRead(declared, document, scope.names, i), EntriesRead(document, scope.names, i));
      if !x.Ok? {
        if AllAccepted(document, scope, root, |document|) {
          AcceptedAt(document, scope, root, i, |document|);
        }
        return x;
      }
    }
    return Ok(());
  }

  method IngestSchemaDefinition(state: State, d: DefinitionNode) returns (r: Result<()>)
    requires d.SchemaNode?
    modifies state`queryTypeName
    ensures r.Ok? <==> SchemaOk(d)
    ensures !r.Ok? ==> r.Err?
    ensures r.Ok? ==> state.queryTypeName == if d.query.Some? then d.query else old(state.queryTypeName)
  {
    for i := 0 to |d.directives|
      invariant forall j | 0 <= j < i :: d.directives[j] == LINK_DIRECTIVE
      invariant state.queryTypeName == old(state.queryTypeName)
    {
      if d.directives[i] != LINK_DIRECTIVE {
        return Err(UnsupportedSchemaDirective(d.directives[i]));
      }
    }
    if d.query.Some? {
      state.queryTypeName := d.query;
    }
    return Ok(());
  }

  method IngestSchemaDefinitions(state: State, document: seq<DefinitionNode>) returns (r: Result<()>)
    requires state.queryTypeName == None
    modifies state`queryTypeName
    ensures r.Ok? <==> SchemasOk(document, |document|)
    ensures r.Ok? ==> state.queryTypeName == QueryName(document, |document|)
  {
    for i := 0 to |document|
      invariant SchemasOk(document, i) && state.queryTypeName == QueryName(document, i)
    {
      if document[i].SchemaNode? {
        var x := IngestSchemaDefinition(state, document[i]);
        if !x.Ok? {
          if SchemasOk(document, |document|) {
            SchemasOkPrefix(document, i + 1, |document|);
          }
          return x;
        }
      }
    }
    return Ok(());
  }

  // ----- The root query type -----

  /** The names of types, unions, subgraphs and enum values are those of the registry. */
  ghost predicate HoldsNames(state: State, r: Registry)
    reads state`strings, state`tables, state`typeDefinitions, state`unions, state`subgraphs, state`graphNames
  {
    && NamesStand(state.strings, state.typeDefinitions, state.unions, state.subgraphs, r)
    && state.tables.definitionNames == r.names && state.graphNames == r.graphNames
    && state.tables.enumValues.Keys == r.enumKeys
  }

  /** Adds the root query type. */
  method AddRoot(state: State, ghost r: Registry)
    requires state.Standing() && NoFieldsYet(state.tables) && Holds(state, r) && state.source.fields == []
    requires RootName(state.queryTypeName) !in r.names
    modifies state`strings, state`directives, state`tables, state`source, state`closing, state`typeDefinitions,
             state`objects, state`interfaces, state`unions, state`inputObjects, state`queryTypeName
    ensures state.Standing() && HoldsNames(state, WithType(r, DEFAULT_ROOT, ObjectKind([], [])))
    ensures state.queryTypeName == Some(DEFAULT_ROOT)
    ensures state.closing == old(state.closing).(extras := state.closing.extras)
    ensures |state.inputObjects| == r.inputObjects && NoInputsYet(state.inputObjects)
    ensures old(state.source).inputs <= state.source.inputs
    ensures LayoutOf(state.source.fields, state) == StartingLayout(r, old(state.queryTypeName))
  {
    hide Stands, ExtrasBegin, Interned, NamesStand, FieldOk, FieldStands;
    state.queryTypeName := Some(DEFAULT_ROOT);
    var id := |state.objects|;
    ghost var more := WithType(r, DEFAULT_ROOT, ObjectKind([], []));
    InsertType(state, DEFAULT_ROOT, ObjectKind([], []), r);
    ghost var named := state.strings;
    var x := IngestObjectFields(state, id, []);
    NamesGrow(named, state.strings, state.typeDefinitions, state.unions, state.subgraphs, more);
  }

  /** Adds the root query type if it is missing. */
  method EnsureRoot(state: State, ghost r: Registry)
    requires state.Standing() && NoFieldsYet(state.tables) && Holds(state, r) && state.source.fields == []
    requires state.inputValuesMap == map[]
    modifies state`strings, state`directives, state`tables, state`source, state`closing, state`typeDefinitions,
             state`objects, state`interfaces, state`unions, state`inputObjects, state`queryTypeName
    ensures state.Standing() && HoldsNames(state, WithRoot(r, old(state.queryTypeName)))
    ensures state.queryTypeName ==
            if RootName(old(state.queryTypeName)) in r.names then old(state.queryTypeName) else Some(DEFAULT_ROOT)
    ensures state.closing == old(state.closing).(extras := state.closing.extras)
    ensures |state.inputObjects| == r.inputObjects
    ensures InputsHeld(state, NothingDeclared(r.inputObjects), map[])
    ensures LayoutOf(state.source.fields, state) == StartingLayout(r, old(state.queryTypeName))
  {
    if RootName(state.queryTypeName) !in state.tables.definitionNames {
      AddRoot(state, r);
    }
    NothingListed(state.source.inputs, state.inputObjects);
  }

  // ----- The tables -----

  /** The conditions under which the tables of a document can be filled. */
  predicate Readable(document: seq<DefinitionNode>) {
    && DefinitionsOk(document, |document|)
    && SchemasOk(document, |document|)
    && AllAccepted(document, FinalScope(document), FinalRoot(document), |document|)
  }

  /** The tables that a document is read into. */
  ghost predicate HoldsTables(state: State, document: seq<DefinitionNode>)
    reads state
  {
    && HoldsNames(state, FinalRegistry(document))
    && LayoutOf(state.source.fields, state) == FinalLayout(document)
    && state.links == FinalLinks(document)
    && InputsHeld(state, FinalInputs(document), FinalEntries(document))
    && state.queryTypeName == FinalQueryName(document)
  }

  /** Adds a missing root type and reads the fields of all registered types. */
  method ReadFields(state: State, document: seq<DefinitionNode>) returns (r: Result<()>)
    requires forall i | 0 <= i < |document| :: Parsed(document[i])
    requires state.Standing() && NoFieldsYet(state.tables) && Holds(state, Definitions(document))
    requires state.source.fields == [] && state.queryTypeName == QueryName(document, |document|)
    requires state.inputValuesMap == map[] && state.links == NO_LINKS
    modifies state
    ensures r.Ok? <==> AllAccepted(document, FinalScope(document), FinalRoot(document), |document|)
    ensures state.closing == old(state.closing).(extras := state.closing.extras)
    ensures r.Ok? ==> state.Standing() && HoldsTables(state, document)
  {
    hide LaidOut, LinksRead, InputsRead, EntriesRead, AllAccepted, Definitions, Stands, ExtrasBegin;
    EnsureRoot(state, Definitions(document));
    FinalWell(document);
    ghost var final, strings := FinalRegistry(document), state.strings;
    r := IngestFields(state, document, FinalScope(document), StartOf(document), NothingDeclared(final.inputObjects));
    NamesGrow(strings, state.strings, state.typeDefinitions, state.unions, state.subgraphs, final);
  }

  /** The passes that fill the tables. */
  method ReadTables(document: seq<DefinitionNode>) returns (state: State, r: Result<()>)
    requires forall i | 0 <= i < |document| :: Parsed(document[i])
    ensures fresh(state)
    ensures r.Ok? <==> Readable(document)
    ensures r.Ok? ==> state.Standing() && HoldsTables(state, document)
    ensures r.Ok? ==> state.closing == NOTHING_CLOSED.(extras := state.closing.extras)
  {
    hide FinalScope, FinalRoot, Definitions, HoldsTables, AllAccepted, Stands, ExtrasBegin;
    state := new State();
    r := IngestDefinitions(state, document);
    if !r.Ok? {
      return;
    }
    r := IngestSchemaDefinitions(state, document);
    if !r.Ok? {
      return;
    }
    r := ReadFields(state, document);
  }

  // ----- The whole document -----

  /** What the selections of a document are resolved against. */
  function FinalSchema(document: seq<DefinitionNode>): Schema {
    Schema(FinalScope(document), FinalLayout(document).fields, FinalEntries(document))
  }

  /** The conditions under which a document is ingested. */
  predicate Ingestible(document: seq<DefinitionNode>, parse: Parser) {
    && Readable(document)
    && Closes(FinalSchema(document), parse, document)
    && FinalRoot(document).Some?
  }

  /** Before the closing pass no field provides or requires anything. */
  lemma ExtrasStart(strings: seq<string>, t: Tables, schema: Schema, c: Closing)
    requires ExtrasBegin(schema.scope.graphs, schema.fields, c.extras) && |t.fields| == |schema.fields|
    requires c == NOTHING_CLOSED.(extras := c.extras)
    ensures ClosingStands(strings, t, schema.fields, c, StartClosing(schema))
  {
    var sources := StartClosing(schema).extras;
    forall f | 0 <= f < |c.extras|
      ensures ExtraAt(strings, t, schema.fields, c.extras, sources, f)
    {
      assert c.extras[f] == Begins(schema.scope.graphs, schema.fields[f]);
    }
  }

  /** Filled tables are ready for the closing pass. */
  lemma TablesAreReady(state: State, document: seq<DefinitionNode>)
    requires state.Standing() && HoldsTables(state, document)
    requires state.closing == NOTHING_CLOSED.(extras := state.closing.extras)
    ensures Written(state, FinalSchema(document), StartClosing(FinalSchema(document)))
  {
    FinalWell(document);
    StandsConsistent(state.Snapshot(), state.source);
    ExtrasStart(state.strings, state.tables, FinalSchema(document), state.closing);
  }

  method FromSdl(document: seq<DefinitionNode>, parse: Parser) returns (state: State, r: Result<nat>)
    requires forall i | 0 <= i < |document| :: Parsed(document[i])
    ensures fresh(state)
    ensures r.Ok? <==> Ingestible(document, parse)
    ensures r.Ok? ==> Some(r.value) == FinalRoot(document)
    ensures r.Ok? ==> HoldsTables(state, document)
    ensures r.Ok? ==> Written(state, FinalSchema(document), Closed(FinalSchema(document), parse, document))
  {
    hide Readable, Closes, Closed, StartClosing, FinalLayout, FinalLinks, FinalInputs, FinalEntries, Ready,
         ClosingStands, Stands, ExtrasBegin, NamesStand, Listed, InputEntriesStand;
    var x;
    state, x := ReadTables(document);
    if !x.Ok? {
      return state, if x.Err? then Err(x.error) else Panic;
    }
    TablesAreReady(state, document);
    ghost var strings := state.strings;
    x := IngestSelectionSets(state, parse, document, FinalSchema(document));
    if !x.Ok? {
      return state, if x.Err? then Err(x.error) else Panic;
    }
    NamesGrow(strings, state.strings, state.typeDefinitions, state.unions, state.subgraphs, FinalRegistry(document));
    var root := RootObject(state.tables.definitionNames, state.queryTypeName);
    if root.None? {
      return state, Err(MissingRoot(RootName(state.queryTypeName)));
    }
    return state, Ok(root.value);
  }
}
