/**
 The first pass over a schema document: every type is registered under its name, before any
 field is read.
 */
module FederatedDefinitions {
  import opened Common
  import opened Wrapping
  import opened TypeRefs
  import opened FederatedModel
  import opened FederatedJoin
  import opened FederatedRecords
  import opened FederatedState

  const JOIN_GRAPH_ENUM := "join__Graph"

  /** The enum that lists the subgraphs. */
  predicate ListsGraphs(d: DefinitionNode) {
    d.TypeDefinition? && d.ty.kind.EnumKind? && d.ty.name == JOIN_GRAPH_ENUM
  }

  /** It is not registered as a type. */
  predicate IsRegistered(d: DefinitionNode) {
    d.TypeDefinition? && !ListsGraphs(d)
  }

  // ----- What registration assigns -----

  /** The names of the types, the definition behind each name, the tables of the owners, and the subgraphs. */
  datatype Registry = Registry(
    types: seq<string>, names: map<string, Definition>,
    objects: seq<OwnerRecord>, interfaces: seq<OwnerRecord>, unions: seq<string>, inputObjects: nat,
    enumKeys: set<(nat, string)>,
    subgraphs: seq<Subgraph>, graphNames: map<string, nat>)

  const EMPTY := Registry([], map[], [], [], [], 0, {}, [], map[])

  function Assigned(r: Registry, kind: Kind): Definition {
    match kind
    case ScalarKind => Scalar(|r.types|)
    case ObjectKind(_, _) => Object(|r.objects|)
    case InterfaceKind(_, _) => Interface(|r.interfaces|)
    case UnionKind(_) => Union(|r.unions|)
    case EnumKind(_) => EnumType(|r.types|)
    case InputObjectKind(_) => InputObject(r.inputObjects)
  }

  /** Of two types with one name the later one stays; before its fields are read a type owns none. */
  function WithType(r: Registry, name: string, kind: Kind): Registry {
    var owner := OwnerRecord(|r.types|, NO_FIELDS);
    r.(types := r.types + [name],
       names := r.names[name := Assigned(r, kind)],
       objects := if kind.ObjectKind? then r.objects + [owner] else r.objects,
       interfaces := if kind.InterfaceKind? then r.interfaces + [owner] else r.interfaces,
       unions := if kind.UnionKind? then r.unions + [name] else r.unions,
       inputObjects := if kind.InputObjectKind? then r.inputObjects + 1 else r.inputObjects)
  }

  /** The keys of the enum values: enum type and name. */
  function ValueKeys(ty: nat, values: seq<EnumValueNode>, n: nat): set<(nat, string)>
    requires n <= |values|
  {
    if n == 0 then {} else ValueKeys(ty, values, n - 1) + {(ty, values[n - 1].name)}
  }

  /** The subgraphs after the first `n` values of their enum. */
  function WithGraphs(r: Registry, values: seq<EnumValueNode>, n: nat): (more: Registry)
    requires n <= |values|
    ensures more == r.(subgraphs := more.subgraphs, graphNames := more.graphNames)
  {
    if n == 0 then r
    else
      var before, graph := WithGraphs(r, values, n - 1), SubgraphOf(values[n - 1].directives);
      if graph.None? then before else WithGraph(before, values[n - 1].name, graph.value)
  }

  function WithDefinition(r: Registry, d: DefinitionNode): Registry {
    if ListsGraphs(d) then WithGraphs(r, d.ty.kind.values, |d.ty.kind.values|)
    else if !IsRegistered(d) then r
    else if d.ty.kind.EnumKind? then
      var values := d.ty.kind.values;
      WithType(r, d.ty.name, d.ty.kind).(enumKeys := r.enumKeys + ValueKeys(|r.types|, values, |values|))
    else WithType(r, d.ty.name, d.ty.kind)
  }

  /** The registry after the first `n` definitions. */
  function Registered(document: seq<DefinitionNode>, n: nat): Registry
    requires n <= |document|
  {
    if n == 0 then EMPTY else WithDefinition(Registered(document, n - 1), document[n - 1])
  }

  // ----- What registration guarantees -----

  /** The definition was handed out, so its record exists. */
  predicate HandedOut(r: Registry, d: Definition) {
    match d
    case Scalar(ty) => ty < |r.types|
    case Object(id) => id < |r.objects|
    case Interface(id) => id < |r.interfaces|
    case Union(id) => id < |r.unions|
    case EnumType(ty) => ty < |r.types|
    case InputObject(id) => id < r.inputObjects
  }

  ghost predicate WellRegistered(r: Registry) {
    && (forall n | n in r.names :: HandedOut(r, r.names[n]))
    && Injective(r.names)
  }

  lemma WithTypeWellRegistered(r: Registry, name: string, kind: Kind)
    requires WellRegistered(r)
    ensures WellRegistered(WithType(r, name, kind))
  {
    var more := WithType(r, name, kind);
    forall n | n in more.names
      ensures HandedOut(more, more.names[n])
      ensures n != name ==> more.names[n] != more.names[name]
    {
    }
  }

  lemma {:induction false} RegisteredWell(document: seq<DefinitionNode>, n: nat)
    requires n <= |document|
    ensures WellRegistered(Registered(document, n))
  {
    if n > 0 {
      RegisteredWell(document, n - 1);
      var d := document[n - 1];
      if IsRegistered(d) {
        WithTypeWellRegistered(Registered(document, n - 1), d.ty.name, d.ty.kind);
      }
    }
  }

  lemma {:induction false} ScalarsWell(r: Registry, n: nat)
    requires WellRegistered(r) && n <= |BUILTIN_SCALARS|
    ensures WellRegistered(WithScalars(r, n))
  {
    if n > 0 {
      ScalarsWell(r, n - 1);
      WithTypeWellRegistered(WithScalars(r, n - 1), BUILTIN_SCALARS[n - 1], ScalarKind);
    }
  }

  /** Names lead to records, and two names never lead to the same one. */
  lemma DefinitionsWell(document: seq<DefinitionNode>)
    ensures WellRegistered(Definitions(document))
  {
    RegisteredWell(document, |document|);
    ScalarsWell(Registered(document, |document|), |BUILTIN_SCALARS|);
  }

  // ----- Enum values -----

  predicate ValuesOk(values: seq<EnumValueNode>, n: nat)
    requires n <= |values|
  {
    n == 0 || (DirectivesOk(values[n - 1].directives) && ValuesOk(values, n - 1))
  }

  lemma {:induction false} ValuesOkPrefix(values: seq<EnumValueNode>, i: nat, n: nat)
    requires i <= n <= |values| && ValuesOk(values, n)
    ensures ValuesOk(values, i)
  {
    if i < n {
      ValuesOkPrefix(values, i, n - 1);
    }
  }

  /** The first `n` values of the enum of subgraphs describe subgraphs. */
  predicate GraphsOk(values: seq<EnumValueNode>, n: nat)
    requires n <= |values|
  {
    n == 0 || (SubgraphOf(values[n - 1].directives).Some? && GraphsOk(values, n - 1))
  }

  lemma {:induction false} GraphsOkPrefix(values: seq<EnumValueNode>, i: nat, n: nat)
    requires i <= n <= |values| && GraphsOk(values, n)
    ensures GraphsOk(values, i)
  {
    if i < n {
      GraphsOkPrefix(values, i, n - 1);
    }
  }

  /** No field or input value has been read yet. */
  predicate NoFieldsYet(t: Tables) {
    t.fields == [] && t.inputValues == [] && t.selectionMap == map[]
  }

  /** Where no enum is expected, the table of enum values is not consulted. */
  lemma {:induction false} UnexpectedEnum(
    strings: seq<string>, e: map<(nat, string), nat>, f: map<(nat, string), nat>, g: GraphValue, v: Value)
    requires DenotesValue(strings, e, None, g, v)
    ensures DenotesValue(strings, f, None, g, v)
    decreases v
  {
    match v
    case ListValue(items) =>
      forall i | 0 <= i < |items|
        ensures DenotesValue(strings, f, None, g.items[i], items[i])
      {
        UnexpectedEnum(strings, e, f, g.items[i], items[i]);
      }
    case ObjectValue(members) =>
      forall i | 0 <= i < |members|
        ensures DenotesValue(strings, f, None, g.members[i].value, members[i].value)
      {
        UnexpectedEnum(strings, e, f, g.members[i].value, members[i].value);
      }
    case _ =>
  }

  /** A new enum value changes nothing about the directives read so far. */
  lemma {:induction false} PushEnumValue(g: Graph, s: Source, key: (nat, string), name: nat)
    requires Stands(g, s) && NoFieldsYet(g.tables) && Denotes(g.strings, name, key.1)
    ensures var t := g.tables;
            Stands(g.(tables := t.(enumValues := t.enumValues[key := |t.enumValueNames|],
                                   enumValueNames := t.enumValueNames + [name])), s)
  {
    var t := g.tables;
    var more, names := t.enumValues[key := |t.enumValueNames|], t.enumValueNames + [name];
    forall i | 0 <= i < |g.directives|
      ensures DirectiveAt(g.strings, more, g.directives, s.directives, i)
    {
      assert DirectiveAt(g.strings, t.enumValues, g.directives, s.directives, i);
      var r, d := g.directives[i], s.directives[i];
      if r.Other? {
        UnexpectedEnum(g.strings, t.enumValues, more, GObject(r.arguments), ObjectValue(AsMembers(d.arguments)));
      }
    }
    forall k | k in more
      ensures EnumAt(g.strings, more, names, k)
    {
      if k != key {
        assert EnumAt(g.strings, t.enumValues, t.enumValueNames, k);
      }
    }
  }

  /** Appends the record of one enum value and enters it under its enum and name. */
  method IngestEnumValue(state: State, ty: nat, value: EnumValueNode) returns (ok: bool)
    requires state.Standing() && NoFieldsYet(state.tables)
    modifies state`strings, state`directives, state`tables, state`source
    ensures state.Standing() && NoFieldsYet(state.tables) && old(state.strings) <= state.strings
    ensures state.source.fields == old(state.source).fields && state.source.inputs == old(state.source).inputs
    ensures state.tables.definitionNames == old(state.tables).definitionNames
    ensures ok <==> DirectivesOk(value.directives)
    ensures ok ==> state.tables.enumValues.Keys == old(state.tables).enumValues.Keys + {(ty, value.name)}
  {
    var window := state.CollectComposedDirectives(value.directives);
    if !window.Ok? {
      return false;
    }
    ghost var before := state.Snapshot();
    var description := state.InsertOptional(value.description);
    var name := state.InsertString(value.name);
    StringsGrow(before, state.source, state.strings);
    PushEnumValue(state.Snapshot(), state.source, (ty, value.name), name);
    var t := state.tables;
    state.tables := t.(enumValues := t.enumValues[(ty, value.name) := |t.enumValueNames|],
                       enumValueNames := t.enumValueNames + [name]);
    return true;
  }

  lemma UnionAssoc<T>(a: set<T>, b: set<T>, c: set<T>)
    ensures (a + b) + c == a + (b + c)
  {
  }

  method IngestEnumValues(state: State, ty: nat, values: seq<EnumValueNode>) returns (ok: bool)
    requires state.Standing() && NoFieldsYet(state.tables)
    modifies state`strings, state`directives, state`tables, state`source
    ensures state.Standing() && NoFieldsYet(state.tables) && old(state.strings) <= state.strings
    ensures state.source.fields == old(state.source).fields && state.source.inputs == old(state.source).inputs
    ensures state.tables.definitionNames == old(state.tables).definitionNames
    ensures ok <==> ValuesOk(values, |values|)
    ensures ok ==> state.tables.enumValues.Keys == old(state.tables).enumValues.Keys + ValueKeys(ty, values, |values|)
  {
    for i := 0 to |values|
      invariant state.Standing() && NoFieldsYet(state.tables) && old(state.strings) <= state.strings
      invariant state.source.fields == old(state.source).fields && state.source.inputs == old(state.source).inputs
      invariant state.tables.definitionNames == old(state.tables).definitionNames
      invariant ValuesOk(values, i)
      invariant state.tables.enumValues.Keys == old(state.tables).enumValues.Keys + ValueKeys(ty, values, i)
    {
      var entered := IngestEnumValue(state, ty, values[i]);
      if !entered {
        if ValuesOk(values, |values|) {
          ValuesOkPrefix(values, i + 1, |values|);
        }
        return false;
      }
      UnionAssoc(old(state.tables).enumValues.Keys, ValueKeys(ty, values, i), {(ty, values[i].name)});
    }
    return true;
  }

  // ----- Types -----

  ghost predicate SubgraphsStand(strings: seq<string>, ids: seq<(nat, nat)>, graphs: seq<Subgraph>) {
    && |ids| == |graphs|
    && forall i | 0 <= i < |ids| :: Denotes(strings, ids[i].0, graphs[i].name) && Denotes(strings, ids[i].1,
      graphs[i].url)
  }

  /** The names of types, unions and subgraphs are those of the registry. */
  ghost predicate NamesStand(
    strings: seq<string>, types: seq<nat>, unions: seq<nat>, subgraphs: seq<(nat, nat)>, r: Registry)
  {
    DenotesList(strings, types, r.types) && DenotesList(strings, unions, r.unions) && SubgraphsStand(strings,
      subgraphs, r.subgraphs)
  }

  lemma NamesGrow(
    strings: seq<string>, more: seq<string>, types: seq<nat>, unions: seq<nat>, subgraphs: seq<(nat, nat)>, r: Registry)
    requires NamesStand(strings, types, unions, subgraphs, r) && strings <= more
    ensures NamesStand(more, types, unions, subgraphs, r)
  {
  }

  predicate NoInputsYet(windows: seq<Window>) {
    forall i | 0 <= i < |windows| :: windows[i] == Window(0, 0)
  }

  /** The state holds exactly the registry. */
  ghost predicate Holds(state: State, r: Registry)
    reads state`strings, state`tables, state`typeDefinitions, state`objects, state`interfaces, state`unions,
          state`inputObjects, state`subgraphs, state`graphNames
  {
    && NamesStand(state.strings, state.typeDefinitions, state.unions, state.subgraphs, r)
    && state.tables.definitionNames == r.names && state.graphNames == r.graphNames
    && state.objects == r.objects && state.interfaces == r.interfaces
    && |state.inputObjects| == r.inputObjects && NoInputsYet(state.inputObjects)
    && state.tables.enumValues.Keys == r.enumKeys
  }

  predicate DefinitionOk(d: DefinitionNode) {
    d.TypeDefinition? ==>
      && DirectivesOk(d.ty.directives)
      && (ListsGraphs(d) ==> GraphsOk(d.ty.kind.values, |d.ty.kind.values|))
      && (IsRegistered(d) && d.ty.kind.EnumKind? ==> ValuesOk(d.ty.kind.values, |d.ty.kind.values|))
  }

  predicate DefinitionsOk(document: seq<DefinitionNode>, n: nat)
    requires n <= |document|
  {
    n == 0 || (DefinitionOk(document[n - 1]) && DefinitionsOk(document, n - 1))
  }

  lemma {:induction false} DefinitionsOkPrefix(document: seq<DefinitionNode>, i: nat, n: nat)
    requires i <= n <= |document| && DefinitionsOk(document, n)
    ensures DefinitionsOk(document, i)
  {
    if i < n {
      DefinitionsOkPrefix(document, i, n - 1);
    }
  }

  /** While no field has been read, a new name changes nothing about the records. */
  lemma EnterName(g: Graph, s: Source, names: map<string, Definition>)
    requires Stands(g, s) && NoFieldsYet(g.tables)
    ensures Stands(g.(tables := g.tables.(definitionNames := names)), s)
  {
  }

  lemma PushName(
    strings: seq<string>, types: seq<nat>, unions: seq<nat>, subgraphs: seq<(nat, nat)>, r: Registry,
    id: nat, name: string, kind: Kind)
    requires NamesStand(strings, types, unions, subgraphs, r) && Denotes(strings, id, name)
    ensures NamesStand(strings, types + [id], if kind.UnionKind? then unions + [id]
            else unions, subgraphs, WithType(r, name, kind))
  {
  }

  /** The definition that the next type of a kind gets. */
  function NextDefinition(state: State, kind: Kind): Definition
    reads state`typeDefinitions, state`objects, state`interfaces, state`unions, state`inputObjects
  {
    match kind
    case ScalarKind => Scalar(|state.typeDefinitions|)
    case ObjectKind(_, _) => Object(|state.objects|)
    case InterfaceKind(_, _) => Interface(|state.interfaces|)
    case UnionKind(_) => Union(|state.unions|)
    case EnumKind(_) => EnumType(|state.typeDefinitions|)
    case InputObjectKind(_) => InputObject(|state.inputObjects|)
  }

  /** Appends the records of a type and enters its name. */
  method PushType(state: State, name: string, id: nat, kind: Kind, ghost r: Registry)
    requires state.Standing() && NoFieldsYet(state.tables) && Holds(state, r)
    requires Denotes(state.strings, id, name)
    modifies state`tables, state`typeDefinitions, state`objects, state`interfaces, state`unions, state`inputObjects
    ensures state.Standing() && NoFieldsYet(state.tables) && Holds(state, WithType(r, name, kind))
  {
    hide Stands, ExtrasBegin;
    PushName(state.strings, state.typeDefinitions, state.unions, state.subgraphs, r, id, name, kind);
    var definition := NextDefinition(state, kind);
    assert definition == Assigned(r, kind);
    var owner := OwnerRecord(|state.typeDefinitions|, NO_FIELDS);
    state.typeDefinitions := state.typeDefinitions + [id];
    if kind.ObjectKind? {
      state.objects := state.objects + [owner];
    }
    if kind.InterfaceKind? {
      state.interfaces := state.interfaces + [owner];
    }
    if kind.UnionKind? {
      state.unions := state.unions + [id];
    }
    if kind.InputObjectKind? {
      state.inputObjects := state.inputObjects + [Window(0, 0)];
    }
    EnterName(state.Snapshot(), state.source, state.tables.definitionNames[name := definition]);
    state.tables := state.tables.(definitionNames := state.tables.definitionNames[name := definition]);
  }

  /** Appends the records of a type and, for an enum, those of its values. */
  method PushDefinition(state: State, ty: TypeNode, id: nat, ghost r: Registry) returns (ok: bool)
    requires state.Standing() && NoFieldsYet(state.tables) && Holds(state, r)
    requires Denotes(state.strings, id, ty.name) && IsRegistered(TypeDefinition(ty))
    modifies state`strings, state`directives, state`tables, state`source, state`typeDefinitions,
             state`objects, state`interfaces, state`unions, state`inputObjects
    ensures state.Standing() && NoFieldsYet(state.tables)
    ensures state.source.fields == old(state.source).fields && state.source.inputs == old(state.source).inputs
    ensures ok <==> ty.kind.EnumKind? ==> ValuesOk(ty.kind.values, |ty.kind.values|)
    ensures ok ==> Holds(state, WithDefinition(r, TypeDefinition(ty)))
  {
    var enum := |state.typeDefinitions|;
    PushType(state, ty.name, id, ty.kind, r);
    ok := true;
    if ty.kind.EnumKind? {
      ghost var before := state.strings;
      ok := IngestEnumValues(state, enum, ty.kind.values);
      NamesGrow(before, state.strings, state.typeDefinitions, state.unions, state.subgraphs, WithType(r, ty.name,
        ty.kind));
    }
  }

  function WithGraph(r: Registry, value: string, graph: Subgraph): Registry {
    r.(subgraphs := r.subgraphs + [graph], graphNames := r.graphNames[value := |r.subgraphs|])
  }

  /** While no field has been read, subgraphs change nothing about the records. */
  method PushGraph(state: State, value: string, graph: Subgraph, ghost r: Registry)
    requires state.Standing() && NoFieldsYet(state.tables) && Holds(state, r)
    modifies state`strings, state`subgraphs, state`graphNames
    ensures state.Standing() && Holds(state, WithGraph(r, value, graph))
  {
    hide DirectivesStand, InputsStand, EntriesStand, EnumsStand;
    ghost var before := state.Snapshot();
    var name := state.InsertString(graph.name);
    var url := state.InsertString(graph.url);
    StringsGrow(before, state.source, state.strings);
    NamesGrow(before.strings, state.strings, state.typeDefinitions, state.unions, state.subgraphs, r);
    state.graphNames := state.graphNames[value := |state.subgraphs|];
    state.subgraphs := state.subgraphs + [(name, url)];
  }

  /** Reads the subgraphs; a value that does not describe one is an error. */
  method IngestJoinGraphEnum(state: State, values: seq<EnumValueNode>, ghost r: Registry) returns (x: Result<()>)
    requires state.Standing() && NoFieldsYet(state.tables) && Holds(state, r)
    modifies state`strings, state`subgraphs, state`graphNames
    ensures state.Standing()
    ensures x.Ok? <==> GraphsOk(values, |values|)
    ensures !x.Ok? ==> x.Err?
    ensures x.Ok? ==> Holds(state, WithGraphs(r, values, |values|))
  {
    for i := 0 to |values|
      invariant state.Standing() && Holds(state, WithGraphs(r, values, i)) && GraphsOk(values, i)
    {
      var graph := SubgraphOf(values[i].directives);
      if graph.None? {
        if GraphsOk(values, |values|) {
          GraphsOkPrefix(values, i + 1, |values|);
        }
        return Err(MalformedGraph(values[i].name));
      }
      PushGraph(state, values[i].name, graph.value, WithGraphs(r, values, i));
    }
    return Ok(());
  }

  /** Registers one type, or reads the subgraphs. */
  method RegisterType(state: State, ty: TypeNode, ghost r: Registry) returns (x: Result<()>)
    requires state.Standing() && NoFieldsYet(state.tables) && Holds(state, r)
    modifies state`strings, state`directives, state`tables, state`source, state`typeDefinitions,
             state`objects, state`interfaces, state`unions, state`inputObjects, state`subgraphs, state`graphNames
    ensures state.Standing() && NoFieldsYet(state.tables)
    ensures state.source.fields == old(state.source).fields && state.source.inputs == old(state.source).inputs
    ensures x.Ok? <==> DefinitionOk(TypeDefinition(ty))
    ensures x.Ok? ==> Holds(state, WithDefinition(r, TypeDefinition(ty)))
  {
    hide Stands, ExtrasBegin, NamesStand;
    ghost var before := state.Snapshot();
    var name := state.InsertString(ty.name);
    var description := state.InsertOptional(ty.description);
    StringsGrow(before, state.source, state.strings);
    var window := state.CollectComposedDirectives(ty.directives);
    NamesGrow(before.strings, state.strings, state.typeDefinitions, state.unions, state.subgraphs, r);
    if !window.Ok? {
      return Panic;
    }
    if ty.kind.EnumKind? && ty.name == JOIN_GRAPH_ENUM {
      x := IngestJoinGraphEnum(state, ty.kind.values, r);
      return;
    }
    var ok := PushDefinition(state, ty, name, r);
    return if ok then Ok(()) else Panic;
  }

  /** The scalars that every schema has; they replace types of the same name. */
  function WithScalars(r: Registry, n: nat): Registry
    requires n <= |BUILTIN_SCALARS|
  {
    if n == 0 then r else WithType(WithScalars(r, n - 1), BUILTIN_SCALARS[n - 1], ScalarKind)
  }

  /** Registers a type that is not in the document. */
  method InsertType(state: State, name: string, kind: Kind, ghost r: Registry)
    requires state.Standing() && NoFieldsYet(state.tables) && Holds(state, r)
    modifies state`strings, state`tables, state`typeDefinitions, state`objects, state`interfaces, state`unions,
             state`inputObjects
    ensures state.Standing() && NoFieldsYet(state.tables) && Holds(state, WithType(r, name, kind))
  {
    hide Stands, ExtrasBegin, NamesStand;
    ghost var before := state.Snapshot();
    var id := state.InsertString(name);
    StringsGrow(before, state.source, state.strings);
    NamesGrow(before.strings, state.strings, state.typeDefinitions, state.unions, state.subgraphs, r);
    PushType(state, name, id, kind, r);
  }

  method InsertBuiltinScalars(state: State, ghost r: Registry)
    requires state.Standing() && NoFieldsYet(state.tables) && Holds(state, r)
    modifies state`strings, state`tables, state`typeDefinitions, state`objects, state`interfaces, state`unions,
             state`inputObjects
    ensures state.Standing() && NoFieldsYet(state.tables) && Holds(state, WithScalars(r, |BUILTIN_SCALARS|))
  {
    hide Stands, ExtrasBegin, NamesStand;
    for i := 0 to |BUILTIN_SCALARS|
      invariant state.Standing() && NoFieldsYet(state.tables) && Holds(state, WithScalars(r, i))
    {
      InsertType(state, BUILTIN_SCALARS[i], ScalarKind, WithScalars(r, i));
    }
  }

  /** The registry after the first pass. */
  function Definitions(document: seq<DefinitionNode>): Registry {
    WithScalars(Registered(document, |document|), |BUILTIN_SCALARS|)
  }

  method IngestDefinitions(state: State, document: seq<DefinitionNode>) returns (r: Result<()>)
    requires state.Standing() && NoFieldsYet(state.tables) && Holds(state, EMPTY)
    modifies state`strings, state`directives, state`tables, state`source, state`typeDefinitions,
             state`objects, state`interfaces, state`unions, state`inputObjects, state`subgraphs, state`graphNames
    ensures state.Standing() && NoFieldsYet(state.tables)
    ensures state.source.fields == old(state.source).fields && state.source.inputs == old(state.source).inputs
    ensures r.Ok? <==> DefinitionsOk(document, |document|)
    ensures r.Ok? ==> Holds(state, Definitions(document))
  {
    for i := 0 to |document|
      invariant state.Standing() && NoFieldsYet(state.tables)
      invariant state.source.fields == old(state.source).fields && state.source.inputs == old(state.source).inputs
      invariant Holds(state, Registered(document, i)) && DefinitionsOk(document, i)
    {
      if document[i].TypeDefinition? {
        var x := RegisterType(state, document[i].ty, Registered(document, i));
        if !x.Ok? {
          if DefinitionsOk(document, |document|) {
            DefinitionsOkPrefix(document, i + 1, |document|);
          }
          return x;
        }
      }
    }
    InsertBuiltinScalars(state, Registered(document, |document|));
    return Ok(());
  }
}
