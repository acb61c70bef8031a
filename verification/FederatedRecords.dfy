/**
 Schema documents, and the relation between a definition in the document and the records that
 ingestion writes for it.
 */
module FederatedRecords {
  import opened Common
  import opened Wrapping
  import opened TypeRefs
  import opened FederatedModel
  import opened FederatedJoin

  datatype EnumValueNode = EnumValueNode(name: string, directives: seq<DirectiveNode>, description: Option<string>)

  datatype Kind =
    | ScalarKind
    | ObjectKind(implements: seq<string>, fields: seq<FieldNode>)
    | InterfaceKind(implements: seq<string>, fields: seq<FieldNode>)
    | UnionKind(members: seq<string>)
    | EnumKind(values: seq<EnumValueNode>)
    | InputObjectKind(inputs: seq<InputValueNode>)

  /** A type definition or type extension. */
  datatype TypeNode = TypeNode(
    name: string, extend: bool, description: Option<string>, directives: seq<DirectiveNode>, kind: Kind)

  /** The schema definition names the root types; its extensions are not read. */
  datatype DefinitionNode =
    | SchemaNode(directives: seq<string>, query: Option<string>)
    | SchemaExtension
    | DirectiveDefinition
    | TypeDefinition(ty: TypeNode)

  datatype Range = Range(start: nat, end: nat)

  datatype OwnerRecord = OwnerRecord(typeDefinition: nat, fields: Range)

  const NO_FIELDS := Range(0, 0)

  const BUILTIN_SCALARS: seq<string> := ["String", "ID", "Float", "Boolean", "Int"]

  /** The tables a record may refer to. */
  datatype Graph = Graph(strings: seq<string>, directives: seq<DirectiveRecord>, tables: Tables)

  /** A field is declared in the document or reserved for introspection on the root type. */
  datatype Origin = Declared(parent: Definition, node: FieldNode) | Reserved(name: string, root: nat)

  /** The type that a field was read from or reserved for. */
  function OwnerOf(origin: Origin): Definition {
    match origin
    case Declared(parent, _) => parent
    case Reserved(_, root) => Object(root)
  }

  /** What is known of a field when it is appended. */
  function Begins(graphs: map<string, nat>, origin: Origin): FieldExtra {
    match origin
    case Declared(_, n) => FieldExtra(ResolvableIn(graphs, n.directives, |n.directives|), [], [])
    case Reserved(_, _) => FieldExtra([], [], [])
  }

  predicate ExtrasBegin(graphs: map<string, nat>, fields: seq<Origin>, extras: seq<FieldExtra>) {
    |extras| == |fields| && forall f | 0 <= f < |extras| :: extras[f] == Begins(graphs, fields[f])
  }

  /** What the records of the tables stand for, entry by entry. */
  datatype Source = Source(directives: seq<DirectiveNode>, inputs: seq<InputValueNode>, fields: seq<Origin>)

  // ----- Directives -----

  /** The value as a list of lists of strings, if it is one. */
  function StringLists(v: Option<Value>): Option<seq<seq<string>>> {
    if v.Some? && v.value.ListValue? && forall i | 0 <= i < |v.value.items| :: IsStringList(v.value.items[i]) then
      var items := v.value.items;
      Some(seq(|items|, i requires 0 <= i < |items| => StringList(items[i])))
    else None
  }

  predicate IsStringList(v: Value) {
    v.ListValue? && forall i | 0 <= i < |v.items| :: AsText(Some(v.items[i])).Some?
  }

  function StringList(v: Value): seq<string>
    requires IsStringList(v)
  {
    seq(|v.items|, i requires 0 <= i < |v.items| => AsText(Some(v.items[i])).value)
  }

  /** Scopes and policies are converted to JSON, which gives up at variables and enum values and panics at
      infinite numbers, whichever comes first. */
  datatype Conversion = Converts | GivesUp | Overflows

  function ToJson(v: Value): Conversion
    decreases v, 1
  {
    match v
    case Variable(_) => GivesUp
    case Enum(_) => GivesUp
    case Float(_, finite) => if finite then Converts else Overflows
    case ListValue(items) => AllToJson(items)
    case ObjectValue(members) => MembersToJson(members)
    case _ => Converts
  }

  function AllToJson(items: seq<Value>): Conversion
    decreases items, 0
  {
    if items == [] then Converts
    else if ToJson(items[0]).Converts? then AllToJson(items[1..])
    else ToJson(items[0])
  }

  function MembersToJson(members: seq<Member>): Conversion
    decreases members, 0
  {
    if members == [] then Converts
    else if ToJson(members[0].value).Converts? then MembersToJson(members[1..])
    else ToJson(members[0].value)
  }

  predicate ArgumentOverflows(d: DirectiveNode, name: string) {
    var v := GetArgument(d.arguments, name);
    v.Some? && ToJson(v.value).Overflows?
  }

  function Reason(d: DirectiveNode): Option<string> {
    TextArgument(d, "reason")
  }

  datatype DirectiveClass = Elsewhere | IsInaccessible | IsDeprecated | IsScopes | IsPolicy | IsAuthenticated | IsPlain

  const SCOPES := "scopes"
  const POLICIES := "policies"

  /** Federation directives are handled elsewhere; directives not listed are kept as they are. */
  function Classify(name: string): DirectiveClass {
    match name
    case "join__field" => Elsewhere
    case "join__type" => Elsewhere
    case "inaccessible" => IsInaccessible
    case "deprecated" => IsDeprecated
    case "requiresScopes" => IsScopes
    case "policy" => IsPolicy
    case "authenticated" => IsAuthenticated
    case "authorized" => Elsewhere
    case "join__implements" => Elsewhere
    case "join__unionMember" => Elsewhere
    case _ => IsPlain
  }

  /** The directives that become records; malformed scopes and policies are dropped. */
  predicate IsComposed(d: DirectiveNode) {
    match Classify(d.name)
    case Elsewhere => false
    case IsScopes => StringLists(GetArgument(d.arguments, SCOPES)).Some?
    case IsPolicy => StringLists(GetArgument(d.arguments, POLICIES)).Some?
    case _ => true
  }

  function AsMembers(arguments: seq<Argument>): seq<Member> {
    seq(|arguments|, i requires 0 <= i < |arguments| => Member(arguments[i].name, arguments[i].value))
  }

  ghost predicate DenotesList(strings: seq<string>, ids: seq<nat>, texts: seq<string>) {
    |ids| == |texts| && forall i | 0 <= i < |ids| :: Denotes(strings, ids[i], texts[i])
  }

  ghost predicate DenotesLists(strings: seq<string>, ids: seq<seq<nat>>, texts: seq<seq<string>>) {
    |ids| == |texts| && forall i | 0 <= i < |ids| :: DenotesList(strings, ids[i], texts[i])
  }

  ghost predicate DenotesDirective(
    strings: seq<string>, enumValues: map<(nat, string), nat>, r: DirectiveRecord, d: DirectiveNode)
  {
    match Classify(d.name)
    case Elsewhere => false
    case IsInaccessible => r == Inaccessible
    case IsDeprecated => r.Deprecated? && DenotesOption(strings, r.reason, Reason(d))
    case IsScopes =>
      var scopes := StringLists(GetArgument(d.arguments, SCOPES));
      r.RequiresScopes? && scopes.Some? && DenotesLists(strings, r.scopes, scopes.value)
    case IsPolicy =>
      var policies := StringLists(GetArgument(d.arguments, POLICIES));
      r.Policy? && policies.Some? && DenotesLists(strings, r.policies, policies.value)
    case IsAuthenticated => r == Authenticated
    case IsPlain =>
      && r.Other? && Denotes(strings, r.name, d.name)
      && DenotesValue(strings, enumValues, None, GObject(r.arguments), ObjectValue(AsMembers(d.arguments)))
  }

  /** The composed ones among the first `n` directives. */
  function ComposedTo(directives: seq<DirectiveNode>, n: nat): seq<DirectiveNode>
    requires n <= |directives|
  {
    if n == 0 then []
    else ComposedTo(directives, n - 1) + (if IsComposed(directives[n - 1]) then [directives[n - 1]] else [])
  }

  function Composed(directives: seq<DirectiveNode>): seq<DirectiveNode> {
    ComposedTo(directives, |directives|)
  }

  // ----- Records and what they stand for -----

  predicate DenotesType(names: map<string, Definition>, ty: Type, t: TypeRef) {
    && Name(t) in names && names[Name(t)] == ty.definition
    && Valid(ty.wrapping) && Decode(Name(t), ty.wrapping) == t
  }

  ghost predicate DenotesDefault(
    strings: seq<string>, enumValues: map<(nat, string), nat>, ty: Type, default: Option<GraphValue>, v: Option<Value>)
  {
    match (default, v)
    case (None, None) => true
    case (Some(x), Some(y)) => DenotesValue(strings, enumValues, AsEnum(ty.definition), x, y)
    case _ => false
  }

  /** The part of a table that a window covers is exactly the given list. */
  predicate Covers<T(==)>(table: seq<T>, w: Window, items: seq<T>) {
    w.len == |items| && w.start + w.len <= |table| && table[w.start..w.start + w.len] == items
  }

  ghost predicate InputStands(
    strings: seq<string>, names: map<string, Definition>, enumValues: map<(nat, string), nat>,
    directives: seq<DirectiveNode>, r: InputValueRecord, n: InputValueNode)
  {
    && Denotes(strings, r.name, n.name)
    && DenotesType(names, r.ty, n.ty)
    && DenotesOption(strings, r.description, n.description)
    && DenotesDefault(strings, enumValues, r.ty, r.default, n.default)
    && Covers(directives, r.directives, Composed(n.directives))
  }

  ghost predicate FieldStands(
    strings: seq<string>, names: map<string, Definition>,
    directives: seq<DirectiveNode>, inputs: seq<InputValueNode>, r: FieldRecord, origin: Origin)
  {
    match origin
    case Reserved(name, root) =>
      && Denotes(strings, r.name, name)
      && r == FieldRecord(r.name, Type(Object(root), New(false)), Window(0, 0), Window(0, 0), None)
    case Declared(_, n) =>
      && Denotes(strings, r.name, n.name)
      && DenotesType(names, r.ty, n.ty)
      && DenotesOption(strings, r.description, n.description)
      && Covers(inputs, r.arguments, n.arguments)
      && Covers(directives, r.directives, Composed(n.directives))
  }

  ghost predicate DirectiveAt(
    strings: seq<string>, enumValues: map<(nat, string), nat>, records: seq<DirectiveRecord>,
    nodes: seq<DirectiveNode>, i: nat)
  {
    i < |records| && i < |nodes| && DenotesDirective(strings, enumValues, records[i], nodes[i])
  }

  ghost predicate DirectivesStand(
    strings: seq<string>, enumValues: map<(nat, string), nat>, records: seq<DirectiveRecord>, nodes: seq<DirectiveNode>)
  {
    |records| == |nodes| && forall i | 0 <= i < |records| :: DirectiveAt(strings, enumValues, records, nodes, i)
  }

  ghost predicate InputAt(
    strings: seq<string>, names: map<string, Definition>, enumValues: map<(nat, string), nat>,
    directives: seq<DirectiveNode>, records: seq<InputValueRecord>, nodes: seq<InputValueNode>, i: nat)
  {
    i < |records| && i < |nodes| && InputStands(strings, names, enumValues, directives, records[i], nodes[i])
  }

  ghost predicate InputsStand(
    strings: seq<string>, names: map<string, Definition>, enumValues: map<(nat, string), nat>,
    directives: seq<DirectiveNode>, records: seq<InputValueRecord>, nodes: seq<InputValueNode>)
  {
    && |records| == |nodes|
    && forall i | 0 <= i < |records| :: InputAt(strings, names, enumValues, directives, records, nodes, i)
  }

  ghost predicate FieldAt(
    strings: seq<string>, names: map<string, Definition>, directives: seq<DirectiveNode>, inputs: seq<InputValueNode>,
    records: seq<FieldRecord>, origins: seq<Origin>, i: nat)
  {
    i < |records| && i < |origins| && FieldStands(strings, names, directives, inputs, records[i], origins[i])
  }

  ghost predicate FieldsStand(
    strings: seq<string>, names: map<string, Definition>, directives: seq<DirectiveNode>, inputs: seq<InputValueNode>,
    records: seq<FieldRecord>, origins: seq<Origin>)
  {
    && |records| == |origins|
    && forall i | 0 <= i < |records| :: FieldAt(strings, names, directives, inputs, records, origins, i)
  }

  /** An entry of the selection map leads to a field of that type and name. */
  predicate EntryAt(selectionMap: map<(Definition, string), nat>, fields: seq<Origin>, key: (Definition, string)) {
    && key in selectionMap && selectionMap[key] < |fields|
    && var origin := fields[selectionMap[key]];
    && origin.Declared? && origin.parent == key.0 && origin.node.name == key.1
  }

  /** A declared field has an entry, its own or that of a later field of the same type and name. */
  predicate EnteredAt(selectionMap: map<(Definition, string), nat>, fields: seq<Origin>, i: nat) {
    && i < |fields|
    && (fields[i].Declared? ==>
          && (fields[i].parent, fields[i].node.name) in selectionMap
          && i <= selectionMap[(fields[i].parent, fields[i].node.name)])
  }

  ghost predicate EntriesStand(selectionMap: map<(Definition, string), nat>, fields: seq<Origin>) {
    && (forall key | key in selectionMap :: EntryAt(selectionMap, fields, key))
    && (forall i | 0 <= i < |fields| :: EnteredAt(selectionMap, fields, i))
  }

  predicate EnumAt(strings: seq<string>, enumValues: map<(nat, string), nat>, names: seq<nat>, key: (nat, string)) {
    key in enumValues && enumValues[key] < |names| && Denotes(strings, names[enumValues[key]], key.1)
  }

  ghost predicate EnumsStand(strings: seq<string>, enumValues: map<(nat, string), nat>, names: seq<nat>) {
    forall key | key in enumValues :: EnumAt(strings, enumValues, names, key)
  }

  /** Every record stands for its entry of the source. */
  ghost predicate Stands(g: Graph, s: Source) {
    var t := g.tables;
    && DirectivesStand(g.strings, t.enumValues, g.directives, s.directives)
    && InputsStand(g.strings, t.definitionNames, t.enumValues, s.directives, t.inputValues, s.inputs)
    && FieldsStand(g.strings, t.definitionNames, s.directives, s.inputs, t.fields, s.fields)
    && EntriesStand(t.selectionMap, s.fields)
    && EnumsStand(g.strings, t.enumValues, t.enumValueNames)
  }

  predicate Injective(names: map<string, Definition>) {
    forall n, m | n in names && m in names :: names[n] == names[m] ==> n == m
  }

  /** Such tables are consistent, so selections can be resolved against them. */
  lemma {:induction false} StandsConsistent(g: Graph, s: Source)
    requires Stands(g, s) && Injective(g.tables.definitionNames)
    ensures Consistent(g.strings, g.tables)
  {
    var t := g.tables;
    forall key | key in t.selectionMap
      ensures t.selectionMap[key] < |t.fields| && Denotes(g.strings, t.fields[t.selectionMap[key]].name, key.1)
    {
      assert EntryAt(t.selectionMap, s.fields, key);
      assert FieldAt(g.strings, t.definitionNames, s.directives, s.inputs, t.fields, s.fields, t.selectionMap[key]);
    }
    forall i | 0 <= i < |t.fields|
      ensures t.fields[i].arguments.start + t.fields[i].arguments.len <= |t.inputValues|
    {
      assert FieldAt(g.strings, t.definitionNames, s.directives, s.inputs, t.fields, s.fields, i);
    }
    forall i | 0 <= i < |t.inputValues|
      ensures t.inputValues[i].name < |g.strings|
    {
      assert InputAt(g.strings, t.definitionNames, t.enumValues, s.directives, t.inputValues, s.inputs, i);
    }
    forall key | key in t.enumValues
      ensures t.enumValues[key] < |t.enumValueNames| && Denotes(g.strings, t.enumValueNames[t.enumValues[key]], key.1)
    {
      assert EnumAt(g.strings, t.enumValues, t.enumValueNames, key);
    }
  }

  // ----- Growth -----

  lemma {:induction false} DirectiveGrows(
    strings: seq<string>, more: seq<string>, enumValues: map<(nat, string), nat>, r: DirectiveRecord, d: DirectiveNode)
    requires strings <= more && DenotesDirective(strings, enumValues, r, d)
    ensures DenotesDirective(more, enumValues, r, d)
  {
    if r.Other? {
      ValueGrows(strings, more, enumValues, None, GObject(r.arguments), ObjectValue(AsMembers(d.arguments)));
    }
    if r.RequiresScopes? {
      ListsGrow(strings, more, r.scopes, StringLists(GetArgument(d.arguments, SCOPES)).value);
    }
    if r.Policy? {
      ListsGrow(strings, more, r.policies, StringLists(GetArgument(d.arguments, POLICIES)).value);
    }
  }

  lemma {:induction false} ListsGrow(
    strings: seq<string>, more: seq<string>, ids: seq<seq<nat>>, texts: seq<seq<string>>)
    requires strings <= more && DenotesLists(strings, ids, texts)
    ensures DenotesLists(more, ids, texts)
  {
    forall i | 0 <= i < |ids|
      ensures DenotesList(more, ids[i], texts[i])
    {
      assert DenotesList(strings, ids[i], texts[i]);
    }
  }

  /** New strings change nothing about the records. */
  lemma {:induction false} StringsGrow(g: Graph, s: Source, more: seq<string>)
    requires Stands(g, s) && g.strings <= more
    ensures Stands(g.(strings := more), s)
  {
    var t := g.tables;
    forall i | 0 <= i < |g.directives|
      ensures DirectiveAt(more, t.enumValues, g.directives, s.directives, i)
    {
      assert DirectiveAt(g.strings, t.enumValues, g.directives, s.directives, i);
      DirectiveGrows(g.strings, more, t.enumValues, g.directives[i], s.directives[i]);
    }
    forall i | 0 <= i < |t.inputValues|
      ensures InputAt(more, t.definitionNames, t.enumValues, s.directives, t.inputValues, s.inputs, i)
    {
      assert InputAt(g.strings, t.definitionNames, t.enumValues, s.directives, t.inputValues, s.inputs, i);
      var r, n := t.inputValues[i], s.inputs[i];
      if r.default.Some? {
        ValueGrows(g.strings, more, t.enumValues, AsEnum(r.ty.definition), r.default.value, n.default.value);
      }
    }
    forall i | 0 <= i < |t.fields|
      ensures FieldAt(more, t.definitionNames, s.directives, s.inputs, t.fields, s.fields, i)
    {
      assert FieldAt(g.strings, t.definitionNames, s.directives, s.inputs, t.fields, s.fields, i);
    }
    forall key | key in t.enumValues
      ensures EnumAt(more, t.enumValues, t.enumValueNames, key)
    {
      assert EnumAt(g.strings, t.enumValues, t.enumValueNames, key);
    }
  }

  lemma CoversTail<T>(table: seq<T>, items: seq<T>)
    ensures Covers(table + items, Window(|table|, |items|), items)
  {
  }

  lemma CoversGrows<T>(table: seq<T>, w: Window, items: seq<T>, x: T)
    requires Covers(table, w, items)
    ensures Covers(table + [x], w, items)
  {
    assert (table + [x])[w.start..w.start + w.len] == table[w.start..w.start + w.len];
  }

  lemma {:induction false} PushDirective(g: Graph, s: Source, r: DirectiveRecord, d: DirectiveNode)
    requires Stands(g, s) && DenotesDirective(g.strings, g.tables.enumValues, r, d)
    ensures Stands(g.(directives := g.directives + [r]), s.(directives := s.directives + [d]))
  {
    var t, records, longer := g.tables, g.directives + [r], s.directives + [d];
    forall i | 0 <= i < |records|
      ensures DirectiveAt(g.strings, t.enumValues, records, longer, i)
    {
      if i < |g.directives| {
        assert DirectiveAt(g.strings, t.enumValues, g.directives, s.directives, i);
      }
    }
    forall i | 0 <= i < |t.inputValues|
      ensures InputAt(g.strings, t.definitionNames, t.enumValues, longer, t.inputValues, s.inputs, i)
    {
      assert InputAt(g.strings, t.definitionNames, t.enumValues, s.directives, t.inputValues, s.inputs, i);
      CoversGrows(s.directives, t.inputValues[i].directives, Composed(s.inputs[i].directives), d);
    }
    forall i | 0 <= i < |t.fields|
      ensures FieldAt(g.strings, t.definitionNames, longer, s.inputs, t.fields, s.fields, i)
    {
      assert FieldAt(g.strings, t.definitionNames, s.directives, s.inputs, t.fields, s.fields, i);
      if s.fields[i].Declared? {
        CoversGrows(s.directives, t.fields[i].directives, Composed(s.fields[i].node.directives), d);
      }
    }
  }

  lemma {:induction false} PushInput(g: Graph, s: Source, r: InputValueRecord, n: InputValueNode)
    requires Stands(g, s)
    requires InputStands(g.strings, g.tables.definitionNames, g.tables.enumValues, s.directives, r, n)
    ensures Stands(g.(tables := g.tables.(inputValues := g.tables.inputValues + [r])), s.(inputs := s.inputs + [n]))
  {
    var t, records, longer := g.tables, g.tables.inputValues + [r], s.inputs + [n];
    forall i | 0 <= i < |records|
      ensures InputAt(g.strings, t.definitionNames, t.enumValues, s.directives, records, longer, i)
    {
      if i < |t.inputValues| {
        assert InputAt(g.strings, t.definitionNames, t.enumValues, s.directives, t.inputValues, s.inputs, i);
      }
    }
    forall i | 0 <= i < |t.fields|
      ensures FieldAt(g.strings, t.definitionNames, s.directives, longer, t.fields, s.fields, i)
    {
      assert FieldAt(g.strings, t.definitionNames, s.directives, s.inputs, t.fields, s.fields, i);
      if s.fields[i].Declared? {
        CoversGrows(s.inputs, t.fields[i].arguments, s.fields[i].node.arguments, n);
      }
    }
  }

  function WithField(t: Tables, r: FieldRecord, origin: Origin): Tables {
    var fields := t.fields + [r];
    match origin
    case Declared(parent, n) =>
      t.(fields := fields, selectionMap := t.selectionMap[(parent, n.name) := |t.fields|])
    case Reserved(_, _) => t.(fields := fields)
  }

  lemma {:induction false} EntriesGrow(t: Tables, fields: seq<Origin>, r: FieldRecord, origin: Origin)
    requires EntriesStand(t.selectionMap, fields) && |t.fields| == |fields|
    ensures EntriesStand(WithField(t, r, origin).selectionMap, fields + [origin])
  {
    var more := WithField(t, r, origin).selectionMap;
    forall key | key in more
      ensures EntryAt(more, fields + [origin], key)
    {
      if origin.Reserved? || key != (origin.parent, origin.node.name) {
        assert EntryAt(t.selectionMap, fields, key);
      }
    }
    forall i | 0 <= i < |fields + [origin]|
      ensures EnteredAt(more, fields + [origin], i)
    {
      if i < |fields| {
        assert EnteredAt(t.selectionMap, fields, i);
      }
    }
  }

  /** A new field changes nothing about the other fields and the entries that lead to them. */
  lemma {:induction false} PushField(g: Graph, s: Source, r: FieldRecord, origin: Origin)
    requires Stands(g, s)
    requires FieldStands(g.strings, g.tables.definitionNames, s.directives, s.inputs, r, origin)
    ensures Stands(g.(tables := WithField(g.tables, r, origin)), s.(fields := s.fields + [origin]))
  {
    var t, records, longer := g.tables, g.tables.fields + [r], s.fields + [origin];
    forall i | 0 <= i < |records|
      ensures FieldAt(g.strings, t.definitionNames, s.directives, s.inputs, records, longer, i)
    {
      if i < |t.fields| {
        assert FieldAt(g.strings, t.definitionNames, s.directives, s.inputs, t.fields, s.fields, i);
      }
    }
    EntriesGrow(t, s.fields, r, origin);
  }

  // ----- What ingestion accepts -----

  lemma {:induction false} StringsConvert(items: seq<Value>)
    requires forall i | 0 <= i < |items| :: AsText(Some(items[i])).Some?
    ensures AllToJson(items).Converts?
  {
    if items != [] {
      StringsConvert(items[1..]);
    }
  }

  /** Lists of lists of strings have no numbers. */
  lemma {:induction false} StringListsConvert(items: seq<Value>)
    requires forall i | 0 <= i < |items| :: IsStringList(items[i])
    ensures AllToJson(items).Converts?
  {
    if items != [] {
      StringsConvert(items[0].items);
      StringListsConvert(items[1..]);
    }
  }

  lemma StringListsFit(v: Option<Value>)
    requires StringLists(v).Some?
    ensures ToJson(v.value).Converts?
  {
    StringListsConvert(v.value.items);
  }

  predicate TypeOk(names: map<string, Definition>, t: TypeRef) {
    Lists(t) <= 21 && Name(t) in names
  }

  /** Directives without a meaning of their own have their arguments read as values. */
  predicate DirectiveOk(d: DirectiveNode) {
    match Classify(d.name)
    case IsPlain => !HasVariable(ObjectValue(AsMembers(d.arguments)))
    case IsScopes => !ArgumentOverflows(d, SCOPES)
    case IsPolicy => !ArgumentOverflows(d, POLICIES)
    case _ => true
  }

  predicate DirectivesOk(directives: seq<DirectiveNode>) {
    forall i | 0 <= i < |directives| :: DirectiveOk(directives[i])
  }

  predicate InputOk(names: map<string, Definition>, n: InputValueNode) {
    TypeOk(names, n.ty) && DirectivesOk(n.directives) && (n.default.Some? ==> !HasVariable(n.default.value))
  }

  predicate InputsOk(names: map<string, Definition>, nodes: seq<InputValueNode>) {
    forall i | 0 <= i < |nodes| :: InputOk(names, nodes[i])
  }

  predicate FieldOk(scope: Scope, n: FieldNode) {
    && TypeOk(scope.names, n.ty) && InputsOk(scope.names, n.arguments)
    && JoinFieldsOk(scope.graphs, n.directives) && DirectivesOk(n.directives)
  }

  /** The first `n` fields are accepted. */
  predicate FieldsOk(scope: Scope, nodes: seq<FieldNode>, n: nat)
    requires n <= |nodes|
  {
    n == 0 || (FieldOk(scope, nodes[n - 1]) && FieldsOk(scope, nodes, n - 1))
  }

  lemma {:induction false} FieldsOkPrefix(scope: Scope, nodes: seq<FieldNode>, i: nat, n: nat)
    requires i <= n <= |nodes| && FieldsOk(scope, nodes, n)
    ensures FieldsOk(scope, nodes, i)
  {
    if i < n {
      FieldsOkPrefix(scope, nodes, i, n - 1);
    }
  }

  /** The parser nests no non-null marker directly in another. */
  predicate InputsParsed(nodes: seq<InputValueNode>) {
    forall i | 0 <= i < |nodes| :: WellFormed(nodes[i].ty)
  }

  predicate FieldParsed(n: FieldNode) {
    WellFormed(n.ty) && InputsParsed(n.arguments)
  }

  predicate FieldsParsed(nodes: seq<FieldNode>) {
    forall i | 0 <= i < |nodes| :: FieldParsed(nodes[i])
  }
}
