/**
 Analysis of a resolver schema in two passes over the document: the definitions first, then
 the fields.  Field ids are positions that are handed out while the table is filled; the table
 is sorted by object afterwards.
 */
module TypedAnalysis {
  import opened Common
  import opened TypedTypes
  import opened KeyedTables
  import Interfaces = InterfaceGroups

  // ----- Documents -----

  datatype ConstValue = StringValue(text: string) | OtherValue

  datatype DirectiveNode = DirectiveNode(name: string, arguments: seq<(string, ConstValue)>)

  datatype ArgumentNode = ArgumentNode(name: string, ty: TypeNode)

  datatype FieldNode = FieldNode(name: string, ty: TypeNode, arguments: seq<ArgumentNode>, directives: seq<DirectiveNode>)

  datatype TypeKind =
    | ScalarKind
    | ObjectKind(implements: seq<string>, fields: seq<FieldNode>)
    | InterfaceKind(fields: seq<FieldNode>)
    | UnionKind(members: seq<string>)
    | EnumKind(values: seq<string>)
    | InputObjectKind(inputs: seq<ArgumentNode>)

  datatype DefinitionNode =
    | TypeDefinition(name: string, extend: bool, kind: TypeKind)
    | OtherDefinition

  // ----- First pass -----

  datatype ObjectRecord = ObjectRecord(name: string, isInput: bool)

  datatype TopLevel = TopLevel(
    definitions: seq<Definition>, names: map<string, Definition>,
    objects: seq<ObjectRecord>, unions: seq<string>, enums: seq<string>, scalars: seq<string>,
    enumVariants: seq<(nat, string)>, implementations: seq<Interfaces.Implementation>)

  const EMPTY := TopLevel([], map[], [], [], [], [], [], [])

  const ROOTS: seq<string> := ["Query", "Mutation", "Subscription"]

  function WithDefinition(t: TopLevel, name: string, d: Definition): TopLevel {
    t.(definitions := t.definitions + [d], names := t.names[name := d])
  }

  function WithObject(t: TopLevel, o: ObjectRecord): TopLevel {
    WithDefinition(t, o.name, Object(|t.objects|)).(objects := t.objects + [o])
  }

  function Implemented(interfaces: seq<string>, implementer: string, n: nat): seq<Interfaces.Implementation>
    requires n <= |interfaces|
  {
    if n == 0 then []
    else Implemented(interfaces, implementer, n - 1) + [Interfaces.Implementation(interfaces[n - 1], implementer)]
  }

  /** Extensions are left to the second pass, and interfaces are known by their implementers only. */
  function WithTop(t: TopLevel, d: DefinitionNode): TopLevel {
    if !d.TypeDefinition? || d.extend then t
    else match d.kind
      case ScalarKind => WithDefinition(t, d.name, CustomScalar(|t.scalars|)).(scalars := t.scalars + [d.name])
      case ObjectKind(implements, _) =>
        WithObject(t, ObjectRecord(d.name, false))
        .(implementations := t.implementations + Implemented(implements, d.name, |implements|))
      case InterfaceKind(_) => t
      case UnionKind(_) => WithDefinition(t, d.name, Union(|t.unions|)).(unions := t.unions + [d.name])
      case EnumKind(values) =>
        WithDefinition(t, d.name, Enum(|t.enums|))
        .(enums := t.enums + [d.name], enumVariants := t.enumVariants + Tagged(|t.enums|, values, |values|))
      case InputObjectKind(_) => WithObject(t, ObjectRecord(d.name, true))
  }

  function Top(document: seq<DefinitionNode>, n: nat): TopLevel
    requires n <= |document|
  {
    if n == 0 then EMPTY else WithTop(Top(document, n - 1), document[n - 1])
  }

  /** The root types are objects even if nothing declares them. */
  function WithRoots(t: TopLevel, n: nat): TopLevel
    requires n <= |ROOTS|
  {
    if n == 0 then t
    else
      var before := WithRoots(t, n - 1);
      if ROOTS[n - 1] in before.names then before else WithObject(before, ObjectRecord(ROOTS[n - 1], false))
  }

  function FirstPass(document: seq<DefinitionNode>): TopLevel {
    var t := WithRoots(Top(document, |document|), |ROOTS|);
    t.(implementations := Interfaces.Sort(t.implementations))
  }

  // ----- Second pass -----

  datatype Field = Field(name: string, ty: GraphqlType, hasArguments: bool, resolverName: Option<string>)

  datatype FieldArgument = FieldArgument(name: string, ty: GraphqlType)

  /** What a field was found as. */
  datatype Origin = WrittenField(node: FieldNode) | WrittenInput(input: ArgumentNode)

  /** A field in the order it was found, with its object and the arguments recorded for it. */
  datatype Entry = Entry(owner: nat, origin: Origin, field: Field, arguments: seq<FieldArgument>)

  /** The arguments that the document declares for a field and whose types resolve. */
  function Declared(origin: Origin, names: map<string, Definition>): seq<FieldArgument> {
    match origin
    case WrittenField(node) => Arguments(node.arguments, names, |node.arguments|)
    case WrittenInput(_) => []
  }

  function FindDirective(directives: seq<DirectiveNode>, name: string): Option<DirectiveNode> {
    if directives == [] then None
    else if directives[0].name == name then Some(directives[0])
    else FindDirective(directives[1..], name)
  }

  function FindArgument(arguments: seq<(string, ConstValue)>, name: string): Option<ConstValue> {
    if arguments == [] then None
    else if arguments[0].0 == name then Some(arguments[0].1)
    else FindArgument(arguments[1..], name)
  }

  const RESOLVER := "resolver"
  const NAME := "name"

  /** The name argument of the first resolver directive, if it is a string. */
  function ResolverName(directives: seq<DirectiveNode>): Option<string> {
    var directive := FindDirective(directives, RESOLVER);
    if directive.None? then None
    else match FindArgument(directive.value.arguments, NAME)
      case Some(StringValue(text)) => Some(text)
      case _ => None
  }

  function AnalyzeField(node: FieldNode, names: map<string, Definition>): Option<Field> {
    var ty := Resolve(node.ty, names);
    if ty.None? then None else Some(Field(node.name, ty.value, node.arguments != [], ResolverName(node.directives)))
  }

  function AnalyzeInputField(node: ArgumentNode, names: map<string, Definition>): Option<Field> {
    var ty := Resolve(node.ty, names);
    if ty.None? then None else Some(Field(node.name, ty.value, false, None))
  }

  /** The arguments whose types resolve, among the first `n`. */
  function Arguments(nodes: seq<ArgumentNode>, names: map<string, Definition>, n: nat): seq<FieldArgument>
    requires n <= |nodes|
  {
    if n == 0 then []
    else
      var ty := Resolve(nodes[n - 1].ty, names);
      var before := Arguments(nodes, names, n - 1);
      if ty.Some? then before + [FieldArgument(nodes[n - 1].name, ty.value)] else before
  }

  function ObjectEntries(id: nat, nodes: seq<FieldNode>, names: map<string, Definition>, n: nat): seq<Entry>
    requires n <= |nodes|
  {
    if n == 0 then []
    else
      var node := nodes[n - 1];
      var field := AnalyzeField(node, names);
      var before := ObjectEntries(id, nodes, names, n - 1);
      if field.Some? then before + [Entry(id, WrittenField(node), field.value, Arguments(node.arguments, names,
        |node.arguments|))]
      else before
  }

  /** The arguments of the fields of interfaces are not recorded. */
  function InterfaceEntries(id: nat, nodes: seq<FieldNode>, names: map<string, Definition>, n: nat): seq<Entry>
    requires n <= |nodes|
  {
    if n == 0 then []
    else
      var field := AnalyzeField(nodes[n - 1], names);
      var before := InterfaceEntries(id, nodes, names, n - 1);
      if field.Some? then before + [Entry(id, WrittenField(nodes[n - 1]), field.value, [])] else before
  }

  function InputEntries(id: nat, nodes: seq<ArgumentNode>, names: map<string, Definition>, n: nat): seq<Entry>
    requires n <= |nodes|
  {
    if n == 0 then []
    else
      var field := AnalyzeInputField(nodes[n - 1], names);
      var before := InputEntries(id, nodes, names, n - 1);
      if field.Some? then before + [Entry(id, WrittenInput(nodes[n - 1]), field.value, [])] else before
  }

  /** The object that the fields of a definition are entered under. */
  function Target(d: DefinitionNode, names: map<string, Definition>): Option<nat> {
    if d.TypeDefinition? && (d.kind.ObjectKind? || d.kind.InterfaceKind? || d.kind.InputObjectKind?)
       && d.name in names && names[d.name].Object?
    then Some(names[d.name].id) else None
  }

  function EntriesOf(d: DefinitionNode, names: map<string, Definition>): seq<Entry> {
    var target := Target(d, names);
    if target.None? then []
    else match d.kind
      case ObjectKind(_, nodes) => ObjectEntries(target.value, nodes, names, |nodes|)
      case InterfaceKind(nodes) => InterfaceEntries(target.value, nodes, names, |nodes|)
      case InputObjectKind(nodes) => InputEntries(target.value, nodes, names, |nodes|)
  }

  function Entries(document: seq<DefinitionNode>, names: map<string, Definition>, n: nat): seq<Entry>
    requires n <= |document|
  {
    if n == 0 then [] else Entries(document, names, n - 1) + EntriesOf(document[n - 1], names)
  }

  /** The members of a union that are objects. */
  function Variants(id: nat, members: seq<string>, names: map<string, Definition>, n: nat): seq<(nat, nat)>
    requires n <= |members|
  {
    if n == 0 then []
    else
      var name := members[n - 1];
      var before := Variants(id, members, names, n - 1);
      if name in names && names[name].Object? then before + [(id, names[name].id)] else before
  }

  function VariantsOf(d: DefinitionNode, names: map<string, Definition>): seq<(nat, nat)> {
    if d.TypeDefinition? && d.kind.UnionKind? && d.name in names && names[d.name].Union? then
      Variants(names[d.name].id, d.kind.members, names, |d.kind.members|)
    else []
  }

  function AllVariants(document: seq<DefinitionNode>, names: map<string, Definition>, n: nat): seq<(nat, nat)>
    requires n <= |document|
  {
    if n == 0 then [] else AllVariants(document, names, n - 1) + VariantsOf(document[n - 1], names)
  }

  /** The field table in the order the fields were found. */
  function FieldsOf(entries: seq<Entry>, n: nat): seq<(nat, Field)>
    requires n <= |entries|
  {
    if n == 0 then [] else FieldsOf(entries, n - 1) + [(entries[n - 1].owner, entries[n - 1].field)]
  }

  /** The argument table: every argument is tagged with the position of its field. */
  function ArgumentsOf(entries: seq<Entry>, n: nat): seq<(nat, FieldArgument)>
    requires n <= |entries|
  {
    if n == 0 then []
    else
      var own := entries[n - 1].arguments;
      ArgumentsOf(entries, n - 1) + Tagged(n - 1, own, |own|)
  }
}
