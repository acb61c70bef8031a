/**
 Federated graphs: the schema document on one side, flat tables of records that refer to each
 other by index on the other, and the relations that say which record stands for which part
 of the document.  All relations survive the growth of the tables.
 */
module FederatedModel {
  import opened Common
  import opened Wrapping
  import opened TypeRefs

  // ----- The document -----

  datatype Value =
    | Null
    | Int(n: int)
    | Float(text: string, finite: bool)       // whether it is finite as a 64-bit number
    | Str(text: string)
    | BlockStr(text: string)
    | Boolean(flag: bool)
    | Enum(name: string)
    | ListValue(items: seq<Value>)
    | ObjectValue(members: seq<Member>)
    | Variable(name: string)

  datatype Member = Member(key: string, value: Value)

  datatype Argument = Argument(name: string, value: Value)

  datatype DirectiveNode = DirectiveNode(name: string, arguments: seq<Argument>)

  datatype InputValueNode = InputValueNode(
    name: string, ty: TypeRef, default: Option<Value>, directives: seq<DirectiveNode>, description: Option<string>)

  datatype FieldNode = FieldNode(
    name: string, ty: TypeRef, arguments: seq<InputValueNode>, directives: seq<DirectiveNode>,
    description: Option<string>)

  /** A selection in a federation directive. */
  datatype SelectionNode =
    | FieldSelection(name: string, arguments: seq<Argument>, items: seq<SelectionNode>)
    | InlineFragment(on: Option<string>, items: seq<SelectionNode>)
    | FragmentSpread(name: string)

  predicate HasVariable(v: Value) {
    match v
    case Variable(_) => true
    case ListValue(items) => exists i :: 0 <= i < |items| && HasVariable(items[i])
    case ObjectValue(members) => exists i :: 0 <= i < |members| && HasVariable(members[i].value)
    case _ => false
  }

  predicate HasBlockString(v: Value) {
    match v
    case BlockStr(_) => true
    case ListValue(items) => exists i :: 0 <= i < |items| && HasBlockString(items[i])
    case ObjectValue(members) => exists i :: 0 <= i < |members| && HasBlockString(members[i].value)
    case _ => false
  }

  /** In the selections of federation directives, which are parsed as operations, strings have one form. */
  predicate Executable(s: SelectionNode) {
    match s
    case FieldSelection(_, arguments, items) =>
      && (forall i | 0 <= i < |arguments| :: !HasBlockString(arguments[i].value))
      && (forall i | 0 <= i < |items| :: Executable(items[i]))
    case InlineFragment(_, items) => forall i | 0 <= i < |items| :: Executable(items[i])
    case FragmentSpread(_) => true
  }

  // ----- The graph -----

  datatype Definition =
    | Scalar(typeDefinition: nat)
    | Object(id: nat)
    | Interface(id: nat)
    | Union(id: nat)
    | EnumType(typeDefinition: nat)
    | InputObject(id: nat)

  function AsEnum(d: Definition): Option<nat> {
    if d.EnumType? then Some(d.typeDefinition) else None
  }

  datatype GraphValue =
    | GNull
    | GInt(n: int)
    | GFloat(text: string, finite: bool)
    | GString(id: nat)
    | GBoolean(flag: bool)
    | GEnumValue(value: nat)
    | GUnboundEnumValue(id: nat)
    | GList(items: seq<GraphValue>)
    | GObject(members: seq<GraphMember>)

  datatype GraphMember = GraphMember(key: nat, value: GraphValue)

  datatype Window = Window(start: nat, len: nat)

  datatype Type = Type(definition: Definition, wrapping: bv32)

  datatype DirectiveRecord =
    | Inaccessible
    | Deprecated(reason: Option<nat>)
    | RequiresScopes(scopes: seq<seq<nat>>)
    | Policy(policies: seq<seq<nat>>)
    | Authenticated
    | Other(name: nat, arguments: seq<GraphMember>)

  datatype InputValueRecord = InputValueRecord(
    name: nat, ty: Type, directives: Window, description: Option<nat>, default: Option<GraphValue>)

  datatype FieldRecord = FieldRecord(
    name: nat, ty: Type, arguments: Window, directives: Window, description: Option<nat>)

  datatype GraphSelection =
    | GField(field: nat, arguments: seq<GraphArgument>, items: seq<GraphSelection>)
    | GInlineFragment(on: Definition, items: seq<GraphSelection>)

  datatype GraphArgument = GraphArgument(argument: nat, value: GraphValue)

  /** A selection that holds in one subgraph. */
  datatype GraphFields = GraphFields(graph: nat, items: seq<GraphSelection>)

  /** Where a field is resolved, what it provides and what it requires. */
  datatype FieldExtra = FieldExtra(resolvableIn: seq<nat>, provided: seq<GraphFields>, required: seq<GraphFields>)

  datatype Key = Key(graph: nat, items: seq<GraphSelection>, isInterfaceObject: bool, resolvable: bool)

  /** A selection of arguments or of fields of an input object. */
  datatype InputItem = InputItem(input: nat, items: seq<InputItem>)

  datatype Authorized = Authorized(
    items: Option<seq<GraphSelection>>, node: Option<seq<GraphSelection>>,
    arguments: Option<seq<InputItem>>, metadata: Option<GraphValue>)

  /** What is read from directives after the tables are complete. */
  datatype Closing = Closing(
    extras: seq<FieldExtra>,                  // by field
    keys: map<Definition, seq<Key>>,
    authorized: seq<Authorized>,
    byField: seq<(nat, nat)>,                 // fields, objects and interfaces with their authorization
    byObject: seq<(nat, nat)>,
    byInterface: seq<(nat, nat)>)

  const NOTHING_CLOSED := Closing([], map[], [], [], [], [])

  /** The tables that are complete once all fields have been ingested. */
  datatype Tables = Tables(
    fields: seq<FieldRecord>,
    inputValues: seq<InputValueRecord>,
    definitionNames: map<string, Definition>,
    selectionMap: map<(Definition, string), nat>,
    enumValues: map<(nat, string), nat>,      // by enum type and name
    enumValueNames: seq<nat>)                 // string ids

  datatype DomainError =
    | UnknownType(name: string)
    | FieldDoesNotExist(parent: Definition, name: string)
    | UnsupportedFragmentSpread
    | UnknownTypeCondition(name: string)
    | MissingTypeCondition
    | UnsupportedSchemaDirective(name: string)
    | BrokenInvariant
    | MissingRoot(name: string)
    | MalformedGraph(value: string)
    | MalformedJoin(directive: string)
    | NotAnInterface(name: string)
    | NotAnObject(name: string)
    | UnparsableSelection(text: string)
    | UnknownInput(name: string)
    | NeedsSelection
    | TakesNoSelection

  datatype Result<T> = Ok(value: T) | Err(error: DomainError) | Panic

  // ----- Interned strings -----

  predicate Distinct(strings: seq<string>, i: nat, j: nat) {
    i < |strings| && j < |strings| && strings[i] != strings[j]
  }

  /** No string is interned twice. */
  predicate Interned(strings: seq<string>) {
    forall i, j | 0 <= i < j < |strings| :: Distinct(strings, i, j)
  }

  predicate Denotes(strings: seq<string>, id: nat, s: string) {
    id < |strings| && strings[id] == s
  }

  predicate DenotesOption(strings: seq<string>, id: Option<nat>, s: Option<string>) {
    match (id, s)
    case (None, None) => true
    case (Some(i), Some(text)) => Denotes(strings, i, text)
    case _ => false
  }

  /** A string has one id, so comparing ids is comparing strings. */
  lemma DenotesUnique(strings: seq<string>, i: nat, j: nat, s: string)
    requires Interned(strings) && Denotes(strings, i, s) && Denotes(strings, j, s)
    ensures i == j
  {
    assert i < j ==> Distinct(strings, i, j);
    assert j < i ==> Distinct(strings, j, i);
  }

  // ----- Values -----

  ghost predicate DenotesValue(
    strings: seq<string>, enumValues: map<(nat, string), nat>, expected: Option<nat>, g: GraphValue, v: Value)
    decreases v
  {
    match v
    case Null => g == GNull
    case Int(n) => g == GInt(n)
    case Float(text, finite) => g == GFloat(text, finite)
    case Str(text) => g.GString? && Denotes(strings, g.id, text)
    case BlockStr(text) => g.GString? && Denotes(strings, g.id, text)
    case Boolean(flag) => g == GBoolean(flag)
    case Enum(name) =>
      if expected.Some? && (expected.value, name) in enumValues then g == GEnumValue(enumValues[(expected.value, name)])
      else g.GUnboundEnumValue? && Denotes(strings, g.id, name)
    case ListValue(items) =>
      && g.GList? && |g.items| == |items|
      && forall i | 0 <= i < |items| :: DenotesValue(strings, enumValues, expected, g.items[i], items[i])
    case ObjectValue(members) =>
      && g.GObject? && |g.members| == |members|
      && forall i | 0 <= i < |members| ::
           && Denotes(strings, g.members[i].key, members[i].key)
           && DenotesValue(strings, enumValues, expected, g.members[i].value, members[i].value)
    case Variable(_) => false
  }

  lemma {:induction false} ValueGrows(
    strings: seq<string>, more: seq<string>, enumValues: map<(nat, string), nat>, expected: Option<nat>,
    g: GraphValue, v: Value)
    requires strings <= more && DenotesValue(strings, enumValues, expected, g, v)
    ensures DenotesValue(more, enumValues, expected, g, v)
    decreases v
  {
    match v
    case ListValue(items) =>
      forall i | 0 <= i < |items|
        ensures DenotesValue(more, enumValues, expected, g.items[i], items[i])
      {
        ValueGrows(strings, more, enumValues, expected, g.items[i], items[i]);
      }
    case ObjectValue(members) =>
      forall i | 0 <= i < |members|
        ensures DenotesValue(more, enumValues, expected, g.members[i].value, members[i].value)
      {
        ValueGrows(strings, more, enumValues, expected, g.members[i].value, members[i].value);
      }
    case _ =>
  }

  // ----- Selections -----

  /** The position of the first argument of a field with the given name. */
  function FindArgument(strings: seq<string>, inputs: seq<InputValueRecord>, w: Window, name: string): Option<nat>
    decreases w.len
  {
    if w.len == 0 || w.start >= |inputs| then None
    else if Denotes(strings, inputs[w.start].name, name) then Some(w.start)
    else FindArgument(strings, inputs, Window(w.start + 1, w.len - 1), name)
  }

  ghost predicate DenotesArgument(strings: seq<string>, t: Tables, field: nat, g: GraphArgument, a: Argument) {
    && field < |t.fields|
    && FindArgument(strings, t.inputValues, t.fields[field].arguments, a.name) == Some(g.argument)
    && g.argument < |t.inputValues|
    && DenotesValue(strings, t.enumValues, AsEnum(t.inputValues[g.argument].ty.definition), g.value, a.value)
  }

  /** A resolved selection stands for the source selection on a type: erasing the ids of fields,
      arguments, types and strings gives the source back. */
  ghost predicate DenotesSelection(
    strings: seq<string>, t: Tables, target: Definition, g: GraphSelection, s: SelectionNode)
    decreases s
  {
    match s
    case FieldSelection(name, arguments, items) =>
      && g.GField?
      && (target, name) in t.selectionMap && t.selectionMap[(target, name)] == g.field
      && g.field < |t.fields| && Denotes(strings, t.fields[g.field].name, name)
      && |g.arguments| == |arguments|
      && (forall i | 0 <= i < |arguments| :: DenotesArgument(strings, t, g.field, g.arguments[i], arguments[i]))
      && |g.items| == |items|
      && (forall i | 0 <= i < |items| ::
        DenotesSelection(strings, t, t.fields[g.field].ty.definition, g.items[i], items[i]))
    case InlineFragment(on, items) =>
      && g.GInlineFragment? && on.Some?
      && on.value in t.definitionNames && t.definitionNames[on.value] == g.on
      && |g.items| == |items|
      && (forall i | 0 <= i < |items| :: DenotesSelection(strings, t, g.on, g.items[i], items[i]))
    case FragmentSpread(_) => false
  }

  /** The tables are consistent: every entry of the selection map is a field of that name, and
      the names and arguments of all fields are in range. */
  ghost predicate Consistent(strings: seq<string>, t: Tables) {
    && (forall key | key in t.selectionMap ::
          && t.selectionMap[key] < |t.fields|
          && Denotes(strings, t.fields[t.selectionMap[key]].name, key.1))
    && (forall i | 0 <= i < |t.fields| ::
          t.fields[i].arguments.start + t.fields[i].arguments.len <= |t.inputValues|)
    && (forall i | 0 <= i < |t.inputValues| :: t.inputValues[i].name < |strings|)
    && (forall key | key in t.enumValues ::
          t.enumValues[key] < |t.enumValueNames| && Denotes(strings, t.enumValueNames[t.enumValues[key]], key.1))
    && (forall n, m | n in t.definitionNames && m in t.definitionNames ::
      t.definitionNames[n] == t.definitionNames[m] ==> n == m)
  }

  lemma ConsistentGrows(strings: seq<string>, more: seq<string>, t: Tables)
    requires Consistent(strings, t) && strings <= more
    ensures Consistent(more, t)
  {
  }

  lemma {:induction false} FindArgumentGrows(
    strings: seq<string>, more: seq<string>, inputs: seq<InputValueRecord>, w: Window, name: string)
    requires strings <= more && w.start + w.len <= |inputs|
    requires forall i | 0 <= i < |inputs| :: inputs[i].name < |strings|
    ensures FindArgument(more, inputs, w, name) == FindArgument(strings, inputs, w, name)
    decreases w.len
  {
    if w.len > 0 {
      FindArgumentGrows(strings, more, inputs, Window(w.start + 1, w.len - 1), name);
    }
  }

  lemma {:induction false} ArgumentGrows(
    strings: seq<string>, more: seq<string>, t: Tables, field: nat, g: GraphArgument, a: Argument)
    requires strings <= more && Consistent(strings, t) && DenotesArgument(strings, t, field, g, a)
    ensures DenotesArgument(more, t, field, g, a)
  {
    FindArgumentGrows(strings, more, t.inputValues, t.fields[field].arguments, a.name);
    ValueGrows(strings, more, t.enumValues, AsEnum(t.inputValues[g.argument].ty.definition), g.value, a.value);
  }

  lemma {:induction false} SelectionGrows(
    strings: seq<string>, more: seq<string>, t: Tables, target: Definition, g: GraphSelection, s: SelectionNode)
    requires strings <= more && Consistent(strings, t) && DenotesSelection(strings, t, target, g, s)
    ensures DenotesSelection(more, t, target, g, s)
    decreases s
  {
    match s
    case FieldSelection(name, arguments, items) =>
      forall i | 0 <= i < |arguments|
        ensures DenotesArgument(more, t, g.field, g.arguments[i], arguments[i])
      {
        ArgumentGrows(strings, more, t, g.field, g.arguments[i], arguments[i]);
      }
      forall i | 0 <= i < |items|
        ensures DenotesSelection(more, t, t.fields[g.field].ty.definition, g.items[i], items[i])
      {
        SelectionGrows(strings, more, t, t.fields[g.field].ty.definition, g.items[i], items[i]);
      }
    case InlineFragment(on, items) =>
      forall i | 0 <= i < |items|
        ensures DenotesSelection(more, t, g.on, g.items[i], items[i])
      {
        SelectionGrows(strings, more, t, g.on, g.items[i], items[i]);
      }
    case FragmentSpread(_) =>
  }

  // ----- Erasing ids -----

  function Text(strings: seq<string>, id: nat): string {
    if id < |strings| then strings[id] else ""
  }

  function EraseValue(strings: seq<string>, enumValueNames: seq<nat>, g: GraphValue): Value {
    match g
    case GNull => Null
    case GInt(n) => Int(n)
    case GFloat(text, finite) => Float(text, finite)
    case GString(id) => Str(Text(strings, id))
    case GBoolean(flag) => Boolean(flag)
    case GEnumValue(value) => Enum(if value < |enumValueNames| then Text(strings, enumValueNames[value]) else "")
    case GUnboundEnumValue(id) => Enum(Text(strings, id))
    case GList(items) =>
      ListValue(seq(|items|, i requires 0 <= i < |items| => EraseValue(strings, enumValueNames, items[i])))
    case GObject(members) =>
      ObjectValue(seq(|members|, i requires 0 <= i < |members| =>
        Member(Text(strings, members[i].key), EraseValue(strings, enumValueNames, members[i].value))))
  }

  /** The name under which a definition is known. */
  ghost function NameOf(names: map<string, Definition>, d: Definition): Option<string> {
    if n :| n in names && names[n] == d then Some(n) else None
  }

  /** The selection read back from its ids. */
  ghost function Erase(strings: seq<string>, t: Tables, g: GraphSelection): SelectionNode {
    match g
    case GField(field, arguments, items) =>
      FieldSelection(
        if field < |t.fields| then Text(strings, t.fields[field].name) else "",
        seq(|arguments|, i requires 0 <= i < |arguments| => EraseArgument(strings, t, arguments[i])),
        seq(|items|, i requires 0 <= i < |items| => Erase(strings, t, items[i])))
    case GInlineFragment(on, items) =>
      InlineFragment(NameOf(t.definitionNames, on), seq(|items|, i requires 0 <= i < |items| => Erase(strings, t,
        items[i])))
  }

  ghost function EraseArgument(strings: seq<string>, t: Tables, g: GraphArgument): Argument {
    Argument(if g.argument < |t.inputValues| then Text(strings, t.inputValues[g.argument].name) else "",
             EraseValue(strings, t.enumValueNames, g.value))
  }

  lemma {:induction false} EraseDenotedValue(
    strings: seq<string>, t: Tables, expected: Option<nat>, g: GraphValue, v: Value)
    requires Consistent(strings, t) && DenotesValue(strings, t.enumValues, expected, g, v) && !HasBlockString(v)
    ensures EraseValue(strings, t.enumValueNames, g) == v
    decreases v
  {
    match v
    case ListValue(items) =>
      forall i | 0 <= i < |items|
        ensures EraseValue(strings, t.enumValueNames, g.items[i]) == items[i]
      {
        EraseDenotedValue(strings, t, expected, g.items[i], items[i]);
      }
    case ObjectValue(members) =>
      forall i | 0 <= i < |members|
        ensures Member(Text(strings, g.members[i].key), EraseValue(strings, t.enumValueNames,
                                                                   g.members[i].value)) == members[i]
      {
        EraseDenotedValue(strings, t, expected, g.members[i].value, members[i].value);
      }
    case _ =>
  }

  lemma {:induction false} FoundArgument(strings: seq<string>, inputs: seq<InputValueRecord>, w: Window, name: string)
    requires FindArgument(strings, inputs, w, name).Some?
    ensures var i := FindArgument(strings, inputs, w, name).value;
            w.start <= i < w.start + w.len && i < |inputs| && Denotes(strings, inputs[i].name, name)
    decreases w.len
  {
    if !Denotes(strings, inputs[w.start].name, name) {
      FoundArgument(strings, inputs, Window(w.start + 1, w.len - 1), name);
    }
  }

  /** Erasing the ids of a resolved selection gives back the source selection. */
  lemma {:induction false} EraseDenoted(
    strings: seq<string>, t: Tables, target: Definition, g: GraphSelection, s: SelectionNode)
    requires Consistent(strings, t) && DenotesSelection(strings, t, target, g, s) && Executable(s)
    ensures Erase(strings, t, g) == s
    decreases s
  {
    match s
    case FieldSelection(name, arguments, items) =>
      forall i | 0 <= i < |arguments|
        ensures EraseArgument(strings, t, g.arguments[i]) == arguments[i]
      {
        var a := g.arguments[i];
        assert DenotesArgument(strings, t, g.field, a, arguments[i]);
        FoundArgument(strings, t.inputValues, t.fields[g.field].arguments, arguments[i].name);
        EraseDenotedValue(strings, t, AsEnum(t.inputValues[a.argument].ty.definition), a.value, arguments[i].value);
      }
      forall i | 0 <= i < |items|
        ensures Erase(strings, t, g.items[i]) == items[i]
      {
        EraseDenoted(strings, t, t.fields[g.field].ty.definition, g.items[i], items[i]);
      }
    case InlineFragment(on, items) =>
      forall i | 0 <= i < |items|
        ensures Erase(strings, t, g.items[i]) == items[i]
      {
        EraseDenoted(strings, t, g.on, g.items[i], items[i]);
      }
    case FragmentSpread(_) =>
  }

  // ----- When resolving succeeds -----

  datatype Fate = Resolves | Fails(error: DomainError) | Panics

  /** An argument is accepted if the field declares it and its value holds no variable. */
  predicate KnownArgument(strings: seq<string>, t: Tables, field: nat, a: Argument) {
    && field < |t.fields|
    && FindArgument(strings, t.inputValues, t.fields[field].arguments, a.name).Some?
    && !HasVariable(a.value)
  }

  predicate KnownArguments(strings: seq<string>, t: Tables, field: nat, arguments: seq<Argument>) {
    forall i | 0 <= i < |arguments| :: KnownArgument(strings, t, field, arguments[i])
  }

  /** What becomes of a selection on a type, looked at from left to right. */
  function FateOf(strings: seq<string>, t: Tables, target: Definition, s: SelectionNode): Fate
    decreases s, 1
  {
    match s
    case FieldSelection(name, arguments, items) =>
      if (target, name) !in t.selectionMap then Fails(FieldDoesNotExist(target, name))
      else
        var field := t.selectionMap[(target, name)];
        if !KnownArguments(strings, t, field, arguments) then Panics
        else if field < |t.fields| then FateOfAll(strings, t, t.fields[field].ty.definition, items)
        else Panics
    case InlineFragment(on, items) =>
      (match on
       case None => Fails(MissingTypeCondition)
       case Some(name) =>
         if name !in t.definitionNames then Fails(UnknownTypeCondition(name))
         else FateOfAll(strings, t, t.definitionNames[name], items))
    case FragmentSpread(_) => Fails(UnsupportedFragmentSpread)
  }

  function FateOfAll(strings: seq<string>, t: Tables, target: Definition, items: seq<SelectionNode>): Fate
    decreases items, 0
  {
    if items == [] then Resolves
    else
      var first := FateOf(strings, t, target, items[0]);
      if first.Resolves? then FateOfAll(strings, t, target, items[1..]) else first
  }

  /** Every field exists on the type reached and takes the given arguments, every inline
      fragment names a known type, and there are no spreads. */
  predicate Resolvable(strings: seq<string>, t: Tables, target: Definition, s: SelectionNode)
    decreases s
  {
    match s
    case FieldSelection(name, arguments, items) =>
      && (target, name) in t.selectionMap
      && var field := t.selectionMap[(target, name)];
         && KnownArguments(strings, t, field, arguments)
         && field < |t.fields|
         && forall i | 0 <= i < |items| :: Resolvable(strings, t, t.fields[field].ty.definition, items[i])
    case InlineFragment(on, items) =>
      && on.Some? && on.value in t.definitionNames
      && forall i | 0 <= i < |items| :: Resolvable(strings, t, t.definitionNames[on.value], items[i])
    case FragmentSpread(_) => false
  }

  lemma {:induction false} FateResolves(strings: seq<string>, t: Tables, target: Definition, s: SelectionNode)
    ensures FateOf(strings, t, target, s).Resolves? <==> Resolvable(strings, t, target, s)
    decreases s, 1
  {
    match s
    case FieldSelection(name, arguments, items) =>
      if (target, name) in t.selectionMap && t.selectionMap[(target, name)] < |t.fields| {
        FateAllResolves(strings, t, t.fields[t.selectionMap[(target, name)]].ty.definition, items);
      }
    case InlineFragment(on, items) =>
      if on.Some? && on.value in t.definitionNames {
        FateAllResolves(strings, t, t.definitionNames[on.value], items);
      }
    case FragmentSpread(_) =>
  }

  lemma {:induction false} FateAllResolves(
    strings: seq<string>, t: Tables, target: Definition, items: seq<SelectionNode>)
    ensures FateOfAll(strings, t, target, items).Resolves? <==>
            forall i | 0 <= i < |items| :: Resolvable(strings, t, target, items[i])
    decreases items, 0
  {
    if items != [] {
      var rest := items[1..];
      FateResolves(strings, t, target, items[0]);
      FateAllResolves(strings, t, target, rest);
      if FateOfAll(strings, t, target, items).Resolves? {
        forall i | 0 <= i < |items|
          ensures Resolvable(strings, t, target, items[i])
        {
          if i > 0 {
            assert items[i] == rest[i - 1];
          }
        }
      }
      assert forall i | 0 <= i < |rest| :: rest[i] == items[i + 1];
    }
  }

  /** Wherever a field is found its arguments are known. */
  predicate ArgumentsKnown(strings: seq<string>, t: Tables, target: Definition, s: SelectionNode)
    decreases s
  {
    match s
    case FieldSelection(name, arguments, items) =>
      (target, name) in t.selectionMap ==>
        var field := t.selectionMap[(target, name)];
        && KnownArguments(strings, t, field, arguments)
        && (field < |t.fields| ==>
              forall i | 0 <= i < |items| :: ArgumentsKnown(strings, t, t.fields[field].ty.definition, items[i]))
    case InlineFragment(on, items) =>
      on.Some? && on.value in t.definitionNames ==>
        forall i | 0 <= i < |items| :: ArgumentsKnown(strings, t, t.definitionNames[on.value], items[i])
    case FragmentSpread(_) => true
  }

  /** With known arguments resolving never panics. */
  lemma {:induction false} KnownArgumentsNeverPanic(
    strings: seq<string>, t: Tables, target: Definition, s: SelectionNode)
    requires Consistent(strings, t) && ArgumentsKnown(strings, t, target, s)
    ensures !FateOf(strings, t, target, s).Panics?
    decreases s, 1
  {
    match s
    case FieldSelection(name, arguments, items) =>
      if (target, name) in t.selectionMap {
        KnownArgumentsNeverPanicAll(strings, t, t.fields[t.selectionMap[(target, name)]].ty.definition, items);
      }
    case InlineFragment(on, items) =>
      if on.Some? && on.value in t.definitionNames {
        KnownArgumentsNeverPanicAll(strings, t, t.definitionNames[on.value], items);
      }
    case FragmentSpread(_) =>
  }

  lemma {:induction false} KnownArgumentsNeverPanicAll(
    strings: seq<string>, t: Tables, target: Definition, items: seq<SelectionNode>)
    requires Consistent(strings, t) && forall i | 0 <= i < |items| :: ArgumentsKnown(strings, t, target, items[i])
    ensures !FateOfAll(strings, t, target, items).Panics?
    decreases items, 0
  {
    if items != [] {
      KnownArgumentsNeverPanic(strings, t, target, items[0]);
      KnownArgumentsNeverPanicAll(strings, t, target, items[1..]);
    }
  }

  // ----- Interning does not change what becomes of a selection -----

  lemma {:induction false} FateGrows(
    strings: seq<string>, more: seq<string>, t: Tables, target: Definition, s: SelectionNode)
    requires strings <= more && Consistent(strings, t)
    ensures FateOf(more, t, target, s) == FateOf(strings, t, target, s)
    decreases s, 1
  {
    match s
    case FieldSelection(name, arguments, items) =>
      if (target, name) in t.selectionMap {
        var field := t.selectionMap[(target, name)];
        forall i | 0 <= i < |arguments|
          ensures KnownArgument(more, t, field, arguments[i]) == KnownArgument(strings, t, field, arguments[i])
        {
          FindArgumentGrows(strings, more, t.inputValues, t.fields[field].arguments, arguments[i].name);
        }
        FateAllGrows(strings, more, t, t.fields[field].ty.definition, items);
      }
    case InlineFragment(on, items) =>
      if on.Some? && on.value in t.definitionNames {
        FateAllGrows(strings, more, t, t.definitionNames[on.value], items);
      }
    case FragmentSpread(_) =>
  }

  lemma {:induction false} FateAllGrows(
    strings: seq<string>, more: seq<string>, t: Tables, target: Definition, items: seq<SelectionNode>)
    requires strings <= more && Consistent(strings, t)
    ensures FateOfAll(more, t, target, items) == FateOfAll(strings, t, target, items)
    decreases items, 0
  {
    if items != [] {
      FateGrows(strings, more, t, target, items[0]);
      FateAllGrows(strings, more, t, target, items[1..]);
    }
  }
}
