/**
 The ingestion state of a federated graph: tables filled by loops over the document, then
 read while the selections of federation directives are resolved.
 */
module FederatedState {
  import opened Common
  import opened Wrapping
  import opened TypeRefs
  import opened FederatedModel
  import opened FederatedJoin
  import opened FederatedRecords

  ghost predicate MemberAt(
    strings: seq<string>, enumValues: map<(nat, string), nat>, expected: Option<nat>,
    out: seq<GraphMember>, members: seq<Member>, j: nat)
  {
    && j < |out| && j < |members| && Denotes(strings, out[j].key, members[j].key)
    && DenotesValue(strings, enumValues, expected, out[j].value, members[j].value)
  }

  lemma MembersGrow(
    strings: seq<string>, more: seq<string>, enumValues: map<(nat, string), nat>, expected: Option<nat>,
    out: seq<GraphMember>, members: seq<Member>)
    requires strings <= more
    requires forall j | 0 <= j < |out| :: MemberAt(strings, enumValues, expected, out, members, j)
    ensures forall j | 0 <= j < |out| :: MemberAt(more, enumValues, expected, out, members, j)
  {
    forall j | 0 <= j < |out|
      ensures MemberAt(more, enumValues, expected, out, members, j)
    {
      assert MemberAt(strings, enumValues, expected, out, members, j);
      ValueGrows(strings, more, enumValues, expected, out[j].value, members[j].value);
    }
  }

  lemma AddMember(
    strings: seq<string>, enumValues: map<(nat, string), nat>, expected: Option<nat>,
    out: seq<GraphMember>, members: seq<Member>, m: GraphMember)
    requires forall j | 0 <= j < |out| :: MemberAt(strings, enumValues, expected, out, members, j)
    requires |out| < |members| && Denotes(strings, m.key, members[|out|].key)
    requires DenotesValue(strings, enumValues, expected, m.value, members[|out|].value)
    ensures forall j | 0 <= j <= |out| :: MemberAt(strings, enumValues, expected, out + [m], members, j)
  {
    forall j | 0 <= j <= |out|
      ensures MemberAt(strings, enumValues, expected, out + [m], members, j)
    {
      assert j < |out| ==> MemberAt(strings, enumValues, expected, out, members, j);
    }
  }

  lemma MembersDenote(
    strings: seq<string>, enumValues: map<(nat, string), nat>, expected: Option<nat>,
    out: seq<GraphMember>, members: seq<Member>)
    requires |out| == |members|
    requires forall j | 0 <= j < |out| :: MemberAt(strings, enumValues, expected, out, members, j)
    ensures DenotesValue(strings, enumValues, expected, GObject(out), ObjectValue(members))
  {
    forall j | 0 <= j < |members|
      ensures Denotes(strings, out[j].key, members[j].key)
      ensures DenotesValue(strings, enumValues, expected, out[j].value, members[j].value)
    {
      assert MemberAt(strings, enumValues, expected, out, members, j);
    }
  }

  class State {
    var strings: seq<string>
    var directives: seq<DirectiveRecord>
    var tables: Tables
    ghost var source: Source

    var typeDefinitions: seq<nat>            // string ids of the names
    var objects: seq<OwnerRecord>
    var interfaces: seq<OwnerRecord>
    var unions: seq<nat>                     // string ids of the names
    var inputObjects: seq<Window>
    var inputValuesMap: map<(nat, string), nat>   // by input object and name
    var queryTypeName: Option<string>

    var subgraphs: seq<(nat, nat)>           // string ids of the names and addresses
    var graphNames: map<string, nat>         // by enum value
    var links: Links
    var closing: Closing

    function Snapshot(): Graph
      reads this`strings, this`directives, this`tables
    {
      Graph(strings, directives, tables)
    }

    /** Strings are interned and every record stands for its part of the document. */
    ghost predicate Recorded()
      reads this`strings, this`directives, this`tables, this`source
    {
      Interned(strings) && Stands(Snapshot(), source)
    }

    /** While fields are read, nothing that needs complete tables has been added to them. */
    ghost predicate Standing()
      reads this`strings, this`directives, this`tables, this`source, this`graphNames, this`closing
    {
      Recorded() && ExtrasBegin(graphNames, source.fields, closing.extras)
    }

    /** The types and subgraphs that can be referred to. */
    function Known(): Scope
      reads this`tables, this`graphNames
    {
      Scope(tables.definitionNames, graphNames)
    }

    constructor ()
      ensures Standing() && source == Source([], [], [])
      ensures Snapshot() == Graph([], [], Tables([], [], map[], map[], map[], []))
      ensures typeDefinitions == [] && objects == [] && interfaces == [] && unions == [] && inputObjects == []
      ensures queryTypeName == None
      ensures inputValuesMap == map[] && subgraphs == [] && graphNames == map[]
      ensures links == NO_LINKS && closing == NOTHING_CLOSED
    {
      typeDefinitions, objects, interfaces, unions, inputObjects, queryTypeName := [], [], [], [], [], None;
      inputValuesMap, subgraphs, graphNames, links, closing := map[], [], map[], NO_LINKS, NOTHING_CLOSED;
      source := Source([], [], []);
      strings, directives, tables := [], [], Tables([], [], map[], map[], map[], []);
    }

    /** Interning: the id of a string, which is appended only if it is new. */
    method InsertString(s: string) returns (id: nat)
      requires Interned(strings)
      modifies this`strings
      ensures Interned(strings) && old(strings) <= strings && Denotes(strings, id, s)
      ensures strings == if s in old(strings) then old(strings) else old(strings) + [s]
    {
      for i := 0 to |strings|
        invariant strings == old(strings)
        invariant forall j | 0 <= j < i :: strings[j] != s
      {
        if strings[i] == s {
          return i;
        }
      }
      id := |strings|;
      strings := strings + [s];
      forall i, j | 0 <= i < j < |strings|
        ensures Distinct(strings, i, j)
      {
        if j < id {
          assert Distinct(old(strings), i, j);
        }
      }
    }

    method InsertValue(v: Value, expected: Option<nat>) returns (r: Result<GraphValue>)
      requires Interned(strings)
      modifies this`strings
      ensures Interned(strings) && old(strings) <= strings
      ensures r.Panic? <==> HasVariable(v)
      ensures !r.Panic? ==> r.Ok? && DenotesValue(strings, tables.enumValues, expected, r.value, v)
      decreases v, 1
    {
      match v
      case Null => r := Ok(GNull);
      case Int(n) => r := Ok(GInt(n));
      case Float(text, finite) => r := Ok(GFloat(text, finite));
      case Str(text) =>
        var id := InsertString(text);
        r := Ok(GString(id));
      case BlockStr(text) =>
        var id := InsertString(text);
        r := Ok(GString(id));
      case Boolean(flag) => r := Ok(GBoolean(flag));
      case Enum(name) =>
        var id := InsertString(name);
        if expected.Some? && (expected.value, name) in tables.enumValues {
          r := Ok(GEnumValue(tables.enumValues[(expected.value, name)]));
        } else {
          r := Ok(GUnboundEnumValue(id));
        }
      case ListValue(items) => r := InsertItems(items, expected);
      case ObjectValue(members) => r := InsertMembers(members, expected);
      case Variable(_) => r := Panic;
    }

    method InsertItems(items: seq<Value>, expected: Option<nat>) returns (r: Result<GraphValue>)
      requires Interned(strings)
      modifies this`strings
      ensures Interned(strings) && old(strings) <= strings
      ensures r.Panic? <==> HasVariable(ListValue(items))
      ensures !r.Panic? ==> r.Ok? && DenotesValue(strings, tables.enumValues, expected, r.value, ListValue(items))
      decreases items, 0
    {
      hide Interned;
      var out := [];
      for i := 0 to |items|
        invariant Interned(strings) && old(strings) <= strings && |out| == i
        invariant forall j | 0 <= j < i :: !HasVariable(items[j])
        invariant forall j | 0 <= j < i :: DenotesValue(strings, tables.enumValues, expected, out[j], items[j])
      {
        ghost var before := strings;
        var x := InsertValue(items[i], expected);
        if x.Panic? {
          return Panic;
        }
        forall j | 0 <= j < i
          ensures DenotesValue(strings, tables.enumValues, expected, out[j], items[j])
        {
          ValueGrows(before, strings, tables.enumValues, expected, out[j], items[j]);
        }
        out := out + [x.value];
      }
      r := Ok(GList(out));
    }

    method InsertMembers(members: seq<Member>, expected: Option<nat>) returns (r: Result<GraphValue>)
      requires Interned(strings)
      modifies this`strings
      ensures Interned(strings) && old(strings) <= strings
      ensures r.Panic? <==> HasVariable(ObjectValue(members))
      ensures !r.Panic? ==> r.Ok? && DenotesValue(strings, tables.enumValues, expected, r.value, ObjectValue(members))
      decreases members, 0
    {
      hide Interned;
      var out: seq<GraphMember> := [];
      for i := 0 to |members|
        invariant Interned(strings) && old(strings) <= strings && |out| == i
        invariant forall j | 0 <= j < i :: !HasVariable(members[j].value)
        invariant forall j | 0 <= j < i :: MemberAt(strings, tables.enumValues, expected, out, members, j)
      {
        ghost var before := strings;
        var key := InsertString(members[i].key);
        var x := InsertValue(members[i].value, expected);
        if x.Panic? {
          return Panic;
        }
        MembersGrow(before, strings, tables.enumValues, expected, out, members);
        AddMember(strings, tables.enumValues, expected, out, members, GraphMember(key, x.value));
        out := out + [GraphMember(key, x.value)];
      }
      MembersDenote(strings, tables.enumValues, expected, out, members);
      r := Ok(GObject(out));
    }

    // ----- Resolving selections -----

    /** Looks an argument up by the id of its name. */
    method ArgumentPosition(field: nat, nameId: nat, name: string) returns (argument: Option<nat>)
      requires Interned(strings) && Consistent(strings, tables) && field < |tables.fields|
      requires Denotes(strings, nameId, name)
      ensures argument == FindArgument(strings, tables.inputValues, tables.fields[field].arguments, name)
    {
      var w := tables.fields[field].arguments;
      var i := w.start;
      while i < w.start + w.len
        invariant w.start <= i <= w.start + w.len
        invariant FindArgument(strings, tables.inputValues, w, name) ==
                  FindArgument(strings, tables.inputValues, Window(i, w.start + w.len - i), name)
      {
        if tables.inputValues[i].name == nameId {
          return Some(i);
        }
        if Denotes(strings, tables.inputValues[i].name, name) {
          DenotesUnique(strings, tables.inputValues[i].name, nameId, name);
        }
        i := i + 1;
      }
      return None;
    }

    method AttachArgument(field: nat, argument: Argument) returns (r: Result<GraphArgument>)
      requires Interned(strings) && Consistent(strings, tables) && field < |tables.fields|
      modifies this`strings
      ensures Interned(strings) && old(strings) <= strings
      ensures r.Panic? <==> !KnownArgument(old(strings), tables, field, argument)
      ensures !r.Panic? ==> r.Ok? && DenotesArgument(strings, tables, field, r.value, argument)
    {
      var name := InsertString(argument.name);
      ConsistentGrows(old(strings), strings, tables);
      FindArgumentGrows(old(strings), strings, tables.inputValues, tables.fields[field].arguments, argument.name);
      var position := ArgumentPosition(field, name, argument.name);
      if position.None? {
        return Panic;
      }
      FoundArgument(strings, tables.inputValues, tables.fields[field].arguments, argument.name);
      ghost var before := strings;
      var value := InsertValue(argument.value, AsEnum(tables.inputValues[position.value].ty.definition));
      if value.Panic? {
        return Panic;
      }
      FindArgumentGrows(before, strings, tables.inputValues, tables.fields[field].arguments, argument.name);
      return Ok(GraphArgument(position.value, value.value));
    }

    method AttachArguments(field: nat, arguments: seq<Argument>) returns (r: Result<seq<GraphArgument>>)
      requires Interned(strings) && Consistent(strings, tables) && field < |tables.fields|
      modifies this`strings
      ensures Interned(strings) && old(strings) <= strings
      ensures r.Panic? <==> !KnownArguments(old(strings), tables, field, arguments)
      ensures !r.Panic? ==> r.Ok? && |r.value| == |arguments|
      ensures !r.Panic? ==>
                forall i | 0 <= i < |arguments| :: DenotesArgument(strings, tables, field, r.value[i], arguments[i])
    {
      var out := [];
      ghost var t := tables;
      for i := 0 to |arguments|
        invariant Interned(strings) && old(strings) <= strings && Consistent(strings, t)
        invariant |out| == i
        invariant forall j | 0 <= j < i :: KnownArgument(old(strings), t, field, arguments[j])
        invariant forall j | 0 <= j < i :: DenotesArgument(strings, t, field, out[j], arguments[j])
      {
        ghost var before := strings;
        FindArgumentGrows(old(strings), strings, tables.inputValues, tables.fields[field].arguments, arguments[i].name);
        var x := AttachArgument(field, arguments[i]);
        if x.Panic? {
          return Panic;
        }
        forall j | 0 <= j < i
          ensures DenotesArgument(strings, t, field, out[j], arguments[j])
        {
          ArgumentGrows(before, strings, t, field, out[j], arguments[j]);
        }
        ConsistentGrows(before, strings, t);
        out := out + [x.value];
      }
      r := Ok(out);
    }

    /** Resolves the selections of a type, stopping at the first that fails. */
    method AttachSelectionSet(items: seq<SelectionNode>, target: Definition) returns (r: Result<seq<GraphSelection>>)
      requires Interned(strings) && Consistent(strings, tables)
      modifies this`strings
      ensures Interned(strings) && old(strings) <= strings
      ensures FateOfAll(old(strings), tables, target, items) ==
              (match r case Ok(_) => Resolves case Err(e) => Fails(e) case Panic => Panics)
      ensures r.Ok? ==> |r.value| == |items|
      ensures r.Ok? ==>
                forall i | 0 <= i < |items| :: DenotesSelection(strings, tables, target, r.value[i], items[i])
      decreases items, 0
    {
      var out := [];
      ghost var t := tables;
      for i := 0 to |items|
        invariant Interned(strings) && old(strings) <= strings && Consistent(strings, t)
        invariant |out| == i
        invariant FateOfAll(old(strings), t, target, items) == FateOfAll(old(strings), t, target, items[i..])
        invariant forall j | 0 <= j < i :: DenotesSelection(strings, t, target, out[j], items[j])
      {
        ghost var before := strings;
        assert items[i..][0] == items[i] && items[i..][1..] == items[i + 1..];
        FateGrows(old(strings), strings, t, target, items[i]);
        var x := AttachSelection(items[i], target);
        match x {
          case Err(e) => return Err(e);
          case Panic => return Panic;
          case Ok(g) =>
            forall j | 0 <= j < i
              ensures DenotesSelection(strings, t, target, out[j], items[j])
            {
              SelectionGrows(before, strings, t, target, out[j], items[j]);
            }
            ConsistentGrows(before, strings, t);
            out := out + [g];
        }
      }
      r := Ok(out);
    }

    method AttachSelection(s: SelectionNode, target: Definition) returns (r: Result<GraphSelection>)
      requires Interned(strings) && Consistent(strings, tables)
      modifies this`strings
      ensures Interned(strings) && old(strings) <= strings
      ensures FateOf(old(strings), tables, target, s) ==
              (match r case Ok(_) => Resolves case Err(e) => Fails(e) case Panic => Panics)
      ensures r.Ok? ==> DenotesSelection(strings, tables, target, r.value, s)
      decreases s, 1
    {
      match s
      case FieldSelection(name, arguments, items) =>
        r := AttachField(name, arguments, items, target);
      case InlineFragment(on, items) =>
        if on.None? {
          return Err(MissingTypeCondition);
        }
        if on.value !in tables.definitionNames {
          return Err(UnknownTypeCondition(on.value));
        }
        var sub := AttachSelectionSet(items, tables.definitionNames[on.value]);
        match sub {
          case Err(e) => r := Err(e);
          case Panic => r := Panic;
          case Ok(inner) => r := Ok(GInlineFragment(tables.definitionNames[on.value], inner));
        }
      case FragmentSpread(_) => r := Err(UnsupportedFragmentSpread);
    }

    method AttachField(name: string, arguments: seq<Argument>, items: seq<SelectionNode>, target: Definition)
      returns (r: Result<GraphSelection>)
      requires Interned(strings) && Consistent(strings, tables)
      modifies this`strings
      ensures Interned(strings) && old(strings) <= strings
      ensures FateOf(old(strings), tables, target, FieldSelection(name, arguments, items)) ==
              (match r case Ok(_) => Resolves case Err(e) => Fails(e) case Panic => Panics)
      ensures r.Ok? ==> DenotesSelection(strings, tables, target, r.value, FieldSelection(name, arguments, items))
      decreases items, 1
    {
      if (target, name) !in tables.selectionMap {
        return Err(FieldDoesNotExist(target, name));
      }
      ghost var t := tables;
      var field := tables.selectionMap[(target, name)];
      var args := AttachArguments(field, arguments);
      if args.Panic? {
        return Panic;
      }
      ghost var before := strings;
      ConsistentGrows(old(strings), before, t);
      FateAllGrows(old(strings), before, t, tables.fields[field].ty.definition, items);
      var sub := AttachSelectionSet(items, tables.fields[field].ty.definition);
      match sub {
        case Err(e) => r := Err(e);
        case Panic => r := Panic;
        case Ok(inner) =>
          forall i | 0 <= i < |arguments|
            ensures DenotesArgument(strings, t, field, args.value[i], arguments[i])
          {
            ArgumentGrows(before, strings, t, field, args.value[i], arguments[i]);
          }
          r := Ok(GField(field, args.value, inner));
      }
    }

    // ----- Ingesting fields -----

    method InsertOptional(text: Option<string>) returns (id: Option<nat>)
      requires Interned(strings)
      modifies this`strings
      ensures Interned(strings) && old(strings) <= strings && DenotesOption(strings, id, text)
    {
      match text {
        case None => id := None;
        case Some(t) =>
          var i := InsertString(t);
          id := Some(i);
      }
    }

    method InsertStrings(texts: seq<string>) returns (ids: seq<nat>)
      requires Interned(strings)
      modifies this`strings
      ensures Interned(strings) && old(strings) <= strings && DenotesList(strings, ids, texts)
    {
      ids := [];
      for i := 0 to |texts|
        invariant Interned(strings) && old(strings) <= strings && DenotesList(strings, ids, texts[..i])
      {
        var id := InsertString(texts[i]);
        ids := ids + [id];
      }
    }

    method InsertStringLists(texts: seq<seq<string>>) returns (ids: seq<seq<nat>>)
      requires Interned(strings)
      modifies this`strings
      ensures Interned(strings) && old(strings) <= strings && DenotesLists(strings, ids, texts)
    {
      ids := [];
      for i := 0 to |texts|
        invariant Interned(strings) && old(strings) <= strings && DenotesLists(strings, ids, texts[..i])
      {
        ghost var before := strings;
        var list := InsertStrings(texts[i]);
        ListsGrow(before, strings, ids, texts[..i]);
        ids := ids + [list];
      }
      assert texts[..|texts|] == texts;
    }

    /** The record of one composed directive. */
    method DirectiveOf(d: DirectiveNode) returns (r: Result<DirectiveRecord>)
      requires Interned(strings) && IsComposed(d)
      modifies this`strings
      ensures Interned(strings) && old(strings) <= strings
      ensures r.Ok? <==> DirectiveOk(d)
      ensures r.Ok? ==> DenotesDirective(strings, tables.enumValues, r.value, d)
    {
      match Classify(d.name)
      case IsInaccessible => r := Ok(Inaccessible);
      case IsDeprecated =>
        var reason := InsertOptional(Reason(d));
        r := Ok(Deprecated(reason));
      case IsScopes =>
        StringListsFit(GetArgument(d.arguments, SCOPES));
        var scopes := InsertStringLists(StringLists(GetArgument(d.arguments, SCOPES)).value);
        r := Ok(RequiresScopes(scopes));
      case IsPolicy =>
        StringListsFit(GetArgument(d.arguments, POLICIES));
        var policies := InsertStringLists(StringLists(GetArgument(d.arguments, POLICIES)).value);
        r := Ok(Policy(policies));
      case IsAuthenticated => r := Ok(Authenticated);
      case IsPlain =>
        var name := InsertString(d.name);
        var arguments := InsertMembers(AsMembers(d.arguments), None);
        if arguments.Panic? {
          return Panic;
        }
        r := Ok(Other(name, arguments.value.members));
    }

    /** Appends the record of a directive, if it has one. */
    method AppendDirective(d: DirectiveNode) returns (ok: bool)
      requires Standing()
      modifies this`strings, this`directives, this`source
      ensures Standing() && old(strings) <= strings
      ensures ok <==> DirectiveOk(d)
      ensures source == old(source).(directives := source.directives)
      ensures source.directives == old(source).directives + if ok && IsComposed(d) then [d] else []
    {
      if !IsComposed(d) {
        return !(Classify(d.name).IsScopes? && ArgumentOverflows(d, SCOPES))
            && !(Classify(d.name).IsPolicy? && ArgumentOverflows(d, POLICIES));
      }
      ghost var before := Snapshot();
      var r := DirectiveOf(d);
      StringsGrow(before, source, strings);
      if !r.Ok? {
        return false;
      }
      PushDirective(Snapshot(), source, r.value, d);
      directives := directives + [r.value];
      source := source.(directives := source.directives + [d]);
      return true;
    }

    /** Appends the records of the composed directives and returns their window. */
    method CollectComposedDirectives(nodes: seq<DirectiveNode>) returns (r: Result<Window>)
      requires Standing()
      modifies this`strings, this`directives, this`source
      ensures Standing() && old(strings) <= strings
      ensures r.Ok? <==> DirectivesOk(nodes)
      ensures source == old(source).(directives := source.directives) && old(source.directives) <= source.directives
      ensures r.Ok? ==> Covers(source.directives, r.value, Composed(nodes))
    {
      var start := |directives|;
      for i := 0 to |nodes|
        invariant Standing() && old(strings) <= strings
        invariant source == old(source).(directives := source.directives)
        invariant source.directives == old(source).directives + ComposedTo(nodes, i)
        invariant forall j | 0 <= j < i :: DirectiveOk(nodes[j])
      {
        var ok := AppendDirective(nodes[i]);
        if !ok {
          return Panic;
        }
        ConcatAssoc(old(source).directives, ComposedTo(nodes, i), if IsComposed(nodes[i]) then [nodes[i]] else []);
      }
      CoversTail(old(source).directives, Composed(nodes));
      return Ok(Window(start, |directives| - start));
    }

    method TypeOf(t: TypeRef) returns (r: Result<Type>)
      requires WellFormed(t)
      ensures r.Ok? <==> TypeOk(tables.definitionNames, t)
      ensures r.Ok? ==> DenotesType(tables.definitionNames, r.value, t)
    {
      var wrapping := FieldType(t);
      if wrapping.None? {
        return Panic;
      }
      if Name(t) !in tables.definitionNames {
        return Err(UnknownType(Name(t)));
      }
      return Ok(Type(tables.definitionNames[Name(t)], wrapping.value));
    }

    /** The record of an argument. */
    method IngestArgument(n: InputValueNode) returns (r: Result<InputValueRecord>)
      requires Standing() && WellFormed(n.ty)
      modifies this`strings, this`directives, this`source
      ensures Standing() && old(strings) <= strings
      ensures r.Ok? <==> InputOk(tables.definitionNames, n)
      ensures source == old(source).(directives := source.directives) && old(source.directives) <= source.directives
      ensures r.Ok? ==> InputStands(strings, tables.definitionNames, tables.enumValues, source.directives, r.value, n)
    {
      hide Stands, ExtrasBegin, Interned, DenotesType, TypeOk, Covers, DenotesValue, HasVariable, DirectivesOk;
      ghost var start := Snapshot();
      var description := InsertOptional(n.description);
      StringsGrow(start, source, strings);
      var window := CollectComposedDirectives(n.directives);
      if !window.Ok? {
        return Panic;
      }
      ghost var collected := Snapshot();
      var name := InsertString(n.name);
      StringsGrow(collected, source, strings);
      var ty := TypeOf(n.ty);
      if !ty.Ok? {
        return if ty.Err? then Err(ty.error) else Panic;
      }
      var default := None;
      if n.default.Some? {
        ghost var named := Snapshot();
        var value := InsertValue(n.default.value, AsEnum(ty.value.definition));
        StringsGrow(named, source, strings);
        if value.Panic? {
          return Panic;
        }
        default := Some(value.value);
      }
      return Ok(InputValueRecord(name, ty.value, window.value, description, default));
    }

    /** The record of a field of an input object, whose type is resolved before its directives are read. */
    method IngestInputField(n: InputValueNode) returns (r: Result<InputValueRecord>)
      requires Standing() && WellFormed(n.ty)
      modifies this`strings, this`directives, this`source
      ensures Standing() && old(strings) <= strings
      ensures r.Ok? <==> InputOk(tables.definitionNames, n)
      ensures source == old(source).(directives := source.directives) && old(source.directives) <= source.directives
      ensures r.Ok? ==> InputStands(strings, tables.definitionNames, tables.enumValues, source.directives, r.value, n)
    {
      hide Stands, ExtrasBegin, Interned, DenotesType, TypeOk, Covers, DenotesValue, HasVariable, DirectivesOk;
      ghost var start := Snapshot();
      var name := InsertString(n.name);
      StringsGrow(start, source, strings);
      var ty := TypeOf(n.ty);
      if !ty.Ok? {
        return if ty.Err? then Err(ty.error) else Panic;
      }
      var window := CollectComposedDirectives(n.directives);
      if !window.Ok? {
        return Panic;
      }
      ghost var collected := Snapshot();
      var description := InsertOptional(n.description);
      StringsGrow(collected, source, strings);
      var default := None;
      if n.default.Some? {
        ghost var described := Snapshot();
        var value := InsertValue(n.default.value, AsEnum(ty.value.definition));
        StringsGrow(described, source, strings);
        if value.Panic? {
          return Panic;
        }
        default := Some(value.value);
      }
      return Ok(InputValueRecord(name, ty.value, window.value, description, default));
    }

    /** Appends the record of an input value. */
    method PushInputValue(x: InputValueRecord, ghost n: InputValueNode)
      requires Standing() && InputStands(strings, tables.definitionNames, tables.enumValues, source.directives, x, n)
      modifies this`tables, this`source
      ensures Standing()
      ensures tables == old(tables).(inputValues := tables.inputValues)
      ensures source == old(source).(inputs := old(source).inputs + [n])
    {
      PushInput(Snapshot(), source, x, n);
      tables := tables.(inputValues := tables.inputValues + [x]);
      source := source.(inputs := source.inputs + [n]);
    }

    method AppendArgument(n: InputValueNode) returns (r: Result<()>)
      requires Standing() && WellFormed(n.ty)
      modifies this`strings, this`directives, this`tables, this`source
      ensures Standing() && old(strings) <= strings
      ensures tables == old(tables).(inputValues := tables.inputValues)
      ensures r.Ok? <==> InputOk(tables.definitionNames, n)
      ensures source.fields == old(source).fields
      ensures source.inputs == old(source).inputs + if r.Ok? then [n] else []
    {
      var x := IngestArgument(n);
      if !x.Ok? {
        return if x.Err? then Err(x.error) else Panic;
      }
      PushInputValue(x.value, n);
      return Ok(());
    }

    method AppendInputField(n: InputValueNode) returns (r: Result<()>)
      requires Standing() && WellFormed(n.ty)
      modifies this`strings, this`directives, this`tables, this`source
      ensures Standing() && old(strings) <= strings
      ensures tables == old(tables).(inputValues := tables.inputValues)
      ensures r.Ok? <==> InputOk(tables.definitionNames, n)
      ensures source.fields == old(source).fields
      ensures source.inputs == old(source).inputs + if r.Ok? then [n] else []
    {
      var x := IngestInputField(n);
      if !x.Ok? {
        return if x.Err? then Err(x.error) else Panic;
      }
      PushInputValue(x.value, n);
      return Ok(());
    }

    /** Appends the arguments of a field and returns their window. */
    method IngestInputs(nodes: seq<InputValueNode>) returns (r: Result<Window>)
      requires Standing() && InputsParsed(nodes)
      modifies this`strings, this`directives, this`tables, this`source
      ensures Standing() && old(strings) <= strings
      ensures tables == old(tables).(inputValues := tables.inputValues)
      ensures r.Ok? <==> InputsOk(tables.definitionNames, nodes)
      ensures source.fields == old(source).fields && old(source).inputs <= source.inputs
      ensures r.Ok? ==> Covers(source.inputs, r.value, nodes)
    {
      var start := |tables.inputValues|;
      for i := 0 to |nodes|
        invariant Standing() && old(strings) <= strings
        invariant tables == old(tables).(inputValues := tables.inputValues)
        invariant source.fields == old(source).fields && source.inputs == old(source).inputs + nodes[..i]
        invariant forall j | 0 <= j < i :: InputOk(tables.definitionNames, nodes[j])
      {
        var x := AppendArgument(nodes[i]);
        if !x.Ok? {
          return if x.Err? then Err(x.error) else Panic;
        }
      }
      assert nodes[..|nodes|] == nodes;
      CoversTail(old(source).inputs, nodes);
      return Ok(Window(start, |tables.inputValues| - start));
    }
  }
}
