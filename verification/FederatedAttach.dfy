/**
 The closing pass of ingestion: the directives that hold selections are read against the complete tables.
 */
module FederatedAttach {
  import opened Common
  import opened TypeRefs
  import opened FederatedModel
  import opened FederatedJoin
  import opened FederatedRecords
  import opened FederatedState
  import opened FederatedLayout
  import opened FederatedSelecting
  import opened FederatedClosing

  /** The tables are complete and hold what the schema says. */
  ghost predicate Ready(state: State, schema: Schema)
    reads state`strings, state`directives, state`tables, state`source, state`graphNames, state`inputValuesMap
  {
    && Interned(state.strings) && Consistent(state.strings, state.tables)
    && Agrees(state.Snapshot(), state.source, schema)
    && state.graphNames == schema.scope.graphs
    && InputEntriesStand(state.inputValuesMap, state.source.inputs, schema.inputs)
  }

  lemma StaysReady(g: Graph, s: Source, schema: Schema, more: seq<string>)
    requires Agrees(g, s, schema) && Consistent(g.strings, g.tables) && g.strings <= more
    ensures Agrees(g.(strings := more), s, schema) && Consistent(more, g.tables)
  {
    StringsGrow(g, s, more);
    ConsistentGrows(g.strings, more, g.tables);
  }

  // ----- Selections -----

  /** Parses a selection and resolves it on a type. */
  method AttachText(state: State, parse: Parser, text: Option<string>, target: Definition, ghost schema: Schema)
    returns (r: Result<Option<seq<GraphSelection>>>)
    requires Ready(state, schema)
    modifies state`strings
    ensures Ready(state, schema) && old(state.strings) <= state.strings
    ensures r.Ok? <==> TextSelects(schema, parse, target, text)
    ensures r.Ok? ==> OptionStands(state.strings, state.tables, target, r.value, SelectionIn(parse, text))
  {
    hide Consistent, InputEntriesStand, AllSelect;
    if text.None? {
      return Ok(None);
    }
    var items := parse(text.value);
    if items.None? {
      return Err(UnparsableSelection(text.value));
    }
    ghost var before := state.Snapshot();
    AllResolveExactly(before, state.source, schema, target, items.value);
    var x := state.AttachSelectionSet(items.value, target);
    StaysReady(before, state.source, schema, state.strings);
    match x
    case Ok(found) => return Ok(Some(found));
    case Err(e) => return Err(e);
    case Panic => return Panic;
  }

  // ----- Selections of arguments -----

  lemma InputLeads(state: State, schema: Schema, input: nat)
    requires Ready(state, schema) && input < |state.tables.inputValues|
    ensures input < |state.source.inputs|
    ensures Leads(schema, state.source.inputs[input].ty) == Some(state.tables.inputValues[input].ty.definition)
    ensures Denotes(state.strings, state.tables.inputValues[input].name, state.source.inputs[input].name)
  {
    var t := state.tables;
    assert InputAt(state.strings, t.definitionNames, t.enumValues, state.source.directives, t.inputValues,
                   state.source.inputs, input);
  }

  /** What is selected of an input value. */
  method AttachBelow(
    state: State, input: nat, items: seq<SelectionNode>, ghost schema: Schema) returns (r: Result<seq<InputItem>>)
    requires Ready(state, schema) && input < |state.tables.inputValues| && input < |state.source.inputs|
    ensures r.Ok? <==> InputSelects(schema, state.source.inputs[input].ty, items)
    ensures r.Ok? ==> DenotesInputs(state.strings, state.tables, r.value, items)
    ensures !r.Panic?
    decreases items, 1
  {
    InputLeads(state, schema, input);
    match state.tables.inputValues[input].ty.definition
    case InputObject(id) =>
      if items == [] {
        return Err(NeedsSelection);
      }
      r := AttachInputFields(state, id, items, schema);
    case _ =>
      if items != [] {
        return Err(TakesNoSelection);
      }
      return Ok([]);
  }

  method AttachInputFields(
    state: State, id: nat, items: seq<SelectionNode>, ghost schema: Schema) returns (r: Result<seq<InputItem>>)
    requires Ready(state, schema)
    ensures r.Ok? <==> forall i | 0 <= i < |items| :: InputFieldSelects(schema, id, items[i])
    ensures r.Ok? ==> DenotesInputs(state.strings, state.tables, r.value, items)
    ensures !r.Panic?
    decreases items, 0
  {
    hide Stands, Consistent, Interned;
    var out := [];
    for i := 0 to |items|
      invariant |out| == i
      invariant forall j | 0 <= j < i :: InputFieldSelects(schema, id, items[j])
      invariant forall j | 0 <= j < i :: DenotesInput(state.strings, state.tables, out[j], items[j])
    {
      if !items[i].FieldSelection? {
        return Err(UnsupportedFragmentSpread);
      }
      var key := (id, items[i].name);
      if key !in state.inputValuesMap {
        return Err(UnknownInput(items[i].name));
      }
      assert InputEntryAt(state.inputValuesMap, state.source.inputs, schema.inputs, key);
      var input := state.inputValuesMap[key];
      InputsAreNamed(state.Snapshot(), state.source);
      assert NamedAt(state.strings, state.tables.inputValues, state.source.inputs, input);
      var below := AttachBelow(state, input, items[i].items, schema);
      if !below.Ok? {
        return below;
      }
      out := out + [InputItem(input, below.value)];
    }
    return Ok(out);
  }

  /** The arguments of a field are looked up by name, the first of a name being taken. */
  method AttachArguments(
    state: State, field: nat, items: seq<SelectionNode>, ghost schema: Schema, ghost node: FieldNode)
    returns (r: Result<seq<InputItem>>)
    requires Ready(state, schema) && field < |state.tables.fields|
    requires Covers(state.source.inputs, state.tables.fields[field].arguments, node.arguments)
    ensures r.Ok? <==> ArgumentsSelect(schema, node.arguments, items)
    ensures r.Ok? ==> DenotesInputs(state.strings, state.tables, r.value, items)
    ensures !r.Panic?
  {
    hide Stands, Consistent, Interned, InputEntriesStand;
    var w := state.tables.fields[field].arguments;
    var out := [];
    InputsAreNamed(state.Snapshot(), state.source);
    for i := 0 to |items|
      invariant |out| == i
      invariant forall j | 0 <= j < i :: ArgumentSelects(schema, node.arguments, items[j])
      invariant forall j | 0 <= j < i :: DenotesInput(state.strings, state.tables, out[j], items[j])
    {
      if !items[i].FieldSelection? {
        return Err(UnsupportedFragmentSpread);
      }
      FindsFirst(state.strings, state.tables.inputValues, state.source.inputs, w, node.arguments, items[i].name);
      var input := FindArgument(state.strings, state.tables.inputValues, w, items[i].name);
      if input.None? {
        return Err(UnknownInput(items[i].name));
      }
      FirstNamedIn(node.arguments, items[i].name);
      FoundArgument(state.strings, state.tables.inputValues, w, items[i].name);
      assert state.source.inputs[input.value] ==
             state.source.inputs[w.start..w.start + w.len][FirstNamed(node.arguments, items[i].name).value];
      var below := AttachBelow(state, input.value, items[i].items, schema);
      if !below.Ok? {
        return below;
      }
      out := out + [InputItem(input.value, below.value)];
    }
    return Ok(out);
  }

  method AttachArgumentText(
    state: State, parse: Parser, text: Option<string>, field: nat, ghost schema: Schema, ghost node: FieldNode)
    returns (r: Result<Option<seq<InputItem>>>)
    requires Ready(state, schema) && field < |state.tables.fields|
    requires Covers(state.source.inputs, state.tables.fields[field].arguments, node.arguments)
    ensures r.Ok? <==> TextArguments(schema, parse, node.arguments, text)
    ensures r.Ok? ==> InputsOption(state.strings, state.tables, r.value, SelectionIn(parse, text))
  {
    if text.None? {
      return Ok(None);
    }
    var items := parse(text.value);
    if items.None? {
      return Err(UnparsableSelection(text.value));
    }
    var x := AttachArguments(state, field, items.value, schema, node);
    return if x.Ok? then Ok(Some(x.value)) else if x.Err? then Err(x.error) else Panic;
  }

  // ----- What a field provides and requires -----

  function WithItems(before: seq<NodeFields>, graph: nat, items: Option<seq<SelectionNode>>): seq<NodeFields> {
    if items.Some? then before + [NodeFields(graph, items.value)] else before
  }

  function WithGraphFields(before: seq<GraphFields>, graph: nat, items: Option<seq<GraphSelection>>): seq<GraphFields> {
    if items.Some? then before + [GraphFields(graph, items.value)] else before
  }

  lemma AddItems(
    strings: seq<string>, t: Tables, target: Definition, gs: seq<GraphFields>, ss: seq<NodeFields>,
    graph: nat, g: Option<seq<GraphSelection>>, s: Option<seq<SelectionNode>>)
    requires EntriesFor(strings, t, target, gs, ss) && OptionStands(strings, t, target, g, s)
    ensures EntriesFor(strings, t, target, WithGraphFields(gs, graph, g), WithItems(ss, graph, s))
  {
    var more, longer := WithGraphFields(gs, graph, g), WithItems(ss, graph, s);
    forall i | 0 <= i < |more|
      ensures EntryStands(strings, t, target, more, longer, i)
    {
      if i < |gs| {
        assert EntryStands(strings, t, target, gs, ss, i);
      }
    }
  }

  /** What the first `n` directives of a field say. */
  function ExtraTo(graphs: map<string, nat>, parse: Parser, directives: seq<DirectiveNode>, n: nat): ExtraSource
    requires n <= |directives|
  {
    ExtraSource(ResolvableIn(graphs, directives, n),
                Selected(graphs, parse, directives, PROVIDES, n), Selected(graphs, parse, directives, REQUIRES, n))
  }

  /** What one more directive adds. */
  function ExtraWith(e: ExtraSource, graphs: map<string, nat>, parse: Parser, d: DirectiveNode): ExtraSource {
    if !Active(graphs, d) then e
    else
      var graph := GraphOf(graphs, d).value;
      ExtraSource(if Locates(d) then e.resolvableIn + [graph] else e.resolvableIn,
                  WithItems(e.provided, graph, SelectionIn(parse, TextArgument(d, PROVIDES))),
                  WithItems(e.required, graph, SelectionIn(parse, TextArgument(d, REQUIRES))))
  }

  lemma ExtraStep(graphs: map<string, nat>, parse: Parser, directives: seq<DirectiveNode>, i: nat)
    requires i < |directives|
    ensures ExtraTo(graphs, parse, directives, i + 1) ==
            ExtraWith(ExtraTo(graphs, parse, directives, i), graphs, parse, directives[i])
  {
  }

  /** Reads one directive of a field. */
  method JoinDirective(
    state: State, parse: Parser, parent: Definition, leads: Definition, d: DirectiveNode, e: FieldExtra,
    ghost schema: Schema, ghost source: ExtraSource) returns (r: Result<FieldExtra>)
    requires Ready(state, schema) && ExtraStands(state.strings, state.tables, parent, leads, e, source)
    modifies state`strings
    ensures Ready(state, schema) && old(state.strings) <= state.strings
    ensures r.Ok? <==> DirectiveJoins(schema, parse, parent, leads, d)
    ensures r.Ok? ==>
              ExtraStands(state.strings, state.tables, parent, leads, r.value,
                          ExtraWith(source, schema.scope.graphs, parse, d))
  {
    hide Agrees, Consistent, Interned, InputEntriesStand, EntriesFor, OptionStands, TextSelects, WithItems,
         WithGraphFields;
    if d.name != JOIN_FIELD || IsSet(d, "external") {
      return Ok(e);
    }
    var graph := GraphOf(state.graphNames, d);
    if graph.None? {
      return Ok(e);
    }
    ghost var t, start := state.tables, state.strings;
    var provided := AttachText(state, parse, TextArgument(d, PROVIDES), leads, schema);
    if !provided.Ok? {
      return if provided.Err? then Err(provided.error) else Panic;
    }
    ghost var middle := state.strings;
    var required := AttachText(state, parse, TextArgument(d, REQUIRES), parent, schema);
    if !required.Ok? {
      return if required.Err? then Err(required.error) else Panic;
    }
    ExtraGrows(start, state.strings, t, parent, leads, e, source);
    OptionGrows(middle, state.strings, t, leads, provided.value, SelectionIn(parse, TextArgument(d, PROVIDES)));
    AddItems(state.strings, t, leads, e.provided, source.provided, graph.value,
             provided.value, SelectionIn(parse, TextArgument(d, PROVIDES)));
    AddItems(state.strings, t, parent, e.required, source.required, graph.value,
             required.value, SelectionIn(parse, TextArgument(d, REQUIRES)));
    return Ok(FieldExtra(if Locates(d) then e.resolvableIn + [graph.value] else e.resolvableIn,
                         WithGraphFields(e.provided, graph.value, provided.value),
                         WithGraphFields(e.required, graph.value, required.value)));
  }

  lemma NothingYet(strings: seq<string>, t: Tables, parent: Definition, leads: Definition,
                   graphs: map<string, nat>, parse: Parser, directives: seq<DirectiveNode>)
    ensures ExtraStands(strings, t, parent, leads, FieldExtra([], [], []), ExtraTo(graphs, parse, directives, 0))
  {
  }

  method JoinDirectives(
    state: State, parse: Parser, parent: Definition, leads: Definition, directives: seq<DirectiveNode>,
    ghost schema: Schema)
    returns (r: Result<FieldExtra>)
    requires Ready(state, schema)
    modifies state`strings
    ensures Ready(state, schema) && old(state.strings) <= state.strings
    ensures r.Ok? <==> forall i | 0 <= i < |directives| :: DirectiveJoins(schema, parse, parent, leads, directives[i])
    ensures r.Ok? ==>
              ExtraStands(state.strings, state.tables, parent, leads, r.value,
                          ExtraTo(schema.scope.graphs, parse, directives, |directives|))
  {
    hide Ready, ExtraStands, DirectiveJoins, ExtraWith;
    var e := FieldExtra([], [], []);
    NothingYet(state.strings, state.tables, parent, leads, schema.scope.graphs, parse, directives);
    for i := 0 to |directives|
      invariant Ready(state, schema) && old(state.strings) <= state.strings
      invariant ExtraStands(state.strings, state.tables, parent, leads, e,
                            ExtraTo(schema.scope.graphs, parse, directives, i))
      invariant forall j | 0 <= j < i :: DirectiveJoins(schema, parse, parent, leads, directives[j])
    {
      ExtraStep(schema.scope.graphs, parse, directives, i);
      var x := JoinDirective(
        state, parse, parent, leads, directives[i], e, schema, ExtraTo(schema.scope.graphs, parse, directives, i));
      if !x.Ok? {
        return x;
      }
      e := x.value;
    }
    return Ok(e);
  }

  /** What was written so far stands for the source. */
  ghost predicate Written(state: State, schema: Schema, c: ClosingSource)
    reads state`strings, state`directives, state`tables, state`source, state`graphNames, state`inputValuesMap,
      state`closing
  {
    Ready(state, schema) && ClosingStands(state.strings, state.tables, state.source.fields, state.closing, c)
  }

  /** The lookup of a field by type and name, on both sides. */
  lemma FieldReached(g: Graph, s: Source, schema: Schema, parent: Definition, name: string)
    requires Agrees(g, s, schema)
    ensures LeadsTo(schema, parent, name).Some? <==> (parent, name) in g.tables.selectionMap
    ensures (parent, name) in g.tables.selectionMap ==>
              var f := g.tables.selectionMap[(parent, name)];
              && f < |g.tables.fields| && f < |s.fields|
              && FieldNamed(schema, parent, name) == Some(f) && OwnerOf(s.fields[f]) == parent
              && LeadsTo(schema, parent, name) == Some(g.tables.fields[f].ty.definition)
              && NodeNamed(schema, parent, name).Some?
              && Covers(s.inputs, g.tables.fields[f].arguments, NodeNamed(schema, parent, name).value.arguments)
  {
    FoundField(g, s, schema, parent, name);
  }

  method JoinField(
    state: State, parse: Parser, parent: Definition, defaults: seq<nat>, node: FieldNode, ghost schema: Schema,
    ghost c: ClosingSource)
    returns (r: Result<()>)
    requires Written(state, schema, c)
    modifies state`strings, state`closing
    ensures Ready(state, schema) && old(state.strings) <= state.strings
    ensures r.Ok? <==> FieldJoins(schema, parse, parent, node)
    ensures r.Ok? ==>
              Written(state, schema, WithExtra(c, FieldNamed(schema, parent, node.name),
                                               ExtraOf(schema.scope.graphs, parse, defaults, node.directives)))
  {
    hide Stands, Consistent, Interned, InputEntriesStand, EntriesFor, ExtraAt, AllKeys, AllAuthorized, DirectiveJoins;
    FieldReached(state.Snapshot(), state.source, schema, parent, node.name);
    if (parent, node.name) !in state.tables.selectionMap {
      return Panic;
    }
    var f := state.tables.selectionMap[(parent, node.name)];
    ghost var before := state.strings;
    var x := JoinDirectives(state, parse, parent, state.tables.fields[f].ty.definition, node.directives, schema);
    if !x.Ok? {
      return if x.Err? then Err(x.error) else Panic;
    }
    ClosingGrows(before, state.strings, state.tables, state.source.fields, state.closing, c);
    var e := x.value.(resolvableIn := if x.value.resolvableIn == [] then defaults else x.value.resolvableIn);
    SetExtra(state.strings, state.tables, state.source.fields, state.closing, c, f, e,
             ExtraOf(schema.scope.graphs, parse, defaults, node.directives));
    state.closing := state.closing.(extras := state.closing.extras[f := e]);
    return Ok(());
  }

  method JoinFields(
    state: State, parse: Parser, parent: Definition, defaults: seq<nat>, nodes: seq<FieldNode>, ghost schema: Schema,
    ghost c: ClosingSource)
    returns (r: Result<()>)
    requires Written(state, schema, c)
    modifies state`strings, state`closing
    ensures Ready(state, schema) && old(state.strings) <= state.strings
    ensures r.Ok? <==> AllJoin(schema, parse, parent, nodes)
    ensures r.Ok? ==> Written(state, schema, FieldsJoined(c, schema, parse, parent, defaults, nodes, |nodes|))
  {
    hide Ready, ClosingStands, FieldJoins, WithExtra, ExtraOf;
    for i := 0 to |nodes|
      invariant Written(state, schema, FieldsJoined(c, schema, parse, parent, defaults, nodes, i))
      invariant old(state.strings) <= state.strings
      invariant forall j | 0 <= j < i :: FieldJoins(schema, parse, parent, nodes[j])
    {
      var x := JoinField(state, parse, parent, defaults, nodes[i], schema,
                         FieldsJoined(c, schema, parse, parent, defaults, nodes, i));
      if !x.Ok? {
        return x;
      }
    }
    return Ok(());
  }

  /** The subgraphs of a type; an unknown graph is a panic. */
  method ReadDefaultGraphs(graphs: map<string, nat>, directives: seq<DirectiveNode>) returns (r: Result<seq<nat>>)
    ensures r.Ok? <==> DefaultGraphsOk(graphs, directives)
    ensures r.Ok? ==> r.value == DefaultGraphs(graphs, directives)
  {
    for i := 0 to |directives|
      invariant forall j | 0 <= j < i :: !IsKeyed(directives[j])
    {
      if IsKeyed(directives[i]) {
        return Ok([]);
      }
    }
    var found := [];
    for i := 0 to |directives|
      invariant found == TypeGraphs(graphs, directives, i)
      invariant forall j | 0 <= j < i :: directives[j].name == JOIN_TYPE ==> GraphKnown(graphs, directives[j])
    {
      var name := GraphName(directives[i]);
      if directives[i].name == JOIN_TYPE && name.Some? {
        if name.value !in graphs {
          return Panic;
        }
        found := found + [graphs[name.value]];
      }
    }
    return Ok(found);
  }

  // ----- Authorizations -----

  method ReadMetadata(state: State, d: DirectiveNode, ghost schema: Schema) returns (r: Result<Option<GraphValue>>)
    requires Ready(state, schema)
    modifies state`strings
    ensures Ready(state, schema) && old(state.strings) <= state.strings
    ensures r.Ok? <==> MetadataOk(d)
    ensures r.Ok? ==> MetadataStands(state.strings, state.tables, r.value, Metadata(d))
  {
    hide Stands, Consistent, InputEntriesStand;
    var v := Metadata(d);
    if v.None? {
      return Ok(None);
    }
    ghost var before := state.Snapshot();
    var x := state.InsertValue(v.value, None);
    StaysReady(before, state.source, schema, state.strings);
    return if x.Panic? then Panic else Ok(Some(x.value));
  }

  /** Reads one authorization of a field. */
  method ReadAuthorized(
    state: State, parse: Parser, parent: Definition, leads: Definition, field: nat, d: DirectiveNode,
    ghost schema: Schema, ghost node: FieldNode) returns (r: Result<Authorized>)
    requires Ready(state, schema) && field < |state.tables.fields| && d.name == AUTHORIZED
    requires Covers(state.source.inputs, state.tables.fields[field].arguments, node.arguments)
    modifies state`strings
    ensures Ready(state, schema) && old(state.strings) <= state.strings
    ensures r.Ok? <==> DirectiveAuthorizes(schema, parse, parent, leads, node.arguments, d)
    ensures r.Ok? ==> AuthorizedStands(state.strings, state.tables, r.value, FieldAuthorized(parse, parent, leads, d))
  {
    hide Stands, Consistent, Interned, InputEntriesStand, OptionStands, InputsOption, MetadataStands, TextSelects,
         TextArguments, MetadataOk, Covers;
    ghost var t, first := state.tables, state.strings;
    var arguments := AttachArgumentText(state, parse, TextArgument(d, "arguments"), field, schema, node);
    if !arguments.Ok? {
      return if arguments.Err? then Err(arguments.error) else Panic;
    }
    var items := AttachText(state, parse, TextArgument(d, "fields"), parent, schema);
    if !items.Ok? {
      return if items.Err? then Err(items.error) else Panic;
    }
    ghost var second := state.strings;
    var below := AttachText(state, parse, TextArgument(d, "node"), leads, schema);
    if !below.Ok? {
      return if below.Err? then Err(below.error) else Panic;
    }
    ghost var third := state.strings;
    var metadata := ReadMetadata(state, d, schema);
    if !metadata.Ok? {
      return Panic;
    }
    InputsOptionGrows(first, state.strings, t, arguments.value, SelectionIn(parse, TextArgument(d, "arguments")));
    OptionGrows(second, state.strings, t, parent, items.value, SelectionIn(parse, TextArgument(d, "fields")));
    OptionGrows(third, state.strings, t, leads, below.value, SelectionIn(parse, TextArgument(d, "node")));
    return Ok(Authorized(items.value, below.value, arguments.value, metadata.value));
  }

  method PushAuthorized(
    state: State, field: nat, a: Authorized, ghost schema: Schema, ghost c: ClosingSource, ghost s: AuthorizedSource)
    requires Written(state, schema, c) && AuthorizedStands(state.strings, state.tables, a, s)
    modifies state`closing
    ensures Written(state, schema, WithAuthorized(c, field, s))
  {
    hide Ready, AllAuthorized, AllKeys, ExtrasStand, AuthorizedStands;
    AddAuthorized(state.strings, state.tables, state.closing.authorized, c.authorized, a, s);
    state.closing := state.closing.(authorized := state.closing.authorized + [a],
                                    byField := state.closing.byField + [(field, |state.closing.authorized|)]);
  }

  method AuthorizeDirectives(
    state: State, parse: Parser, parent: Definition, leads: Definition, field: nat, directives: seq<DirectiveNode>,
    ghost schema: Schema, ghost node: FieldNode, ghost c: ClosingSource) returns (r: Result<()>)
    requires Written(state, schema, c) && field < |state.tables.fields|
    requires Covers(state.source.inputs, state.tables.fields[field].arguments, node.arguments)
    modifies state`strings, state`closing
    ensures Ready(state, schema) && old(state.strings) <= state.strings
    ensures r.Ok? <==>
            forall i | 0 <= i < |directives| ::
              DirectiveAuthorizes(schema, parse, parent, leads, node.arguments, directives[i])
    ensures r.Ok? ==>
              Written(state, schema, DirectivesAuthorized(c, parse, parent, leads, field, directives, |directives|))
  {
    hide Stands, Consistent, Interned, InputEntriesStand, ClosingStands, AuthorizedStands, TextSelects, TextArguments,
         MetadataOk, FieldAuthorized, WithAuthorized, Covers;
    for i := 0 to |directives|
      invariant Written(state, schema, DirectivesAuthorized(c, parse, parent, leads, field, directives, i))
      invariant old(state.strings) <= state.strings
      invariant forall j | 0 <= j < i :: DirectiveAuthorizes(schema, parse, parent, leads, node.arguments, directives[j])
    {
      if directives[i].name == AUTHORIZED {
        ghost var before, done := state.strings, DirectivesAuthorized(c, parse, parent, leads, field, directives, i);
        var x := ReadAuthorized(state, parse, parent, leads, field, directives[i], schema, node);
        if !x.Ok? {
          return if x.Err? then Err(x.error) else Panic;
        }
        ClosingGrows(before, state.strings, state.tables, state.source.fields, state.closing, done);
        PushAuthorized(state, field, x.value, schema, done, FieldAuthorized(parse, parent, leads, directives[i]));
      }
    }
    return Ok(());
  }

  method AuthorizeField(
    state: State, parse: Parser, parent: Definition, node: FieldNode, ghost schema: Schema, ghost c: ClosingSource)
    returns (r: Result<()>)
    requires Written(state, schema, c)
    modifies state`strings, state`closing
    ensures Ready(state, schema) && old(state.strings) <= state.strings
    ensures r.Ok? <==> FieldAuthorizes(schema, parse, parent, node)
    ensures r.Ok? ==> Written(state, schema, FieldAuthorizedIn(c, schema, parse, parent, node))
  {
    hide Stands, Consistent, Interned, InputEntriesStand, ClosingStands, DirectiveAuthorizes, Covers;
    FieldReached(state.Snapshot(), state.source, schema, parent, node.name);
    if (parent, node.name) !in state.tables.selectionMap {
      return Panic;
    }
    var f := state.tables.selectionMap[(parent, node.name)];
    r := AuthorizeDirectives(state, parse, parent, state.tables.fields[f].ty.definition, f, node.directives, schema,
                             NodeNamed(schema, parent, node.name).value, c);
  }

  method AuthorizeFields(
    state: State, parse: Parser, parent: Definition, nodes: seq<FieldNode>, ghost schema: Schema, ghost c: ClosingSource)
    returns (r: Result<()>)
    requires Written(state, schema, c)
    modifies state`strings, state`closing
    ensures Ready(state, schema) && old(state.strings) <= state.strings
    ensures r.Ok? <==> AllAuthorize(schema, parse, parent, nodes)
    ensures r.Ok? ==> Written(state, schema, FieldsAuthorized(c, schema, parse, parent, nodes, |nodes|))
  {
    hide Ready, ClosingStands, FieldAuthorizes, FieldAuthorizedIn;
    for i := 0 to |nodes|
      invariant Written(state, schema, FieldsAuthorized(c, schema, parse, parent, nodes, i))
      invariant old(state.strings) <= state.strings
      invariant forall j | 0 <= j < i :: FieldAuthorizes(schema, parse, parent, nodes[j])
    {
      var x := AuthorizeField(state, parse, parent, nodes[i], schema,
                              FieldsAuthorized(c, schema, parse, parent, nodes, i));
      if !x.Ok? {
        return x;
      }
    }
    return Ok(());
  }

  // ----- The three loops -----

  /** The directives on the fields of one definition. */
  method CloseFieldsOf(state: State, parse: Parser, d: DefinitionNode, ghost schema: Schema, ghost c: ClosingSource)
    returns (r: Result<()>)
    requires Written(state, schema, c)
    modifies state`strings, state`closing
    ensures Ready(state, schema) && old(state.strings) <= state.strings
    ensures r.Ok? <==> FieldsClose(schema, parse, d)
    ensures r.Ok? ==> Written(state, schema, WithFieldsClosed(c, schema, parse, d))
  {
    hide Stands, Consistent, Interned, InputEntriesStand, ClosingStands, AllJoin, AllAuthorize, DefaultGraphs,
         DefaultGraphsOk;
    if !IsType(d) || FieldNodes(d.ty.kind).None? {
      return Ok(());
    }
    if d.ty.name !in state.tables.definitionNames {
      return Panic;
    }
    var parent, nodes := state.tables.definitionNames[d.ty.name], FieldNodes(d.ty.kind).value;
    var defaults := ReadDefaultGraphs(state.graphNames, d.ty.directives);
    if !defaults.Ok? {
      return Panic;
    }
    r := JoinFields(state, parse, parent, defaults.value, nodes, schema, c);
    if r.Ok? {
      r := AuthorizeFields(state, parse, parent, nodes, schema,
                           FieldsJoined(c, schema, parse, parent, defaults.value, nodes, |nodes|));
    }
  }

  method CloseFields(
    state: State, parse: Parser, document: seq<DefinitionNode>, ghost schema: Schema) returns (r: Result<()>)
    requires Written(state, schema, StartClosing(schema))
    modifies state`strings, state`closing
    ensures Ready(state, schema) && old(state.strings) <= state.strings
    ensures r.Ok? <==> forall i | 0 <= i < |document| :: FieldsClose(schema, parse, document[i])
    ensures r.Ok? ==> Written(state, schema, FieldsClosed(schema, parse, document, |document|))
  {
    hide Ready, ClosingStands, FieldsClose, WithFieldsClosed;
    for i := 0 to |document|
      invariant Written(state, schema, FieldsClosed(schema, parse, document, i)) && old(state.strings) <= state.strings
      invariant forall j | 0 <= j < i :: FieldsClose(schema, parse, document[j])
    {
      var x := CloseFieldsOf(state, parse, document[i], schema, FieldsClosed(schema, parse, document, i));
      if !x.Ok? {
        return x;
      }
    }
    return Ok(());
  }

  /** The first authorization on a type. */
  method AuthorizeType(state: State, parse: Parser, d: DefinitionNode, ghost schema: Schema, ghost c: ClosingSource)
    returns (r: Result<()>)
    requires Written(state, schema, c)
    modifies state`strings, state`closing
    ensures Ready(state, schema) && old(state.strings) <= state.strings
    ensures r.Ok? <==> TypeAuthorizes(schema, parse, d)
    ensures r.Ok? ==>
              var a := Authorization(schema, d);
              Written(state, schema,
                      if a.Some? then WithTypeAuthorized(c, TypeAuthorized(parse, a.value.0, a.value.1)) else c)
  {
    hide Stands, Consistent, Interned, InputEntriesStand, ClosingStands, SetStands, MetadataStands, TextSelects,
         MetadataOk, WithTypeAuthorized;
    if !IsType(d) || FindDirective(d.ty.directives, AUTHORIZED).None? || d.ty.name !in state.tables.definitionNames {
      return Ok(());
    }
    var on, directive := state.tables.definitionNames[d.ty.name], FindDirective(d.ty.directives, AUTHORIZED).value;
    ghost var t, first := state.tables, state.strings;
    var items := AttachText(state, parse, TextArgument(directive, "fields"), on, schema);
    if !items.Ok? {
      return if items.Err? then Err(items.error) else Panic;
    }
    ghost var second := state.strings;
    var metadata := ReadMetadata(state, directive, schema);
    if !metadata.Ok? {
      return Panic;
    }
    OptionGrows(second, state.strings, t, on, items.value, SelectionIn(parse, TextArgument(directive, "fields")));
    ClosingGrows(first, state.strings, t, state.source.fields, state.closing, c);
    PushTypeAuthorized(state, on, Authorized(items.value, None, None, metadata.value), schema, c,
                       TypeAuthorized(parse, on, directive));
    return Ok(());
  }

  method PushTypeAuthorized(
    state: State, on: Definition, a: Authorized, ghost schema: Schema, ghost c: ClosingSource, ghost s: AuthorizedSource)
    requires Written(state, schema, c) && AuthorizedStands(state.strings, state.tables, a, s) && s.on == on
    modifies state`closing
    ensures Written(state, schema, WithTypeAuthorized(c, s))
  {
    hide Ready, AllAuthorized, AllKeys, ExtrasStand, AuthorizedStands;
    AddAuthorized(state.strings, state.tables, state.closing.authorized, c.authorized, a, s);
    var id := |state.closing.authorized|;
    state.closing := state.closing.(
      authorized := state.closing.authorized + [a],
      byObject := if on.Object? then state.closing.byObject + [(on.id, id)] else state.closing.byObject,
      byInterface := if on.Interface? then state.closing.byInterface + [(on.id, id)] else state.closing.byInterface);
  }

  method AuthorizeTypes(
    state: State, parse: Parser, document: seq<DefinitionNode>, ghost schema: Schema, ghost c: ClosingSource)
    returns (r: Result<()>)
    requires Written(state, schema, c)
    modifies state`strings, state`closing
    ensures Ready(state, schema) && old(state.strings) <= state.strings
    ensures r.Ok? <==> forall i | 0 <= i < |document| :: TypeAuthorizes(schema, parse, document[i])
    ensures r.Ok? ==> Written(state, schema, TypesAuthorized(c, schema, parse, document, |document|))
  {
    hide Ready, ClosingStands, TypeAuthorizes, Authorization, WithTypeAuthorized, TypeAuthorized;
    for i := 0 to |document|
      invariant Written(state, schema, TypesAuthorized(c, schema, parse, document, i))
      invariant old(state.strings) <= state.strings
      invariant forall j | 0 <= j < i :: TypeAuthorizes(schema, parse, document[j])
    {
      var x := AuthorizeType(state, parse, document[i], schema, TypesAuthorized(c, schema, parse, document, i));
      if !x.Ok? {
        return x;
      }
    }
    return Ok(());
  }

  /** Reads one key of a type. */
  method ReadKey(
    state: State, parse: Parser, on: Definition, d: DirectiveNode, ghost schema: Schema) returns (r: Result<Key>)
    requires Ready(state, schema) && d.name == JOIN_TYPE
    modifies state`strings
    ensures Ready(state, schema) && old(state.strings) <= state.strings
    ensures r.Ok? <==> KeyOk(schema, parse, on, d)
    ensures r.Ok? ==>
              KeyStands(state.strings, state.tables, on, [r.value], [KeyOf(schema.scope.graphs, parse, d)], 0)
  {
    hide Stands, Consistent, Interned, InputEntriesStand, TextSelects;
    var graph := GraphOf(state.graphNames, d);
    if graph.None? {
      return Panic;
    }
    var items := AttachText(state, parse, TextArgument(d, "key"), on, schema);
    if !items.Ok? {
      return if items.Err? then Err(items.error) else Panic;
    }
    return Ok(Key(graph.value, if items.value.Some? then items.value.value else [],
                  IsSet(d, "isInterfaceObject"), GetArgument(d.arguments, "resolvable") != Some(Boolean(false))));
  }

  method KeysOf(
    state: State, parse: Parser, on: Definition, directives: seq<DirectiveNode>, ghost schema: Schema,
    ghost c: ClosingSource)
    returns (r: Result<()>)
    requires Written(state, schema, c)
    modifies state`strings, state`closing
    ensures Ready(state, schema) && old(state.strings) <= state.strings
    ensures r.Ok? <==> AllKeysOk(schema, parse, on, directives)
    ensures r.Ok? ==> Written(state, schema, WithKeys(c, schema.scope.graphs, parse, on, directives, |directives|))
  {
    hide Stands, Consistent, Interned, InputEntriesStand, ClosingStands, KeyStands, WithKey, KeyOf, TextSelects;
    ghost var graphs := schema.scope.graphs;
    for i := 0 to |directives|
      invariant Written(state, schema, WithKeys(c, graphs, parse, on, directives, i))
      invariant old(state.strings) <= state.strings
      invariant forall j | 0 <= j < i :: KeyOk(schema, parse, on, directives[j])
    {
      if directives[i].name == JOIN_TYPE {
        ghost var before, done := state.strings, WithKeys(c, graphs, parse, on, directives, i);
        var x := ReadKey(state, parse, on, directives[i], schema);
        if !x.Ok? {
          return if x.Err? then Err(x.error) else Panic;
        }
        ClosingGrows(before, state.strings, state.tables, state.source.fields, state.closing, done);
        PushKey(state, on, x.value, schema, done, KeyOf(graphs, parse, directives[i]));
      }
    }
    return Ok(());
  }

  /** Keys of other types are read but not kept. */
  method PushKey(
    state: State, on: Definition, key: Key, ghost schema: Schema, ghost c: ClosingSource, ghost source: KeySource)
    requires Written(state, schema, c) && KeyStands(state.strings, state.tables, on, [key], [source], 0)
    modifies state`closing
    ensures Written(state, schema, WithKey(c, on, source))
  {
    hide Ready, AllAuthorized, AllKeys, ExtrasStand, KeyStands;
    if on.Object? || on.Interface? {
      AddKey(state.strings, state.tables, state.closing.keys, c.keys, on, key, source);
      var keys := state.closing.keys;
      state.closing := state.closing.(keys := keys[on := (if on in keys then keys[on] else []) + [key]]);
    }
  }

  method CloseKeys(
    state: State, parse: Parser, document: seq<DefinitionNode>, ghost schema: Schema, ghost c: ClosingSource)
    returns (r: Result<()>)
    requires Written(state, schema, c)
    modifies state`strings, state`closing
    ensures Ready(state, schema) && old(state.strings) <= state.strings
    ensures r.Ok? <==> forall i | 0 <= i < |document| :: KeysClose(schema, parse, document[i])
    ensures r.Ok? ==> Written(state, schema, KeysClosed(c, schema, parse, document, |document|))
  {
    hide Stands, Consistent, Interned, InputEntriesStand, ClosingStands, AllKeysOk, WithKeys;
    for i := 0 to |document|
      invariant Written(state, schema, KeysClosed(c, schema, parse, document, i)) && old(state.strings) <= state.strings
      invariant forall j | 0 <= j < i :: KeysClose(schema, parse, document[j])
    {
      var d := document[i];
      if IsType(d) && d.ty.name in state.tables.definitionNames {
        var x := KeysOf(state, parse, state.tables.definitionNames[d.ty.name], d.ty.directives, schema,
                        KeysClosed(c, schema, parse, document, i));
        if !x.Ok? {
          return x;
        }
      }
    }
    return Ok(());
  }

  /** Everything that needs the complete tables. */
  method IngestSelectionSets(state: State, parse: Parser, document: seq<DefinitionNode>, ghost schema: Schema)
    returns (r: Result<()>)
    requires Written(state, schema, StartClosing(schema))
    modifies state`strings, state`closing
    ensures Ready(state, schema) && old(state.strings) <= state.strings
    ensures r.Ok? <==> Closes(schema, parse, document)
    ensures r.Ok? ==> Written(state, schema, Closed(schema, parse, document))
  {
    hide Ready, ClosingStands, FieldsClose, TypeAuthorizes, KeysClose, FieldsClosed, TypesAuthorized, KeysClosed;
    r := CloseFields(state, parse, document, schema);
    if !r.Ok? {
      return;
    }
    ghost var fields := FieldsClosed(schema, parse, document, |document|);
    r := AuthorizeTypes(state, parse, document, schema, fields);
    if !r.Ok? {
      return;
    }
    r := CloseKeys(state, parse, document, schema, TypesAuthorized(fields, schema, parse, document, |document|));
  }
}
