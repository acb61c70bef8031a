/**
 The selections in federation directives, decided on the document alone: which fields, arguments and
 types they may name.  On the tables of an ingested document resolving succeeds in exactly these cases.
 */
module FederatedSelecting {
  import opened Common
  import opened Wrapping
  import opened TypeRefs
  import opened FederatedModel
  import opened FederatedJoin
  import opened FederatedRecords
  import opened FederatedLayout

  /** The types and subgraphs, the fields in the order they were read, and the fields of input objects. */
  datatype Schema = Schema(scope: Scope, fields: seq<Origin>, inputs: Entries)

  // ----- Fields by name -----

  predicate IsField(origin: Origin, parent: Definition, name: string) {
    origin.Declared? && origin.parent == parent && origin.node.name == name
  }

  /** The last field of a type with the given name among the first `n`. */
  function Picked(fields: seq<Origin>, parent: Definition, name: string, n: nat): Option<nat>
    requires n <= |fields|
  {
    if n == 0 then None
    else if IsField(fields[n - 1], parent, name) then Some(n - 1)
    else Picked(fields, parent, name, n - 1)
  }

  function FieldNamed(schema: Schema, parent: Definition, name: string): Option<nat> {
    Picked(schema.fields, parent, name, |schema.fields|)
  }

  lemma {:induction false} PickedIsLast(fields: seq<Origin>, parent: Definition, name: string, n: nat)
    requires n <= |fields|
    ensures var p := Picked(fields, parent, name, n);
            && (p.Some? ==> p.value < n && IsField(fields[p.value], parent, name))
            && (forall i | 0 <= i < n && IsField(fields[i], parent, name) :: p.Some? && i <= p.value)
  {
    if n > 0 {
      PickedIsLast(fields, parent, name, n - 1);
    }
  }

  /** The selection map finds the last declared field of a type and name. */
  lemma PickedIsEntry(
    selectionMap: map<(Definition, string), nat>, fields: seq<Origin>, parent: Definition, name: string)
    requires EntriesStand(selectionMap, fields)
    ensures var p := Picked(fields, parent, name, |fields|);
            && (p.Some? <==> (parent, name) in selectionMap)
            && (p.Some? ==> selectionMap[(parent, name)] == p.value)
  {
    var p, key := Picked(fields, parent, name, |fields|), (parent, name);
    PickedIsLast(fields, parent, name, |fields|);
    if key in selectionMap {
      assert EntryAt(selectionMap, fields, key);
      assert IsField(fields[selectionMap[key]], parent, name);
    }
    if p.Some? {
      assert EnteredAt(selectionMap, fields, p.value);
    }
  }

  // ----- Arguments by name -----

  /** The first input value with the given name. */
  function FirstNamed(nodes: seq<InputValueNode>, name: string): Option<nat> {
    if nodes == [] then None
    else if nodes[0].name == name then Some(0)
    else
      var rest := FirstNamed(nodes[1..], name);
      if rest.Some? then Some(rest.value + 1) else None
  }

  lemma {:induction false} FirstNamedIn(nodes: seq<InputValueNode>, name: string)
    ensures FirstNamed(nodes, name).Some? ==>
              && FirstNamed(nodes, name).value < |nodes| && nodes[FirstNamed(nodes, name).value].name == name
              && forall j | 0 <= j < FirstNamed(nodes, name).value :: nodes[j].name != name
    ensures FirstNamed(nodes, name).None? ==> forall j | 0 <= j < |nodes| :: nodes[j].name != name
  {
    if nodes != [] {
      var rest := nodes[1..];
      FirstNamedIn(rest, name);
      assert forall j | 0 < j < |nodes| :: nodes[j] == rest[j - 1];
    }
  }

  predicate NamedAt(strings: seq<string>, records: seq<InputValueRecord>, inputs: seq<InputValueNode>, i: nat) {
    i < |records| && i < |inputs| && Denotes(strings, records[i].name, inputs[i].name)
  }

  /** Looking an argument up in its window is looking it up in the declared list. */
  lemma {:induction false} FindsFirst(
    strings: seq<string>, records: seq<InputValueRecord>, inputs: seq<InputValueNode>, w: Window,
    nodes: seq<InputValueNode>, name: string)
    requires Covers(inputs, w, nodes) && |records| == |inputs|
    requires forall i | 0 <= i < |records| :: NamedAt(strings, records, inputs, i)
    ensures var first := FirstNamed(nodes, name);
            FindArgument(strings, records, w, name) == if first.Some? then Some(w.start + first.value) else None
    decreases |nodes|
  {
    if nodes != [] {
      assert NamedAt(strings, records, inputs, w.start);
      assert inputs[w.start] == inputs[w.start..w.start + w.len][0];
      var rest := Window(w.start + 1, w.len - 1);
      assert inputs[rest.start..rest.start + rest.len] == inputs[w.start..w.start + w.len][1..];
      FindsFirst(strings, records, inputs, rest, nodes[1..], name);
    }
  }

  lemma InputsAreNamed(g: Graph, s: Source)
    requires Stands(g, s)
    ensures |g.tables.inputValues| == |s.inputs|
    ensures forall i | 0 <= i < |g.tables.inputValues| :: NamedAt(g.strings, g.tables.inputValues, s.inputs, i)
  {
    var t := g.tables;
    forall i | 0 <= i < |t.inputValues|
      ensures NamedAt(g.strings, t.inputValues, s.inputs, i)
    {
      assert InputAt(g.strings, t.definitionNames, t.enumValues, s.directives, t.inputValues, s.inputs, i);
    }
  }

  // ----- Selections -----

  /** The type that a field leads to. */
  function Leads(schema: Schema, ty: TypeRef): Option<Definition> {
    if Name(ty) in schema.scope.names then Some(schema.scope.names[Name(ty)]) else None
  }

  predicate TakesArgument(n: FieldNode, a: Argument) {
    FirstNamed(n.arguments, a.name).Some? && !HasVariable(a.value)
  }

  /** Every field is declared on the type reached and takes the given arguments, every inline fragment
      names a type, and there are no spreads. */
  predicate Selects(schema: Schema, target: Definition, s: SelectionNode)
    decreases s
  {
    match s
    case FieldSelection(name, arguments, items) =>
      var f := FieldNamed(schema, target, name);
      && f.Some? && f.value < |schema.fields| && schema.fields[f.value].Declared?
      && var node := schema.fields[f.value].node;
      && (forall i | 0 <= i < |arguments| :: TakesArgument(node, arguments[i]))
      && Leads(schema, node.ty).Some?
      && (forall i | 0 <= i < |items| :: Selects(schema, Leads(schema, node.ty).value, items[i]))
    case InlineFragment(on, items) =>
      && on.Some? && on.value in schema.scope.names
      && (forall i | 0 <= i < |items| :: Selects(schema, schema.scope.names[on.value], items[i]))
    case FragmentSpread(_) => false
  }

  predicate AllSelect(schema: Schema, target: Definition, items: seq<SelectionNode>) {
    forall i | 0 <= i < |items| :: Selects(schema, target, items[i])
  }

  /** The tables hold what the document declares. */
  ghost predicate Agrees(g: Graph, s: Source, schema: Schema) {
    Stands(g, s) && g.tables.definitionNames == schema.scope.names && s.fields == schema.fields
  }

  /** What the tables know of a field that is found by type and name. */
  lemma FoundField(g: Graph, s: Source, schema: Schema, target: Definition, name: string)
    requires Agrees(g, s, schema)
    ensures FieldNamed(schema, target, name).Some? <==> (target, name) in g.tables.selectionMap
    ensures (target, name) in g.tables.selectionMap ==>
              var f := g.tables.selectionMap[(target, name)];
              && FieldNamed(schema, target, name) == Some(f) && f < |g.tables.fields| && f < |schema.fields|
              && IsField(schema.fields[f], target, name)
              && Leads(schema, schema.fields[f].node.ty) == Some(g.tables.fields[f].ty.definition)
              && Covers(s.inputs, g.tables.fields[f].arguments, schema.fields[f].node.arguments)
  {
    var t := g.tables;
    PickedIsEntry(t.selectionMap, s.fields, target, name);
    PickedIsLast(s.fields, target, name, |s.fields|);
    if (target, name) in t.selectionMap {
      var f := t.selectionMap[(target, name)];
      assert FieldAt(g.strings, t.definitionNames, s.directives, s.inputs, t.fields, s.fields, f);
    }
  }

  lemma ArgumentsTaken(g: Graph, s: Source, schema: Schema, target: Definition, name: string, arguments: seq<Argument>)
    requires Agrees(g, s, schema) && (target, name) in g.tables.selectionMap
    ensures var f := g.tables.selectionMap[(target, name)];
            && f < |schema.fields| && schema.fields[f].Declared?
            && (KnownArguments(g.strings, g.tables, f, arguments) <==>
                forall i | 0 <= i < |arguments| :: TakesArgument(schema.fields[f].node, arguments[i]))
  {
    FoundField(g, s, schema, target, name);
    InputsAreNamed(g, s);
    var t, f := g.tables, g.tables.selectionMap[(target, name)];
    var node := schema.fields[f].node;
    forall i | 0 <= i < |arguments|
      ensures KnownArgument(g.strings, t, f, arguments[i]) <==> TakesArgument(node, arguments[i])
    {
      FindsFirst(g.strings, t.inputValues, s.inputs, t.fields[f].arguments, node.arguments, arguments[i].name);
    }
  }

  /** A selection resolves against the tables exactly when the document lets it. */
  lemma {:induction false} ResolvesExactly(
    g: Graph, s: Source, schema: Schema, target: Definition, selection: SelectionNode)
    requires Agrees(g, s, schema)
    ensures Resolvable(g.strings, g.tables, target, selection) <==> Selects(schema, target, selection)
    decreases selection
  {
    match selection
    case FieldSelection(name, arguments, items) =>
      FoundField(g, s, schema, target, name);
      if (target, name) in g.tables.selectionMap {
        ArgumentsTaken(g, s, schema, target, name, arguments);
        var ty := g.tables.fields[g.tables.selectionMap[(target, name)]].ty.definition;
        forall i | 0 <= i < |items|
          ensures Resolvable(g.strings, g.tables, ty, items[i]) <==> Selects(schema, ty, items[i])
        {
          ResolvesExactly(g, s, schema, ty, items[i]);
        }
      }
    case InlineFragment(on, items) =>
      if on.Some? && on.value in g.tables.definitionNames {
        var ty := g.tables.definitionNames[on.value];
        forall i | 0 <= i < |items|
          ensures Resolvable(g.strings, g.tables, ty, items[i]) <==> Selects(schema, ty, items[i])
        {
          ResolvesExactly(g, s, schema, ty, items[i]);
        }
      }
    case FragmentSpread(_) =>
  }

  lemma AllResolveExactly(g: Graph, s: Source, schema: Schema, target: Definition, items: seq<SelectionNode>)
    requires Agrees(g, s, schema)
    ensures FateOfAll(g.strings, g.tables, target, items).Resolves? <==> AllSelect(schema, target, items)
  {
    FateAllResolves(g.strings, g.tables, target, items);
    forall i | 0 <= i < |items|
      ensures Resolvable(g.strings, g.tables, target, items[i]) <==> Selects(schema, target, items[i])
    {
      ResolvesExactly(g, s, schema, target, items[i]);
    }
  }

  // ----- Selections of arguments -----

  /** An input object needs a selection of its fields; other types take none. */
  predicate InputSelects(schema: Schema, ty: TypeRef, items: seq<SelectionNode>)
    decreases items, 1
  {
    && Leads(schema, ty).Some?
    && if Leads(schema, ty).value.InputObject? then
         items != [] && forall i | 0 <= i < |items| :: InputFieldSelects(schema, Leads(schema, ty).value.id, items[i])
       else items == []
  }

  predicate InputFieldSelects(schema: Schema, id: nat, s: SelectionNode)
    decreases s, 0
  {
    && s.FieldSelection? && (id, s.name) in schema.inputs
    && InputSelects(schema, schema.inputs[(id, s.name)].ty, s.items)
  }

  predicate ArgumentSelects(schema: Schema, arguments: seq<InputValueNode>, s: SelectionNode) {
    && s.FieldSelection? && FirstNamed(arguments, s.name).Some?
    && FirstNamed(arguments, s.name).value < |arguments|
    && InputSelects(schema, arguments[FirstNamed(arguments, s.name).value].ty, s.items)
  }

  predicate ArgumentsSelect(schema: Schema, arguments: seq<InputValueNode>, items: seq<SelectionNode>) {
    forall i | 0 <= i < |items| :: ArgumentSelects(schema, arguments, items[i])
  }

  /** A resolved selection of arguments names, item by item, what the source names. */
  ghost predicate DenotesInput(strings: seq<string>, t: Tables, g: InputItem, s: SelectionNode)
    decreases s
  {
    && s.FieldSelection? && g.input < |t.inputValues| && Denotes(strings, t.inputValues[g.input].name, s.name)
    && |g.items| == |s.items|
    && forall i | 0 <= i < |s.items| :: DenotesInput(strings, t, g.items[i], s.items[i])
  }

  ghost predicate DenotesInputs(strings: seq<string>, t: Tables, g: seq<InputItem>, items: seq<SelectionNode>) {
    |g| == |items| && forall i | 0 <= i < |items| :: DenotesInput(strings, t, g[i], items[i])
  }

  lemma {:induction false} InputGrows(
    strings: seq<string>, more: seq<string>, t: Tables, g: InputItem, s: SelectionNode)
    requires strings <= more && DenotesInput(strings, t, g, s)
    ensures DenotesInput(more, t, g, s)
    decreases s
  {
    forall i | 0 <= i < |s.items|
      ensures DenotesInput(more, t, g.items[i], s.items[i])
    {
      InputGrows(strings, more, t, g.items[i], s.items[i]);
    }
  }
}
