/**
 What the names of a document stand for, told by the positions of definitions: types, subgraphs, the root query
 type, and the fields of input objects.
 */
module FederatedNames {
  import opened Common
  import opened FederatedModel
  import opened FederatedJoin
  import opened FederatedRecords
  import opened FederatedLayout
  import opened FederatedDefinitions
  import opened FederatedFinal

  // ----- Types -----

  /** A type definition or extension that gets a record; the enum of subgraphs does not. */
  predicate IsTypeNode(d: DefinitionNode) {
    d.TypeDefinition? && !(d.ty.kind.EnumKind? && d.ty.name == "join__Graph")
  }

  /** How many of the first `n` definitions meet a condition. */
  function Count(document: seq<DefinitionNode>, keep: DefinitionNode -> bool, n: nat): nat
    requires n <= |document|
  {
    if n == 0 then 0 else Count(document, keep, n - 1) + if keep(document[n - 1]) then 1 else 0
  }

  const OBJECTS := (d: DefinitionNode) => d.TypeDefinition? && d.ty.kind.ObjectKind?
  const INTERFACES := (d: DefinitionNode) => d.TypeDefinition? && d.ty.kind.InterfaceKind?
  const UNIONS := (d: DefinitionNode) => d.TypeDefinition? && d.ty.kind.UnionKind?
  const INPUT_OBJECTS := (d: DefinitionNode) => d.TypeDefinition? && d.ty.kind.InputObjectKind?
  const TYPES := (d: DefinitionNode) => IsTypeNode(d)

  /** Records are numbered in the order of their definitions, each kind on its own. */
  lemma {:induction false} RecordsCounted(document: seq<DefinitionNode>, n: nat)
    requires n <= |document|
    ensures var r := Registered(document, n);
            && |r.types| == Count(document, TYPES, n)
            && |r.objects| == Count(document, OBJECTS, n)
            && |r.interfaces| == Count(document, INTERFACES, n)
            && |r.unions| == Count(document, UNIONS, n)
            && r.inputObjects == Count(document, INPUT_OBJECTS, n)
  {
    if n > 0 {
      RecordsCounted(document, n - 1);
    }
  }

  /** A name stands for the last type defined under it: its kind, and its number among the records of that kind. */
  lemma NameStandsForLast(document: seq<DefinitionNode>, i: nat)
    requires i < |document| && IsTypeNode(document[i])
    requires document[i].ty.name !in {"String", "ID", "Float", "Boolean", "Int"}
    requires forall j | i < j < |document| && IsTypeNode(document[j]) :: document[j].ty.name != document[i].ty.name
    ensures document[i].ty.name in Definitions(document).names
    ensures Definitions(document).names[document[i].ty.name] ==
            match document[i].ty.kind
            case ScalarKind => Scalar(Count(document, TYPES, i))
            case ObjectKind(_, _) => Object(Count(document, OBJECTS, i))
            case InterfaceKind(_, _) => Interface(Count(document, INTERFACES, i))
            case UnionKind(_) => Union(Count(document, UNIONS, i))
            case EnumKind(_) => EnumType(Count(document, TYPES, i))
            case InputObjectKind(_) => InputObject(Count(document, INPUT_OBJECTS, i))
  {
    RecordsCounted(document, i);
    LastDefinitionNames(document, i);
  }

  lemma {:induction false} NamesAreRegistered(document: seq<DefinitionNode>, name: string, n: nat)
    requires n <= |document|
    ensures name in Registered(document, n).names <==>
            exists i :: 0 <= i < n && IsTypeNode(document[i]) && document[i].ty.name == name
  {
    if n > 0 {
      NamesAreRegistered(document, name, n - 1);
    }
  }

  lemma {:induction false} ScalarNames(r: Registry, name: string, n: nat)
    requires n <= |BUILTIN_SCALARS|
    ensures name in WithScalars(r, n).names <==> name in r.names || name in BUILTIN_SCALARS[..n]
    ensures name in BUILTIN_SCALARS[..n] ==> WithScalars(r, n).names[name].Scalar?
  {
    if n > 0 {
      ScalarNames(r, name, n - 1);
      assert BUILTIN_SCALARS[..n] == BUILTIN_SCALARS[..n - 1] + [BUILTIN_SCALARS[n - 1]];
    }
  }

  /** The known names are those of the document and of five scalars, which are scalars whatever the document says. */
  lemma KnownNames(document: seq<DefinitionNode>, name: string)
    ensures name in Definitions(document).names <==>
            || name in {"String", "ID", "Float", "Boolean", "Int"}
            || exists i :: 0 <= i < |document| && IsTypeNode(document[i]) && document[i].ty.name == name
    ensures name in {"String", "ID", "Float", "Boolean", "Int"} ==> Definitions(document).names[name].Scalar?
  {
    NamesAreRegistered(document, name, |document|);
    ScalarNames(Registered(document, |document|), name, |BUILTIN_SCALARS|);
    assert BUILTIN_SCALARS[..|BUILTIN_SCALARS|] == ["String", "ID", "Float", "Boolean", "Int"];
  }

  // ----- Enum values -----

  lemma {:induction false} ValueKeysAt(ty: nat, values: seq<EnumValueNode>, n: nat, key: (nat, string))
    requires n <= |values|
    ensures key in ValueKeys(ty, values, n) <==> key.0 == ty && exists i :: 0 <= i < n && values[i].name == key.1
  {
    if n > 0 {
      ValueKeysAt(ty, values, n - 1, key);
    }
  }

  /** Enum `i` of the document lists a value of this name. */
  predicate ListsValue(document: seq<DefinitionNode>, i: nat, name: string) {
    && i < |document| && IsTypeNode(document[i]) && document[i].ty.kind.EnumKind?
    && exists k :: 0 <= k < |document[i].ty.kind.values| && document[i].ty.kind.values[k].name == name
  }

  /** Enum values are known under the record of their own enum and their name. */
  lemma {:induction false} EnumValuesAreListed(document: seq<DefinitionNode>, key: (nat, string), n: nat)
    requires n <= |document|
    ensures key in Registered(document, n).enumKeys <==>
            exists i: nat :: i < n && ListsValue(document, i, key.1) && key.0 == Count(document, TYPES, i)
  {
    if n > 0 {
      EnumValuesAreListed(document, key, n - 1);
      RecordsCounted(document, n - 1);
      var d := document[n - 1];
      if IsTypeNode(d) && d.ty.kind.EnumKind? {
        ValueKeysAt(Count(document, TYPES, n - 1), d.ty.kind.values, |d.ty.kind.values|, key);
      }
    }
  }

  // ----- Subgraphs -----

  /** The values of the enum of subgraphs, over the first `n` definitions. */
  function GraphValues(document: seq<DefinitionNode>, n: nat): seq<EnumValueNode>
    requires n <= |document|
  {
    if n == 0 then []
    else
      var before, d := GraphValues(document, n - 1), document[n - 1];
      if d.TypeDefinition? && d.ty.kind.EnumKind? && d.ty.name == "join__Graph" then before + d.ty.kind.values else before
  }

  /** The subgraph is described by the first `join__graph` directive on the value. */
  ghost predicate DescribedBy(value: EnumValueNode, graph: Subgraph) {
    exists d :: && FirstDirective(value.directives, "join__graph", d)
                && FirstText(d, "name", graph.name) && FirstText(d, "url", graph.url)
  }

  /** The last value of a name is at this position. */
  predicate LastValue(values: seq<EnumValueNode>, name: string, i: nat) {
    i < |values| && values[i].name == name && forall j | i < j < |values| :: values[j].name != name
  }

  ghost predicate GraphsAt(values: seq<EnumValueNode>, subgraphs: seq<Subgraph>, graphNames: map<string, nat>) {
    && |subgraphs| == |values|
    && (forall i | 0 <= i < |values| :: DescribedBy(values[i], subgraphs[i]))
    && (forall name: string, i: nat :: name in graphNames && graphNames[name] == i <==> LastValue(values, name, i))
  }

  lemma OneGraph(
    values: seq<EnumValueNode>, subgraphs: seq<Subgraph>, graphNames: map<string, nat>, value: EnumValueNode,
    graph: Subgraph)
    requires GraphsAt(values, subgraphs, graphNames) && SubgraphOf(value.directives) == Some(graph)
    ensures GraphsAt(values + [value], subgraphs + [graph], graphNames[value.name := |subgraphs|])
  {
    SubgraphDescribed(value.directives, graph);
    var more, names := values + [value], graphNames[value.name := |subgraphs|];
    forall name: string, i: nat
      ensures name in names && names[name] == i <==> LastValue(more, name, i)
    {
      assert name in graphNames && graphNames[name] == i <==> LastValue(values, name, i);
      assert more[|values|] == value;
      assert forall j | 0 <= j < |values| :: more[j] == values[j];
    }
  }

  lemma {:induction false} GraphsListed(r: Registry, before: seq<EnumValueNode>, values: seq<EnumValueNode>, n: nat)
    requires n <= |values| && GraphsOk(values, n) && GraphsAt(before, r.subgraphs, r.graphNames)
    ensures var more := WithGraphs(r, values, n); GraphsAt(before + values[..n], more.subgraphs, more.graphNames)
  {
    hide GraphsAt, SubgraphOf;
    if n == 0 {
      assert before + values[..0] == before;
    } else {
      GraphsListed(r, before, values, n - 1);
      var more, graph := WithGraphs(r, values, n - 1), SubgraphOf(values[n - 1].directives);
      OneGraph(before + values[..n - 1], more.subgraphs, more.graphNames, values[n - 1], graph.value);
      assert before + values[..n] == before + values[..n - 1] + [values[n - 1]];
    }
  }

  lemma {:induction false} GraphsRegistered(document: seq<DefinitionNode>, n: nat)
    requires n <= |document| && DefinitionsOk(document, n)
    ensures var r := Registered(document, n); GraphsAt(GraphValues(document, n), r.subgraphs, r.graphNames)
  {
    if n > 0 {
      hide GraphsAt, WithGraphs, GraphsOk;
      GraphsRegistered(document, n - 1);
      var d := document[n - 1];
      if ListsGraphs(d) {
        GraphsListed(Registered(document, n - 1), GraphValues(document, n - 1), d.ty.kind.values, |d.ty.kind.values|);
        assert d.ty.kind.values[..|d.ty.kind.values|] == d.ty.kind.values;
      }
    }
  }

  lemma {:induction false} ScalarsKeepGraphs(r: Registry, n: nat)
    requires n <= |BUILTIN_SCALARS|
    ensures WithScalars(r, n).subgraphs == r.subgraphs && WithScalars(r, n).graphNames == r.graphNames
  {
    if n > 0 {
      ScalarsKeepGraphs(r, n - 1);
    }
  }

  /** There is one subgraph for each value, in order, described by its directive; a value stands for the last
      subgraph under its name. */
  lemma SubgraphsAreWritten(document: seq<DefinitionNode>)
    requires DefinitionsOk(document, |document|)
    ensures var r := FinalRegistry(document); GraphsAt(GraphValues(document, |document|), r.subgraphs, r.graphNames)
  {
    hide GraphsAt;
    GraphsRegistered(document, |document|);
    ScalarsKeepGraphs(Registered(document, |document|), |BUILTIN_SCALARS|);
  }

  // ----- The root query type -----

  /** Definition `i` is the last schema definition that names a query type. */
  predicate LastQuery(document: seq<DefinitionNode>, i: nat, n: nat)
    requires n <= |document|
  {
    && i < n && document[i].SchemaNode? && document[i].query.Some?
    && forall j | i < j < n :: !(document[j].SchemaNode? && document[j].query.Some?)
  }

  lemma {:induction false} QueryIsLast(document: seq<DefinitionNode>, n: nat)
    requires n <= |document|
    ensures forall i: nat | LastQuery(document, i, n) :: QueryName(document, n) == document[i].query
    ensures (forall i | 0 <= i < n :: document[i].SchemaNode? ==> document[i].query.None?) ==> QueryName(document, n) == None
  {
    if n > 0 {
      QueryIsLast(document, n - 1);
      forall i: nat | LastQuery(document, i, n)
        ensures QueryName(document, n) == document[i].query
      {
        assert i < n - 1 ==> LastQuery(document, i, n - 1);
      }
    }
  }

  // ----- Fields of input objects -----

  /** Definition `i` lists an input field of this input object and name at position `k`. */
  predicate ListsInput(document: seq<DefinitionNode>, names: map<string, Definition>, id: nat, name: string, i: nat, k: nat) {
    && i < |document| && document[i].TypeDefinition? && document[i].ty.kind.InputObjectKind?
    && document[i].ty.name in names && names[document[i].ty.name] == InputObject(id)
    && k < |document[i].ty.kind.inputs| && document[i].ty.kind.inputs[k].name == name
  }

  /** The last field of a name is entered. */
  lemma {:induction false} LastEntered(entries: Entries, id: nat, nodes: seq<InputValueNode>, k: nat, n: nat)
    requires k < n <= |nodes| && forall m | k < m < n :: nodes[m].name != nodes[k].name
    ensures (id, nodes[k].name) in WithEntries(entries, id, nodes, n)
    ensures WithEntries(entries, id, nodes, n)[(id, nodes[k].name)] == nodes[k]
  {
    if k < n - 1 {
      LastEntered(entries, id, nodes, k, n - 1);
    }
  }

  /** Other entries stay. */
  lemma {:induction false} OthersStay(
    entries: Entries, id: nat, nodes: seq<InputValueNode>, key: (nat, string), n: nat)
    requires n <= |nodes| && forall k | 0 <= k < n :: key != (id, nodes[k].name)
    ensures key in WithEntries(entries, id, nodes, n) <==> key in entries
    ensures key in entries ==> WithEntries(entries, id, nodes, n)[key] == entries[key]
  {
    if n > 0 {
      OthersStay(entries, id, nodes, key, n - 1);
    }
  }

  /** An input field is found by its input object and name: the last one that the first `n` definitions list. */
  lemma {:induction false} LastInputFound(
    document: seq<DefinitionNode>, names: map<string, Definition>, id: nat, name: string, i: nat, k: nat, n: nat)
    requires i < n <= |document| && ListsInput(document, names, id, name, i, k)
    requires forall m: nat | k < m :: !ListsInput(document, names, id, name, i, m)
    requires forall j: nat, m: nat | i < j < n :: !ListsInput(document, names, id, name, j, m)
    ensures (id, name) in EntriesRead(document, names, n)
    ensures EntriesRead(document, names, n)[(id, name)] == document[i].ty.kind.inputs[k]
  {
    var before, d := EntriesRead(document, names, n - 1), document[n - 1];
    if i == n - 1 {
      var nodes := d.ty.kind.inputs;
      forall m | k < m < |nodes|
        ensures nodes[m].name != name
      {
        assert !ListsInput(document, names, id, name, i, m);
      }
      LastEntered(before, id, nodes, k, |nodes|);
    } else {
      LastInputFound(document, names, id, name, i, k, n - 1);
      StepKeeps(document, names, id, name, n - 1);
    }
  }

  /** A definition that does not list the field leaves it alone. */
  lemma StepKeeps(document: seq<DefinitionNode>, names: map<string, Definition>, id: nat, name: string, n: nat)
    requires n < |document| && forall k: nat :: !ListsInput(document, names, id, name, n, k)
    ensures var before, after := EntriesRead(document, names, n), EntriesRead(document, names, n + 1);
            && ((id, name) in after <==> (id, name) in before)
            && ((id, name) in before ==> after[(id, name)] == before[(id, name)])
  {
    var before, d := EntriesRead(document, names, n), document[n];
    if d.TypeDefinition? && d.ty.kind.InputObjectKind? && d.ty.name in names && names[d.ty.name].InputObject? {
      var nodes := d.ty.kind.inputs;
      forall k | 0 <= k < |nodes|
        ensures (id, name) != (names[d.ty.name].id, nodes[k].name)
      {
        assert !ListsInput(document, names, id, name, n, k);
      }
      OthersStay(before, names[d.ty.name].id, nodes, (id, name), |nodes|);
    }
  }

  /** Nothing else is found. */
  lemma {:induction false} NoInputFound(
    document: seq<DefinitionNode>, names: map<string, Definition>, id: nat, name: string, n: nat)
    requires n <= |document| && forall i: nat, k: nat | i < n :: !ListsInput(document, names, id, name, i, k)
    ensures (id, name) !in EntriesRead(document, names, n)
  {
    if n > 0 {
      NoInputFound(document, names, id, name, n - 1);
      StepKeeps(document, names, id, name, n - 1);
    }
  }
}
