/**
 What an ingested document guarantees: links between types, lookups of fields, and the selections of
 federation directives, which read back as the document has them.
 */
module FederatedTheorems {
  import opened Common
  import opened Wrapping
  import opened TypeRefs
  import opened FederatedModel
  import opened FederatedJoin
  import opened FederatedRecords
  import opened FederatedLayout
  import opened FederatedDefinitions
  import opened FederatedFinal
  import opened FederatedState
  import opened FederatedSelecting
  import opened FederatedClosing
  import opened FederatedAttach
  import opened FederatedIngest
  import opened FederatedPartition
  import opened FederatedReadings

  // ----- What a type links to -----

  /** The definition lists the interfaces of a type. */
  predicate LinksFor(scope: Scope, d: DefinitionNode, on: Definition) {
    && d.TypeDefinition? && d.ty.name in scope.names && scope.names[d.ty.name] == on
    && ((d.ty.kind.ObjectKind? && on.Object?) || (d.ty.kind.InterfaceKind? && on.Interface?))
  }

  /** The interfaces of a type are those that its last definition lists. */
  lemma {:induction false} LastInterfaces(document: seq<DefinitionNode>, scope: Scope, on: Definition, i: nat, n: nat)
    requires i < n <= |document| && LinksFor(scope, document[i], on)
    requires forall j | i < j < n :: !LinksFor(scope, document[j], on)
    ensures on in LinksRead(document, scope, n).interfaces
    ensures var listed := document[i].ty.kind.implements;
            LinksRead(document, scope, n).interfaces[on] == Ids(scope.names, listed, |listed|)
  {
    if i < n - 1 {
      LastInterfaces(document, scope, on, i, n - 1);
      assert !LinksFor(scope, document[n - 1], on);
    }
  }

  predicate MembersFor(scope: Scope, d: DefinitionNode, id: nat) {
    d.TypeDefinition? && d.ty.kind.UnionKind? && d.ty.name in scope.names && scope.names[d.ty.name] == Union(id)
  }

  /** The members that the first `n` definitions list for a union. */
  function MembersListed(document: seq<DefinitionNode>, scope: Scope, id: nat, n: nat): seq<nat>
    requires n <= |document|
  {
    if n == 0 then []
    else if MembersFor(scope, document[n - 1], id) then
      var listed := document[n - 1].ty.kind.members;
      MembersListed(document, scope, id, n - 1) + Ids(scope.names, listed, |listed|)
    else MembersListed(document, scope, id, n - 1)
  }

  /** The members of a union accumulate over its definition and extensions, in order. */
  lemma {:induction false} MembersAccumulate(document: seq<DefinitionNode>, scope: Scope, id: nat, n: nat)
    requires n <= |document|
    ensures var members := LinksRead(document, scope, n).members;
            (if id in members then members[id] else []) == MembersListed(document, scope, id, n)
  {
    if n > 0 {
      MembersAccumulate(document, scope, id, n - 1);
    }
  }

  // ----- Looking fields up again -----

  lemma {:induction false} LayoutKeeps(document: seq<DefinitionNode>, i: nat, n: nat)
    requires Readable(document) && i <= n <= |document|
    ensures LayoutAt(document, i).fields <= LayoutAt(document, n).fields
  {
    if i < n {
      LayoutKeeps(document, i, n - 1);
      OneStep(document, n - 1);
    }
  }

  predicate KnownType(names: map<string, Definition>, origin: Origin) {
    origin.Declared? ==> Name(origin.node.ty) in names
  }

  lemma {:induction false} FieldTypeKnown(scope: Scope, nodes: seq<FieldNode>, i: nat, n: nat)
    requires i < n <= |nodes| && FieldsOk(scope, nodes, n)
    ensures Name(nodes[i].ty) in scope.names
  {
    if i < n - 1 {
      FieldTypeKnown(scope, nodes, i, n - 1);
    }
  }

  lemma ContributesKnownTypes(document: seq<DefinitionNode>, i: nat)
    requires Readable(document) && i < |document|
    ensures forall k | 0 <= k < |ContributionAt(document, i)| ::
            KnownType(NamesOf(document), ContributionAt(document, i)[k])
  {
    AcceptedAt(document, FinalScope(document), FinalRoot(document), i, |document|);
    if HasFields(document[i]) {
      var nodes, d := FieldNodes(document[i].ty.kind).value, NamesOf(document)[document[i].ty.name];
      OriginsAt(d, nodes, |nodes|);
      forall k | 0 <= k < |nodes|
        ensures KnownType(NamesOf(document), Declared(d, nodes[k]))
      {
        FieldTypeKnown(FinalScope(document), nodes, k, |nodes|);
      }
    }
  }

  /** The type of every declared field is known. */
  lemma {:induction false} DeclaredTypesKnown(document: seq<DefinitionNode>, n: nat)
    requires Readable(document) && n <= |document|
    ensures forall f | 0 <= f < |LayoutAt(document, n).fields| ::
            KnownType(NamesOf(document), LayoutAt(document, n).fields[f])
  {
    if n > 0 {
      DeclaredTypesKnown(document, n - 1);
      OneStep(document, n - 1);
      ContributesKnownTypes(document, n - 1);
    }
  }

  lemma ContributedAt(document: seq<DefinitionNode>, i: nat, k: nat)
    requires Readable(document) && i < |document| && HasFields(document[i])
    requires k < |FieldNodes(document[i].ty.kind).value|
    ensures document[i].ty.name in NamesOf(document)
    ensures k < |ContributionAt(document, i)|
    ensures ContributionAt(document, i)[k] ==
            Declared(NamesOf(document)[document[i].ty.name], FieldNodes(document[i].ty.kind).value[k])
  {
    AcceptedAt(document, FinalScope(document), FinalRoot(document), i, |document|);
    var nodes := FieldNodes(document[i].ty.kind).value;
    OriginsAt(NamesOf(document)[document[i].ty.name], nodes, |nodes|);
  }

  /** Every field that a definition lists is found again by its type and name, together with its type, so the
      lookups of the closing pass do not fail. */
  lemma FieldsAreFound(document: seq<DefinitionNode>, i: nat, k: nat)
    requires Readable(document) && i < |document| && HasFields(document[i])
    requires k < |FieldNodes(document[i].ty.kind).value|
    ensures document[i].ty.name in NamesOf(document)
    ensures var node := FieldNodes(document[i].ty.kind).value[k];
            LeadsTo(FinalSchema(document), NamesOf(document)[document[i].ty.name], node.name).Some?
  {
    OneStep(document, i);
    ContributedAt(document, i, k);
    var d, nodes, start := NamesOf(document)[document[i].ty.name], FieldNodes(document[i].ty.kind).value,
      |LayoutAt(document, i).fields|;
    LayoutKeeps(document, i + 1, |document|);
    var fields := FinalLayout(document).fields;
    assert LayoutAt(document, i + 1).fields[start + k] == Declared(d, nodes[k]);
    assert IsField(fields[start + k], d, nodes[k].name);
    PickedIsLast(fields, d, nodes[k].name, |fields|);
    DeclaredTypesKnown(document, |document|);
    assert KnownType(NamesOf(document), fields[FieldNamed(FinalSchema(document), d, nodes[k].name).value]);
  }

  // ----- The selections of an ingested document -----

  /** A resolved selection reads back as its source, and its fields lie in the ranges of their types. */
  lemma RecordedSelection(
    g: Graph, s: Source, l: Layout, target: Definition, resolved: seq<GraphSelection>, items: seq<SelectionNode>, k: nat)
    requires Stands(g, s) && Consistent(g.strings, g.tables) && l.fields == s.fields && Exact(l)
    requires SetStands(g.strings, g.tables, target, resolved, items) && k < |items| && Executable(items[k])
    ensures Erase(g.strings, g.tables, resolved[k]) == items[k]
    ensures Belongs(l, g.tables, resolved[k], target)
  {
    EraseDenoted(g.strings, g.tables, target, resolved[k], items[k]);
    ResolvedFieldsBelong(g, s, l, target, resolved[k], items[k]);
  }

  /** The result of ingesting a document. */
  ghost predicate Ingested(state: State, document: seq<DefinitionNode>, parse: Parser)
    reads state
  {
    HoldsTables(state, document) && Written(state, FinalSchema(document), Closed(FinalSchema(document), parse, document))
  }

  /** What a field provides reads back as the document has it and is selected on the type of the field; what
      it requires is selected on its parent. */
  lemma ExtrasReadBack(state: State, document: seq<DefinitionNode>, parse: Parser, f: nat)
    requires Ingested(state, document, parse) && Exact(FinalLayout(document)) && f < |state.tables.fields|
    ensures var e, s := state.closing.extras, Closed(FinalSchema(document), parse, document).extras;
            && f < |e| && f < |s| && f < |FinalLayout(document).fields| && e[f].resolvableIn == s[f].resolvableIn
            && ReadsBack(state, FinalLayout(document), state.tables.fields[f].ty.definition, e[f].provided, s[f].provided)
            && ReadsBack(state, FinalLayout(document), OwnerOf(FinalLayout(document).fields[f]), e[f].required,
                         s[f].required)
  {
    var e, s := state.closing.extras, Closed(FinalSchema(document), parse, document).extras;
    assert ExtraAt(state.strings, state.tables, state.source.fields, e, s, f);
    EntriesReadBack(state, document, parse, state.tables.fields[f].ty.definition, e[f].provided, s[f].provided);
    EntriesReadBack(state, document, parse, OwnerOf(FinalLayout(document).fields[f]), e[f].required, s[f].required);
  }

  /** Where a field is resolved is what the directives of its last definition say, or else where its type is. */
  lemma ResolvedAsWritten(state: State, document: seq<DefinitionNode>, parse: Parser, i: nat, k: nat, f: nat)
    requires Ingested(state, document, parse) && f < |FinalLayout(document).fields| && i < |document|
    requires var schema := FinalSchema(document);
             && Writes(schema, document[i], k, f)
             && (forall j: nat | k < j :: !Writes(schema, document[i], j, f))
             && (forall j: nat, m: nat | i < j < |document| :: !Writes(schema, document[j], m, f))
    ensures f < |state.closing.extras|
    ensures var graphs := FinalScope(document).graphs;
            var on, own := document[i].ty.directives, FieldNodes(document[i].ty.kind).value[k].directives;
            var where := state.closing.extras[f].resolvableIn;
            || (where != [] && Sifted(own, (d, graph: nat) => PlacedIn(graphs, d, graph), where))
            || (&& Sifted(own, (d, graph: nat) => PlacedIn(graphs, d, graph), [])
                && if HasKey(on) then where == [] else Sifted(on, (d, graph: nat) => TypeIn(graphs, d, graph), where))
  {
    hide Sifted, Closed, ExtraOf, DefaultGraphs, Stands, Consistent, AllKeys, AllAuthorized;
    var schema, graphs := FinalSchema(document), FinalScope(document).graphs;
    var own := FieldNodes(document[i].ty.kind).value[k].directives;
    LastFieldDecides(schema, parse, document, i, k, f);
    assert ExtraAt(state.strings, state.tables, state.source.fields, state.closing.extras,
                   Closed(schema, parse, document).extras, f);
    ExtraIsWritten(graphs, parse, DefaultGraphs(graphs, document[i].ty.directives), own);
    DefaultsAreWritten(graphs, document[i].ty.directives);
  }

  /** A default that names a value of its enum is that value; any other enum value stays a name. */
  lemma EnumDefaults(state: State, document: seq<DefinitionNode>, parse: Parser, i: nat, name: string)
    requires Ingested(state, document, parse) && i < |state.source.inputs|
    requires state.source.inputs[i].default == Some(Enum(name))
    ensures i < |state.tables.inputValues| && state.tables.inputValues[i].default.Some?
    ensures var t, r := state.tables, state.tables.inputValues[i];
            var own := r.ty.definition;
            if own.EnumType? && (own.typeDefinition, name) in t.enumValues
            then r.default.value == GEnumValue(t.enumValues[(own.typeDefinition, name)])
            else r.default.value.GUnboundEnumValue? && Denotes(state.strings, r.default.value.id, name)
  {
    var t := state.tables;
    assert InputAt(state.strings, t.definitionNames, t.enumValues, state.source.directives, t.inputValues,
                   state.source.inputs, i);
  }

  /** Item `k` of entry `i` reads back. */
  ghost predicate ReadsBackAt(
    state: State, l: Layout, target: Definition, entries: seq<GraphFields>, sources: seq<NodeFields>, i: nat, k: nat)
    reads state
  {
    && i < |entries| && i < |sources| && entries[i].graph == sources[i].graph
    && k < |entries[i].items| && k < |sources[i].items|
    && (Executable(sources[i].items[k]) ==>
      Erase(state.strings, state.tables, entries[i].items[k]) == sources[i].items[k])
    && Belongs(l, state.tables, entries[i].items[k], target)
  }

  ghost predicate ReadsBack(
    state: State, l: Layout, target: Definition, entries: seq<GraphFields>, sources: seq<NodeFields>)
    reads state
  {
    && |entries| == |sources|
    && forall i: nat, k: nat | i < |sources| && k < |sources[i].items| ::
      ReadsBackAt(state, l, target, entries, sources, i, k)
  }

  lemma EntriesReadBack(
    state: State, document: seq<DefinitionNode>, parse: Parser, target: Definition,
    entries: seq<GraphFields>, sources: seq<NodeFields>)
    requires Ingested(state, document, parse) && Exact(FinalLayout(document))
    requires EntriesFor(state.strings, state.tables, target, entries, sources)
    ensures ReadsBack(state, FinalLayout(document), target, entries, sources)
  {
    var g, l := state.Snapshot(), FinalLayout(document);
    forall i: nat, k: nat | i < |sources| && k < |sources[i].items|
      ensures ReadsBackAt(state, l, target, entries, sources, i, k)
    {
      assert EntryStands(state.strings, state.tables, target, entries, sources, i);
      ResolvedFieldsBelong(g, state.source, l, target, entries[i].items[k], sources[i].items[k]);
      if Executable(sources[i].items[k]) {
        RecordedSelection(g, state.source, l, target, entries[i].items, sources[i].items, k);
      }
    }
  }

  /** The keys of a type read back as the document has them and are selected on that type. */
  lemma KeysReadBack(state: State, document: seq<DefinitionNode>, parse: Parser, on: Definition, i: nat, k: nat)
    requires Ingested(state, document, parse) && Exact(FinalLayout(document))
    requires on in state.closing.keys && i < |state.closing.keys[on]| && k < |state.closing.keys[on][i].items|
    ensures var keys := Closed(FinalSchema(document), parse, document).keys;
            && on in keys && i < |keys[on]| && k < |keys[on][i].items|
            && (Executable(keys[on][i].items[k]) ==>
                  Erase(state.strings, state.tables, state.closing.keys[on][i].items[k]) == keys[on][i].items[k])
            && Belongs(FinalLayout(document), state.tables, state.closing.keys[on][i].items[k], on)
  {
    var keys, sources := state.closing.keys, Closed(FinalSchema(document), parse, document).keys;
    assert KeysAt(state.strings, state.tables, keys, sources, on);
    assert KeyStands(state.strings, state.tables, on, keys[on], sources[on], i);
    var resolved, items := keys[on][i].items, sources[on][i].items;
    ResolvedFieldsBelong(state.Snapshot(), state.source, FinalLayout(document), on, resolved[k], items[k]);
    if Executable(items[k]) {
      RecordedSelection(state.Snapshot(), state.source, FinalLayout(document), on, resolved, items, k);
    }
  }
}
