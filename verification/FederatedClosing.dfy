/**
 What is read from directives once the tables are complete: where fields are resolved, what they provide
 and require, the keys of types, and authorizations.  It is given on the document alone, together with
 the relation to what ingestion writes.
 */
module FederatedClosing {
  import opened Common
  import opened TypeRefs
  import opened FederatedModel
  import opened FederatedJoin
  import opened FederatedRecords
  import opened FederatedLayout
  import opened FederatedSelecting

  /** The parser of selections, which is not part of the model. */
  type Parser = string -> Option<seq<SelectionNode>>

  // ----- Selections in directives -----

  function SelectionIn(parse: Parser, text: Option<string>): Option<seq<SelectionNode>> {
    if text.Some? then parse(text.value) else None
  }

  predicate TextSelects(schema: Schema, parse: Parser, target: Definition, text: Option<string>) {
    text.Some? ==> parse(text.value).Some? && AllSelect(schema, target, parse(text.value).value)
  }

  predicate TextArguments(schema: Schema, parse: Parser, arguments: seq<InputValueNode>, text: Option<string>) {
    text.Some? ==> parse(text.value).Some? && ArgumentsSelect(schema, arguments, parse(text.value).value)
  }

  // ----- Fields -----

  datatype NodeFields = NodeFields(graph: nat, items: seq<SelectionNode>)

  datatype ExtraSource = ExtraSource(resolvableIn: seq<nat>, provided: seq<NodeFields>, required: seq<NodeFields>)

  const PROVIDES := "provides"
  const REQUIRES := "requires"

  /** A directive whose selections count. */
  predicate Active(graphs: map<string, nat>, d: DirectiveNode) {
    d.name == JOIN_FIELD && !IsSet(d, "external") && GraphOf(graphs, d).Some?
  }

  /** What the first `n` directives provide or require. */
  function Selected(graphs: map<string, nat>, parse: Parser, directives: seq<DirectiveNode>, argument: string, n: nat)
    : seq<NodeFields>
    requires n <= |directives|
  {
    if n == 0 then []
    else
      var before, d := Selected(graphs, parse, directives, argument, n - 1), directives[n - 1];
      var items := SelectionIn(parse, TextArgument(d, argument));
      if Active(graphs, d) && items.Some? then before + [NodeFields(GraphOf(graphs, d).value, items.value)] else before
  }

  predicate IsKeyed(d: DirectiveNode) {
    d.name == JOIN_TYPE && GetArgument(d.arguments, "key").Some?
  }

  predicate IsEntity(directives: seq<DirectiveNode>) {
    exists i :: 0 <= i < |directives| && IsKeyed(directives[i])
  }

  /** The subgraphs of a type, among the first `n` directives. */
  function TypeGraphs(graphs: map<string, nat>, directives: seq<DirectiveNode>, n: nat): seq<nat>
    requires n <= |directives|
  {
    if n == 0 then []
    else
      var before, d := TypeGraphs(graphs, directives, n - 1), directives[n - 1];
      if d.name == JOIN_TYPE && GraphOf(graphs, d).Some? then before + [GraphOf(graphs, d).value] else before
  }

  /** Where the fields of a type are resolved unless they say otherwise. */
  function DefaultGraphs(graphs: map<string, nat>, directives: seq<DirectiveNode>): seq<nat> {
    if IsEntity(directives) then [] else TypeGraphs(graphs, directives, |directives|)
  }

  predicate DefaultGraphsOk(graphs: map<string, nat>, directives: seq<DirectiveNode>) {
    || IsEntity(directives)
    || forall i | 0 <= i < |directives| :: directives[i].name == JOIN_TYPE ==> GraphKnown(graphs, directives[i])
  }

  function ExtraOf(
    graphs: map<string, nat>, parse: Parser, defaults: seq<nat>, directives: seq<DirectiveNode>): ExtraSource
  {
    var located := ResolvableIn(graphs, directives, |directives|);
    ExtraSource(if located == [] then defaults else located,
                Selected(graphs, parse, directives, PROVIDES, |directives|),
                Selected(graphs, parse, directives, REQUIRES, |directives|))
  }

  /** A declared field by type and name. */
  function NodeNamed(schema: Schema, parent: Definition, name: string): Option<FieldNode> {
    var f := FieldNamed(schema, parent, name);
    if f.Some? && f.value < |schema.fields| && schema.fields[f.value].Declared?
    then Some(schema.fields[f.value].node) else None
  }

  function LeadsTo(schema: Schema, parent: Definition, name: string): Option<Definition> {
    var node := NodeNamed(schema, parent, name);
    if node.Some? then Leads(schema, node.value.ty) else None
  }

  predicate DirectiveJoins(schema: Schema, parse: Parser, parent: Definition, leads: Definition, d: DirectiveNode) {
    Active(schema.scope.graphs, d) ==>
      && TextSelects(schema, parse, leads, TextArgument(d, PROVIDES))
      && TextSelects(schema, parse, parent, TextArgument(d, REQUIRES))
  }

  /** What a field provides can be selected on its type, and what it requires on its parent. */
  predicate FieldJoins(schema: Schema, parse: Parser, parent: Definition, node: FieldNode) {
    && LeadsTo(schema, parent, node.name).Some?
    && forall i | 0 <= i < |node.directives| ::
         DirectiveJoins(schema, parse, parent, LeadsTo(schema, parent, node.name).value, node.directives[i])
  }

  // ----- Authorizations -----

  /** The selections of an authorization, with the types that they are on. */
  datatype AuthorizedSource = AuthorizedSource(
    on: Definition, leads: Definition,
    items: Option<seq<SelectionNode>>, node: Option<seq<SelectionNode>>, arguments: Option<seq<SelectionNode>>,
    metadata: Option<Value>)

  const AUTHORIZED := "authorized"

  function Metadata(d: DirectiveNode): Option<Value> {
    GetArgument(d.arguments, "metadata")
  }

  predicate MetadataOk(d: DirectiveNode) {
    Metadata(d).Some? ==> !HasVariable(Metadata(d).value)
  }

  predicate DirectiveAuthorizes(
    schema: Schema, parse: Parser, parent: Definition, leads: Definition, arguments: seq<InputValueNode>,
    d: DirectiveNode)
  {
    d.name == AUTHORIZED ==>
      && TextArguments(schema, parse, arguments, TextArgument(d, "arguments"))
      && TextSelects(schema, parse, parent, TextArgument(d, "fields"))
      && TextSelects(schema, parse, leads, TextArgument(d, "node"))
      && MetadataOk(d)
  }

  predicate FieldAuthorizes(schema: Schema, parse: Parser, parent: Definition, node: FieldNode) {
    && LeadsTo(schema, parent, node.name).Some?
    && forall i | 0 <= i < |node.directives| ::
         DirectiveAuthorizes(schema, parse, parent, LeadsTo(schema, parent, node.name).value,
                             NodeNamed(schema, parent, node.name).value.arguments, node.directives[i])
  }

  function FieldAuthorized(parse: Parser, parent: Definition, leads: Definition, d: DirectiveNode): AuthorizedSource {
    AuthorizedSource(
      parent, leads, SelectionIn(parse, TextArgument(d, "fields")), SelectionIn(parse, TextArgument(d, "node")),
      SelectionIn(parse, TextArgument(d, "arguments")), Metadata(d))
  }

  function TypeAuthorized(parse: Parser, on: Definition, d: DirectiveNode): AuthorizedSource {
    AuthorizedSource(on, on, SelectionIn(parse, TextArgument(d, "fields")), None, None, Metadata(d))
  }

  // ----- Keys -----

  datatype KeySource = KeySource(graph: nat, items: seq<SelectionNode>, isInterfaceObject: bool, resolvable: bool)

  predicate KeyOk(schema: Schema, parse: Parser, on: Definition, d: DirectiveNode) {
    d.name == JOIN_TYPE ==>
      GraphOf(schema.scope.graphs, d).Some? && TextSelects(schema, parse, on, TextArgument(d, "key"))
  }

  function KeyOf(graphs: map<string, nat>, parse: Parser, d: DirectiveNode): KeySource
    requires GraphOf(graphs, d).Some?
  {
    var items := SelectionIn(parse, TextArgument(d, "key"));
    KeySource(GraphOf(graphs, d).value, if items.Some? then items.value else [],
              IsSet(d, "isInterfaceObject"), GetArgument(d.arguments, "resolvable") != Some(Boolean(false)))
  }

  // ----- The document -----

  datatype ClosingSource = ClosingSource(
    extras: seq<ExtraSource>, keys: map<Definition, seq<KeySource>>, authorized: seq<AuthorizedSource>,
    byField: seq<(nat, nat)>, byObject: seq<(nat, nat)>, byInterface: seq<(nat, nat)>)

  function StartExtra(graphs: map<string, nat>, origin: Origin): ExtraSource {
    ExtraSource(Begins(graphs, origin).resolvableIn, [], [])
  }

  function StartClosing(schema: Schema): ClosingSource {
    ClosingSource(
      seq(|schema.fields|, f requires 0 <= f < |schema.fields| => StartExtra(schema.scope.graphs, schema.fields[f])),
      map[], [], [], [], [])
  }

  function WithExtra(c: ClosingSource, f: Option<nat>, e: ExtraSource): ClosingSource {
    if f.Some? && f.value < |c.extras| then c.(extras := c.extras[f.value := e]) else c
  }

  function WithAuthorized(c: ClosingSource, f: nat, a: AuthorizedSource): ClosingSource {
    c.(authorized := c.authorized + [a], byField := c.byField + [(f, |c.authorized|)])
  }

  function WithTypeAuthorized(c: ClosingSource, a: AuthorizedSource): ClosingSource {
    c.(authorized := c.authorized + [a],
       byObject := if a.on.Object? then c.byObject + [(a.on.id, |c.authorized|)] else c.byObject,
       byInterface := if a.on.Interface? then c.byInterface + [(a.on.id, |c.authorized|)] else c.byInterface)
  }

  function WithKey(c: ClosingSource, on: Definition, key: KeySource): ClosingSource {
    if on.Object? || on.Interface? then c.(keys := c.keys[on := (if on in c.keys then c.keys[on] else []) + [key]]) else c
  }

  /** Only definitions are looked at, not extensions. */
  predicate IsType(d: DefinitionNode) {
    d.TypeDefinition? && !d.ty.extend
  }

  function FieldNodes(kind: Kind): Option<seq<FieldNode>> {
    match kind
    case ObjectKind(_, nodes) => Some(nodes)
    case InterfaceKind(_, nodes) => Some(nodes)
    case _ => None
  }

  /** The type whose fields a definition lists. */
  function FieldsOn(schema: Schema, d: DefinitionNode): Option<(Definition, seq<FieldNode>)> {
    if IsType(d) && FieldNodes(d.ty.kind).Some? && d.ty.name in schema.scope.names
    then Some((schema.scope.names[d.ty.name], FieldNodes(d.ty.kind).value)) else None
  }

  /** After the join directives of the first `n` fields. */
  function FieldsJoined(
    c: ClosingSource, schema: Schema, parse: Parser, parent: Definition, defaults: seq<nat>, nodes: seq<FieldNode>,
    n: nat)
    : ClosingSource
    requires n <= |nodes|
  {
    if n == 0 then c
    else
      var node := nodes[n - 1];
      WithExtra(FieldsJoined(c, schema, parse, parent, defaults, nodes, n - 1), FieldNamed(schema, parent, node.name),
                ExtraOf(schema.scope.graphs, parse, defaults, node.directives))
  }

  /** After the authorizations among the first `n` directives of a field. */
  function DirectivesAuthorized(
    c: ClosingSource, parse: Parser, parent: Definition, leads: Definition, f: nat, directives: seq<DirectiveNode>,
    n: nat)
    : ClosingSource
    requires n <= |directives|
  {
    if n == 0 then c
    else
      var before, d := DirectivesAuthorized(c, parse, parent, leads, f, directives, n - 1), directives[n - 1];
      if d.name == AUTHORIZED then WithAuthorized(before, f, FieldAuthorized(parse, parent, leads, d)) else before
  }

  function FieldAuthorizedIn(
    c: ClosingSource, schema: Schema, parse: Parser, parent: Definition, node: FieldNode): ClosingSource
  {
    var f, leads := FieldNamed(schema, parent, node.name), LeadsTo(schema, parent, node.name);
    if f.Some? && leads.Some? then
      DirectivesAuthorized(c, parse, parent, leads.value, f.value, node.directives, |node.directives|)
    else c
  }

  function FieldsAuthorized(
    c: ClosingSource, schema: Schema, parse: Parser, parent: Definition, nodes: seq<FieldNode>, n: nat): ClosingSource
    requires n <= |nodes|
  {
    if n == 0 then c
    else FieldAuthorizedIn(FieldsAuthorized(c, schema, parse, parent, nodes, n - 1), schema, parse, parent, nodes[n - 1])
  }

  predicate AllJoin(schema: Schema, parse: Parser, parent: Definition, nodes: seq<FieldNode>) {
    forall i | 0 <= i < |nodes| :: FieldJoins(schema, parse, parent, nodes[i])
  }

  predicate AllAuthorize(schema: Schema, parse: Parser, parent: Definition, nodes: seq<FieldNode>) {
    forall i | 0 <= i < |nodes| :: FieldAuthorizes(schema, parse, parent, nodes[i])
  }

  /** The directives on the fields of a definition can be read. */
  predicate FieldsClose(schema: Schema, parse: Parser, d: DefinitionNode) {
    IsType(d) && FieldNodes(d.ty.kind).Some? ==>
      && d.ty.name in schema.scope.names && DefaultGraphsOk(schema.scope.graphs, d.ty.directives)
      && var parent, nodes := schema.scope.names[d.ty.name], FieldNodes(d.ty.kind).value;
      AllJoin(schema, parse, parent, nodes) && AllAuthorize(schema, parse, parent, nodes)
  }

  function WithFieldsClosed(c: ClosingSource, schema: Schema, parse: Parser, d: DefinitionNode): ClosingSource {
    var on := FieldsOn(schema, d);
    if on.None? then c
    else
      var (parent, nodes) := on.value;
      var joined := FieldsJoined(c, schema, parse, parent, DefaultGraphs(schema.scope.graphs, d.ty.directives),
                                 nodes, |nodes|);
      FieldsAuthorized(joined, schema, parse, parent, nodes, |nodes|)
  }

  function FieldsClosed(schema: Schema, parse: Parser, document: seq<DefinitionNode>, n: nat): ClosingSource
    requires n <= |document|
  {
    if n == 0 then StartClosing(schema)
    else WithFieldsClosed(FieldsClosed(schema, parse, document, n - 1), schema, parse, document[n - 1])
  }

  /** The first authorization on a type that is known. */
  function Authorization(schema: Schema, d: DefinitionNode): Option<(Definition, DirectiveNode)> {
    if IsType(d) && FindDirective(d.ty.directives, AUTHORIZED).Some? && d.ty.name in schema.scope.names
    then Some((schema.scope.names[d.ty.name], FindDirective(d.ty.directives, AUTHORIZED).value)) else None
  }

  predicate TypeAuthorizes(schema: Schema, parse: Parser, d: DefinitionNode) {
    Authorization(schema, d).Some? ==>
      var (on, directive) := Authorization(schema, d).value;
      TextSelects(schema, parse, on, TextArgument(directive, "fields")) && MetadataOk(directive)
  }

  function TypesAuthorized(
    c: ClosingSource, schema: Schema, parse: Parser, document: seq<DefinitionNode>, n: nat): ClosingSource
    requires n <= |document|
  {
    if n == 0 then c
    else
      var before, a := TypesAuthorized(c, schema, parse, document, n - 1), Authorization(schema, document[n - 1]);
      if a.Some? then WithTypeAuthorized(before, TypeAuthorized(parse, a.value.0, a.value.1)) else before
  }

  predicate AllKeysOk(schema: Schema, parse: Parser, on: Definition, directives: seq<DirectiveNode>) {
    forall i | 0 <= i < |directives| :: KeyOk(schema, parse, on, directives[i])
  }

  predicate KeysClose(schema: Schema, parse: Parser, d: DefinitionNode) {
    IsType(d) && d.ty.name in schema.scope.names ==>
      AllKeysOk(schema, parse, schema.scope.names[d.ty.name], d.ty.directives)
  }

  function WithKeys(
    c: ClosingSource, graphs: map<string, nat>, parse: Parser, on: Definition, directives: seq<DirectiveNode>,
    n: nat): ClosingSource
    requires n <= |directives|
  {
    if n == 0 then c
    else
      var before, d := WithKeys(c, graphs, parse, on, directives, n - 1), directives[n - 1];
      if d.name == JOIN_TYPE && GraphOf(graphs, d).Some? then WithKey(before, on, KeyOf(graphs, parse, d)) else before
  }

  function KeysClosed(
    c: ClosingSource, schema: Schema, parse: Parser, document: seq<DefinitionNode>, n: nat): ClosingSource
    requires n <= |document|
  {
    if n == 0 then c
    else
      var before, d := KeysClosed(c, schema, parse, document, n - 1), document[n - 1];
      if IsType(d) && d.ty.name in schema.scope.names then
        WithKeys(before, schema.scope.graphs, parse, schema.scope.names[d.ty.name], d.ty.directives, |d.ty.directives|)
      else before
  }

  /** All directives that need the complete tables can be read. */
  predicate Closes(schema: Schema, parse: Parser, document: seq<DefinitionNode>) {
    && (forall i | 0 <= i < |document| :: FieldsClose(schema, parse, document[i]))
    && (forall i | 0 <= i < |document| :: TypeAuthorizes(schema, parse, document[i]))
    && (forall i | 0 <= i < |document| :: KeysClose(schema, parse, document[i]))
  }

  /** What they are read to. */
  function Closed(schema: Schema, parse: Parser, document: seq<DefinitionNode>): ClosingSource {
    KeysClosed(TypesAuthorized(FieldsClosed(schema, parse, document, |document|), schema, parse, document, |document|),
               schema, parse, document, |document|)
  }

  // ----- What a field ends up with -----

  /** Field `k` of a definition is the field at position `f` of the table. */
  predicate Writes(schema: Schema, d: DefinitionNode, k: nat, f: nat) {
    && FieldsOn(schema, d).Some? && k < |FieldsOn(schema, d).value.1|
    && FieldNamed(schema, FieldsOn(schema, d).value.0, FieldsOn(schema, d).value.1[k].name) == Some(f)
  }

  lemma {:induction false} JoinedKeeps(
    c: ClosingSource, schema: Schema, parse: Parser, parent: Definition, defaults: seq<nat>, nodes: seq<FieldNode>,
    f: nat, i: nat, n: nat)
    requires i <= n <= |nodes| && f < |c.extras|
    requires forall k | i <= k < n :: FieldNamed(schema, parent, nodes[k].name) != Some(f)
    ensures |FieldsJoined(c, schema, parse, parent, defaults, nodes, i).extras| == |c.extras|
    ensures |FieldsJoined(c, schema, parse, parent, defaults, nodes, n).extras| == |c.extras|
    ensures FieldsJoined(c, schema, parse, parent, defaults, nodes, n).extras[f] ==
            FieldsJoined(c, schema, parse, parent, defaults, nodes, i).extras[f]
  {
    hide ExtraOf, FieldNamed;
    JoinedLength(c, schema, parse, parent, defaults, nodes, i);
    JoinedLength(c, schema, parse, parent, defaults, nodes, n);
    if i < n {
      JoinedLength(c, schema, parse, parent, defaults, nodes, n - 1);
      JoinedKeeps(c, schema, parse, parent, defaults, nodes, f, i, n - 1);
    }
  }

  lemma {:induction false} JoinedLength(
    c: ClosingSource, schema: Schema, parse: Parser, parent: Definition, defaults: seq<nat>, nodes: seq<FieldNode>,
    n: nat)
    requires n <= |nodes|
    ensures |FieldsJoined(c, schema, parse, parent, defaults, nodes, n).extras| == |c.extras|
  {
    if n > 0 {
      JoinedLength(c, schema, parse, parent, defaults, nodes, n - 1);
    }
  }

  lemma {:induction false} DirectivesKeepExtras(
    c: ClosingSource, parse: Parser, parent: Definition, leads: Definition, f: nat, directives: seq<DirectiveNode>,
    n: nat)
    requires n <= |directives|
    ensures DirectivesAuthorized(c, parse, parent, leads, f, directives, n).extras == c.extras
  {
    if n > 0 {
      DirectivesKeepExtras(c, parse, parent, leads, f, directives, n - 1);
    }
  }

  lemma {:induction false} AuthorizedKeepExtras(
    c: ClosingSource, schema: Schema, parse: Parser, parent: Definition, nodes: seq<FieldNode>, n: nat)
    requires n <= |nodes|
    ensures FieldsAuthorized(c, schema, parse, parent, nodes, n).extras == c.extras
  {
    if n > 0 {
      AuthorizedKeepExtras(c, schema, parse, parent, nodes, n - 1);
      var before, node := FieldsAuthorized(c, schema, parse, parent, nodes, n - 1), nodes[n - 1];
      var f, leads := FieldNamed(schema, parent, node.name), LeadsTo(schema, parent, node.name);
      if f.Some? && leads.Some? {
        DirectivesKeepExtras(before, parse, parent, leads.value, f.value, node.directives, |node.directives|);
      }
    }
  }

  /** A definition changes the fields it writes and no others. */
  lemma DefinitionCloses(c: ClosingSource, schema: Schema, parse: Parser, d: DefinitionNode, f: nat)
    requires f < |c.extras|
    ensures |WithFieldsClosed(c, schema, parse, d).extras| == |c.extras|
    ensures (forall k: nat :: !Writes(schema, d, k, f)) ==> WithFieldsClosed(c, schema, parse, d).extras[f] == c.extras[f]
  {
    var on := FieldsOn(schema, d);
    if on.Some? {
      var (parent, nodes) := on.value;
      var defaults := DefaultGraphs(schema.scope.graphs, d.ty.directives);
      JoinedLength(c, schema, parse, parent, defaults, nodes, |nodes|);
      AuthorizedKeepExtras(FieldsJoined(c, schema, parse, parent, defaults, nodes, |nodes|), schema, parse, parent,
                           nodes, |nodes|);
      if forall k: nat :: !Writes(schema, d, k, f) {
        forall k | 0 <= k < |nodes|
          ensures FieldNamed(schema, parent, nodes[k].name) != Some(f)
        {
          assert !Writes(schema, d, k, f);
        }
        JoinedKeeps(c, schema, parse, parent, defaults, nodes, f, 0, |nodes|);
      }
    }
  }

  /** The last of the fields that are written to a position decides. */
  lemma DefinitionWrites(c: ClosingSource, schema: Schema, parse: Parser, d: DefinitionNode, k: nat, f: nat)
    requires f < |c.extras| && Writes(schema, d, k, f) && forall j: nat | k < j :: !Writes(schema, d, j, f)
    ensures |WithFieldsClosed(c, schema, parse, d).extras| == |c.extras|
    ensures WithFieldsClosed(c, schema, parse, d).extras[f] ==
            ExtraOf(schema.scope.graphs, parse, DefaultGraphs(schema.scope.graphs, d.ty.directives),
                    FieldsOn(schema, d).value.1[k].directives)
  {
    hide ExtraOf, FieldNamed, DefaultGraphs, FieldsAuthorized;
    var (parent, nodes) := FieldsOn(schema, d).value;
    var defaults := DefaultGraphs(schema.scope.graphs, d.ty.directives);
    JoinedLength(c, schema, parse, parent, defaults, nodes, k);
    AuthorizedKeepExtras(FieldsJoined(c, schema, parse, parent, defaults, nodes, |nodes|), schema, parse, parent,
                         nodes, |nodes|);
    forall j | k + 1 <= j < |nodes|
      ensures FieldNamed(schema, parent, nodes[j].name) != Some(f)
    {
      assert !Writes(schema, d, j, f);
    }
    JoinedKeeps(c, schema, parse, parent, defaults, nodes, f, k + 1, |nodes|);
  }

  lemma {:induction false} FieldsClosedKeep(
    schema: Schema, parse: Parser, document: seq<DefinitionNode>, f: nat, i: nat, n: nat)
    requires i <= n <= |document| && f < |schema.fields|
    requires forall j: nat, k: nat | i <= j < n :: !Writes(schema, document[j], k, f)
    ensures |FieldsClosed(schema, parse, document, i).extras| == |schema.fields|
    ensures |FieldsClosed(schema, parse, document, n).extras| == |schema.fields|
    ensures FieldsClosed(schema, parse, document, n).extras[f] == FieldsClosed(schema, parse, document, i).extras[f]
  {
    FieldsClosedLength(schema, parse, document, i);
    if i < n {
      FieldsClosedKeep(schema, parse, document, f, i, n - 1);
      DefinitionCloses(FieldsClosed(schema, parse, document, n - 1), schema, parse, document[n - 1], f);
    }
  }

  lemma {:induction false} FieldsClosedLength(schema: Schema, parse: Parser, document: seq<DefinitionNode>, n: nat)
    requires n <= |document|
    ensures |FieldsClosed(schema, parse, document, n).extras| == |schema.fields|
  {
    if n > 0 {
      FieldsClosedLength(schema, parse, document, n - 1);
      if |schema.fields| > 0 {
        DefinitionCloses(FieldsClosed(schema, parse, document, n - 1), schema, parse, document[n - 1], 0);
      } else {
        NoExtras(FieldsClosed(schema, parse, document, n - 1), schema, parse, document[n - 1]);
      }
    }
  }

  lemma NoExtras(c: ClosingSource, schema: Schema, parse: Parser, d: DefinitionNode)
    ensures |WithFieldsClosed(c, schema, parse, d).extras| == |c.extras|
  {
    var on := FieldsOn(schema, d);
    if on.Some? {
      var (parent, nodes) := on.value;
      var defaults := DefaultGraphs(schema.scope.graphs, d.ty.directives);
      JoinedLength(c, schema, parse, parent, defaults, nodes, |nodes|);
      AuthorizedKeepExtras(FieldsJoined(c, schema, parse, parent, defaults, nodes, |nodes|), schema, parse, parent,
                           nodes, |nodes|);
    }
  }

  lemma {:induction false} TypesKeepExtras(
    c: ClosingSource, schema: Schema, parse: Parser, document: seq<DefinitionNode>, n: nat)
    requires n <= |document|
    ensures TypesAuthorized(c, schema, parse, document, n).extras == c.extras
  {
    if n > 0 {
      TypesKeepExtras(c, schema, parse, document, n - 1);
    }
  }

  lemma {:induction false} KeysKeepExtras(
    c: ClosingSource, graphs: map<string, nat>, parse: Parser, on: Definition, directives: seq<DirectiveNode>, n: nat)
    requires n <= |directives|
    ensures WithKeys(c, graphs, parse, on, directives, n).extras == c.extras
  {
    if n > 0 {
      KeysKeepExtras(c, graphs, parse, on, directives, n - 1);
    }
  }

  lemma {:induction false} ClosingKeepsExtras(
    c: ClosingSource, schema: Schema, parse: Parser, document: seq<DefinitionNode>, n: nat)
    requires n <= |document|
    ensures KeysClosed(c, schema, parse, document, n).extras == c.extras
  {
    if n > 0 {
      ClosingKeepsExtras(c, schema, parse, document, n - 1);
      var before, d := KeysClosed(c, schema, parse, document, n - 1), document[n - 1];
      if IsType(d) && d.ty.name in schema.scope.names {
        KeysKeepExtras(before, schema.scope.graphs, parse, schema.scope.names[d.ty.name], d.ty.directives,
                       |d.ty.directives|);
      }
    }
  }

  lemma ClosedExtras(schema: Schema, parse: Parser, document: seq<DefinitionNode>)
    ensures Closed(schema, parse, document).extras == FieldsClosed(schema, parse, document, |document|).extras
    ensures |Closed(schema, parse, document).extras| == |schema.fields|
  {
    var fields := FieldsClosed(schema, parse, document, |document|);
    FieldsClosedLength(schema, parse, document, |document|);
    TypesKeepExtras(fields, schema, parse, document, |document|);
    ClosingKeepsExtras(
      TypesAuthorized(fields, schema, parse, document, |document|), schema, parse, document, |document|);
  }

  /** A field ends up with what the last definition of its type and name says. */
  lemma LastFieldDecides(schema: Schema, parse: Parser, document: seq<DefinitionNode>, i: nat, k: nat, f: nat)
    requires f < |schema.fields| && i < |document| && Writes(schema, document[i], k, f)
    requires forall j: nat | k < j :: !Writes(schema, document[i], j, f)
    requires forall j: nat, m: nat | i < j < |document| :: !Writes(schema, document[j], m, f)
    ensures |Closed(schema, parse, document).extras| == |schema.fields|
    ensures Closed(schema, parse, document).extras[f] ==
            ExtraOf(schema.scope.graphs, parse, DefaultGraphs(schema.scope.graphs, document[i].ty.directives),
                    FieldsOn(schema, document[i]).value.1[k].directives)
  {
    hide WithFieldsClosed, ExtraOf, DefaultGraphs, Closed, StartClosing;
    ClosedExtras(schema, parse, document);
    FieldsClosedLength(schema, parse, document, i);
    DefinitionWrites(FieldsClosed(schema, parse, document, i), schema, parse, document[i], k, f);
    FieldsClosedKeep(schema, parse, document, f, i + 1, |document|);
  }

  /** A field that only an extension declares keeps what it began with. */
  lemma UnwrittenFieldStays(schema: Schema, parse: Parser, document: seq<DefinitionNode>, f: nat)
    requires f < |schema.fields| && forall i: nat, k: nat | i < |document| :: !Writes(schema, document[i], k, f)
    ensures |Closed(schema, parse, document).extras| == |schema.fields|
    ensures Closed(schema, parse, document).extras[f] == StartExtra(schema.scope.graphs, schema.fields[f])
  {
    ClosedExtras(schema, parse, document);
    FieldsClosedKeep(schema, parse, document, f, 0, |document|);
  }

  // ----- What is written -----

  ghost predicate SetStands(
    strings: seq<string>, t: Tables, target: Definition, g: seq<GraphSelection>, s: seq<SelectionNode>)
  {
    |g| == |s| && forall i | 0 <= i < |s| :: DenotesSelection(strings, t, target, g[i], s[i])
  }

  ghost predicate OptionStands(
    strings: seq<string>, t: Tables, target: Definition, g: Option<seq<GraphSelection>>, s: Option<seq<SelectionNode>>)
  {
    match (g, s)
    case (None, None) => true
    case (Some(x), Some(y)) => SetStands(strings, t, target, x, y)
    case _ => false
  }

  ghost predicate EntryStands(
    strings: seq<string>, t: Tables, target: Definition, gs: seq<GraphFields>, ss: seq<NodeFields>, i: nat)
  {
    i < |gs| && i < |ss| && gs[i].graph == ss[i].graph && SetStands(strings, t, target, gs[i].items, ss[i].items)
  }

  ghost predicate EntriesFor(
    strings: seq<string>, t: Tables, target: Definition, gs: seq<GraphFields>, ss: seq<NodeFields>)
  {
    |gs| == |ss| && forall i | 0 <= i < |gs| :: EntryStands(strings, t, target, gs, ss, i)
  }

  ghost predicate ExtraStands(
    strings: seq<string>, t: Tables, parent: Definition, leads: Definition, e: FieldExtra, s: ExtraSource)
  {
    && e.resolvableIn == s.resolvableIn
    && EntriesFor(strings, t, leads, e.provided, s.provided)
    && EntriesFor(strings, t, parent, e.required, s.required)
  }

  ghost predicate ExtraAt(
    strings: seq<string>, t: Tables, fields: seq<Origin>, extras: seq<FieldExtra>, sources: seq<ExtraSource>, f: nat)
  {
    && f < |fields| && f < |t.fields| && f < |extras| && f < |sources|
    && ExtraStands(strings, t, OwnerOf(fields[f]), t.fields[f].ty.definition, extras[f], sources[f])
  }

  ghost predicate InputsOption(
    strings: seq<string>, t: Tables, g: Option<seq<InputItem>>, s: Option<seq<SelectionNode>>)
  {
    match (g, s)
    case (None, None) => true
    case (Some(x), Some(y)) => DenotesInputs(strings, t, x, y)
    case _ => false
  }

  ghost predicate MetadataStands(strings: seq<string>, t: Tables, g: Option<GraphValue>, v: Option<Value>) {
    match (g, v)
    case (None, None) => true
    case (Some(x), Some(y)) => DenotesValue(strings, t.enumValues, None, x, y)
    case _ => false
  }

  ghost predicate AuthorizedStands(strings: seq<string>, t: Tables, a: Authorized, s: AuthorizedSource) {
    && OptionStands(strings, t, s.on, a.items, s.items)
    && OptionStands(strings, t, s.leads, a.node, s.node)
    && InputsOption(strings, t, a.arguments, s.arguments)
    && MetadataStands(strings, t, a.metadata, s.metadata)
  }

  ghost predicate AuthorizedAt(strings: seq<string>, t: Tables, a: seq<Authorized>, s: seq<AuthorizedSource>, i: nat) {
    i < |a| && i < |s| && AuthorizedStands(strings, t, a[i], s[i])
  }

  ghost predicate KeyStands(
    strings: seq<string>, t: Tables, on: Definition, keys: seq<Key>, sources: seq<KeySource>, i: nat)
  {
    && i < |keys| && i < |sources|
    && keys[i].graph == sources[i].graph && keys[i].resolvable == sources[i].resolvable
    && keys[i].isInterfaceObject == sources[i].isInterfaceObject
    && SetStands(strings, t, on, keys[i].items, sources[i].items)
  }

  ghost predicate KeysFor(strings: seq<string>, t: Tables, on: Definition, keys: seq<Key>, sources: seq<KeySource>) {
    |keys| == |sources| && forall i | 0 <= i < |keys| :: KeyStands(strings, t, on, keys, sources, i)
  }

  ghost predicate KeysAt(
    strings: seq<string>, t: Tables, keys: map<Definition, seq<Key>>, sources: map<Definition, seq<KeySource>>,
    on: Definition)
  {
    on in keys && on in sources && KeysFor(strings, t, on, keys[on], sources[on])
  }

  ghost predicate ExtrasStand(
    strings: seq<string>, t: Tables, fields: seq<Origin>, extras: seq<FieldExtra>, sources: seq<ExtraSource>)
  {
    && |extras| == |sources| == |fields| == |t.fields|
    && forall f | 0 <= f < |extras| :: ExtraAt(strings, t, fields, extras, sources, f)
  }

  ghost predicate AllAuthorized(strings: seq<string>, t: Tables, a: seq<Authorized>, s: seq<AuthorizedSource>) {
    |a| == |s| && forall i | 0 <= i < |a| :: AuthorizedAt(strings, t, a, s, i)
  }

  ghost predicate AllKeys(
    strings: seq<string>, t: Tables, keys: map<Definition, seq<Key>>, sources: map<Definition, seq<KeySource>>)
  {
    keys.Keys == sources.Keys && forall on | on in keys :: KeysAt(strings, t, keys, sources, on)
  }

  /** What was written stands for what the document says. */
  ghost predicate ClosingStands(strings: seq<string>, t: Tables, fields: seq<Origin>, c: Closing, s: ClosingSource) {
    && ExtrasStand(strings, t, fields, c.extras, s.extras)
    && AllKeys(strings, t, c.keys, s.keys)
    && AllAuthorized(strings, t, c.authorized, s.authorized)
    && c.byField == s.byField && c.byObject == s.byObject && c.byInterface == s.byInterface
  }

  // ----- Growth -----

  lemma SetGrows(
    strings: seq<string>, more: seq<string>, t: Tables, target: Definition, g: seq<GraphSelection>, s: seq<SelectionNode>)
    requires strings <= more && Consistent(strings, t) && SetStands(strings, t, target, g, s)
    ensures SetStands(more, t, target, g, s)
  {
    forall i | 0 <= i < |s|
      ensures DenotesSelection(more, t, target, g[i], s[i])
    {
      SelectionGrows(strings, more, t, target, g[i], s[i]);
    }
  }

  lemma OptionGrows(
    strings: seq<string>, more: seq<string>, t: Tables, target: Definition,
    g: Option<seq<GraphSelection>>, s: Option<seq<SelectionNode>>)
    requires strings <= more && Consistent(strings, t) && OptionStands(strings, t, target, g, s)
    ensures OptionStands(more, t, target, g, s)
  {
    if g.Some? {
      SetGrows(strings, more, t, target, g.value, s.value);
    }
  }

  lemma EntriesForGrow(
    strings: seq<string>, more: seq<string>, t: Tables, target: Definition, gs: seq<GraphFields>, ss: seq<NodeFields>)
    requires strings <= more && Consistent(strings, t) && EntriesFor(strings, t, target, gs, ss)
    ensures EntriesFor(more, t, target, gs, ss)
  {
    forall i | 0 <= i < |gs|
      ensures EntryStands(more, t, target, gs, ss, i)
    {
      assert EntryStands(strings, t, target, gs, ss, i);
      SetGrows(strings, more, t, target, gs[i].items, ss[i].items);
    }
  }

  lemma ExtraGrows(
    strings: seq<string>, more: seq<string>, t: Tables, parent: Definition, leads: Definition, e: FieldExtra,
    s: ExtraSource)
    requires strings <= more && Consistent(strings, t) && ExtraStands(strings, t, parent, leads, e, s)
    ensures ExtraStands(more, t, parent, leads, e, s)
  {
    EntriesForGrow(strings, more, t, leads, e.provided, s.provided);
    EntriesForGrow(strings, more, t, parent, e.required, s.required);
  }

  lemma InputsOptionGrows(
    strings: seq<string>, more: seq<string>, t: Tables, g: Option<seq<InputItem>>, s: Option<seq<SelectionNode>>)
    requires strings <= more && InputsOption(strings, t, g, s)
    ensures InputsOption(more, t, g, s)
  {
    if g.Some? {
      forall i | 0 <= i < |s.value|
        ensures DenotesInput(more, t, g.value[i], s.value[i])
      {
        InputGrows(strings, more, t, g.value[i], s.value[i]);
      }
    }
  }

  lemma AuthorizedGrows(strings: seq<string>, more: seq<string>, t: Tables, a: Authorized, s: AuthorizedSource)
    requires strings <= more && Consistent(strings, t) && AuthorizedStands(strings, t, a, s)
    ensures AuthorizedStands(more, t, a, s)
  {
    OptionGrows(strings, more, t, s.on, a.items, s.items);
    OptionGrows(strings, more, t, s.leads, a.node, s.node);
    InputsOptionGrows(strings, more, t, a.arguments, s.arguments);
    if a.metadata.Some? {
      ValueGrows(strings, more, t.enumValues, None, a.metadata.value, s.metadata.value);
    }
  }

  lemma KeysForGrow(
    strings: seq<string>, more: seq<string>, t: Tables, on: Definition, keys: seq<Key>, sources: seq<KeySource>)
    requires strings <= more && Consistent(strings, t) && KeysFor(strings, t, on, keys, sources)
    ensures KeysFor(more, t, on, keys, sources)
  {
    forall i | 0 <= i < |keys|
      ensures KeyStands(more, t, on, keys, sources, i)
    {
      assert KeyStands(strings, t, on, keys, sources, i);
      SetGrows(strings, more, t, on, keys[i].items, sources[i].items);
    }
  }

  /** New strings change nothing about what was written. */
  lemma ClosingGrows(
    strings: seq<string>, more: seq<string>, t: Tables, fields: seq<Origin>, c: Closing, s: ClosingSource)
    requires strings <= more && Consistent(strings, t) && ClosingStands(strings, t, fields, c, s)
    ensures ClosingStands(more, t, fields, c, s)
  {
    forall f | 0 <= f < |c.extras|
      ensures ExtraAt(more, t, fields, c.extras, s.extras, f)
    {
      assert ExtraAt(strings, t, fields, c.extras, s.extras, f);
      ExtraGrows(strings, more, t, OwnerOf(fields[f]), t.fields[f].ty.definition, c.extras[f], s.extras[f]);
    }
    forall on | on in c.keys
      ensures KeysAt(more, t, c.keys, s.keys, on)
    {
      assert KeysAt(strings, t, c.keys, s.keys, on);
      KeysForGrow(strings, more, t, on, c.keys[on], s.keys[on]);
    }
    forall i | 0 <= i < |c.authorized|
      ensures AuthorizedAt(more, t, c.authorized, s.authorized, i)
    {
      assert AuthorizedAt(strings, t, c.authorized, s.authorized, i);
      AuthorizedGrows(strings, more, t, c.authorized[i], s.authorized[i]);
    }
  }

  // ----- Updates -----

  lemma SetExtra(
    strings: seq<string>, t: Tables, fields: seq<Origin>, c: Closing, s: ClosingSource, f: nat, e: FieldExtra,
    source: ExtraSource)
    requires ClosingStands(strings, t, fields, c, s) && f < |c.extras|
    requires ExtraStands(strings, t, OwnerOf(fields[f]), t.fields[f].ty.definition, e, source)
    ensures ClosingStands(strings, t, fields, c.(extras := c.extras[f := e]), WithExtra(s, Some(f), source))
  {
    var extras, sources := c.extras[f := e], s.extras[f := source];
    forall i | 0 <= i < |extras|
      ensures ExtraAt(strings, t, fields, extras, sources, i)
    {
      assert ExtraAt(strings, t, fields, c.extras, s.extras, i);
    }
  }

  lemma AddAuthorized(
    strings: seq<string>, t: Tables, a: seq<Authorized>, s: seq<AuthorizedSource>, x: Authorized, y: AuthorizedSource)
    requires AllAuthorized(strings, t, a, s) && AuthorizedStands(strings, t, x, y)
    ensures AllAuthorized(strings, t, a + [x], s + [y])
  {
    forall i | 0 <= i < |a + [x]|
      ensures AuthorizedAt(strings, t, a + [x], s + [y], i)
    {
      if i < |a| {
        assert AuthorizedAt(strings, t, a, s, i);
      }
    }
  }

  lemma AddKey(
    strings: seq<string>, t: Tables, keys: map<Definition, seq<Key>>, sources: map<Definition, seq<KeySource>>,
    on: Definition, key: Key, source: KeySource)
    requires AllKeys(strings, t, keys, sources) && KeyStands(strings, t, on, [key], [source], 0)
    ensures AllKeys(strings, t, keys[on := (if on in keys then keys[on] else []) + [key]],
                    sources[on := (if on in sources then sources[on] else []) + [source]])
  {
    var own, from := if on in keys then keys[on] else [], if on in sources then sources[on] else [];
    var after, more := keys[on := own + [key]], sources[on := from + [source]];
    assert on in keys ==> KeysAt(strings, t, keys, sources, on);
    forall i | 0 <= i < |own + [key]|
      ensures KeyStands(strings, t, on, own + [key], from + [source], i)
    {
      if i < |own| {
        assert KeyStands(strings, t, on, own, from, i);
      }
    }
    forall d | d in after
      ensures KeysAt(strings, t, after, more, d)
    {
      if d != on {
        assert KeysAt(strings, t, keys, sources, d);
      }
    }
  }
}
