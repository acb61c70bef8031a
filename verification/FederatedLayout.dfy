/**
 The layout of the field table: which fields each type contributes, and the range it is given.
 */
module FederatedLayout {
  import opened Common
  import opened Wrapping
  import opened TypeRefs
  import opened FederatedModel
  import opened FederatedJoin
  import opened FederatedRecords

  /** The first `n` declared fields as entries of the source. */
  function Origins(parent: Definition, nodes: seq<FieldNode>, n: nat): seq<Origin>
    requires n <= |nodes|
  {
    if n == 0 then [] else Origins(parent, nodes, n - 1) + [Declared(parent, nodes[n - 1])]
  }

  lemma {:induction false} OriginsAt(parent: Definition, nodes: seq<FieldNode>, n: nat)
    requires n <= |nodes|
    ensures |Origins(parent, nodes, n)| == n
    ensures forall i | 0 <= i < n :: Origins(parent, nodes, n)[i] == Declared(parent, nodes[i])
  {
    if n > 0 {
      OriginsAt(parent, nodes, n - 1);
    }
  }

  const DEFAULT_ROOT := "Query"

  function RootName(queryTypeName: Option<string>): string {
    if queryTypeName.Some? then queryTypeName.value else DEFAULT_ROOT
  }

  /** The object behind the name of the root query type. */
  function RootObject(names: map<string, Definition>, queryTypeName: Option<string>): Option<nat> {
    var name := RootName(queryTypeName);
    if name in names && names[name].Object? then Some(names[name].id) else None
  }

  const SCHEMA_FIELD := "__schema"
  const TYPE_FIELD := "__type"

  /** The entries reserved at the end of the root query type. */
  function Introspection(root: nat): seq<Origin> {
    [Reserved(SCHEMA_FIELD, root), Reserved(TYPE_FIELD, root)]
  }

  /** What an object contributes: its fields, and on the root type two more. */
  function ObjectOrigins(nodes: seq<FieldNode>, id: nat, root: Option<nat>): seq<Origin> {
    Origins(Object(id), nodes, |nodes|) + if root == Some(id) then Introspection(id) else []
  }

  /** The owners after the fields from `start` to `end` were appended for one of them. */
  function WithRange(owners: seq<OwnerRecord>, id: nat, start: nat, end: nat): seq<OwnerRecord>
    requires id < |owners|
  {
    if start < end then owners[id := owners[id].(fields := Range(start, end))] else owners
  }

  datatype Layout = Layout(fields: seq<Origin>, objects: seq<OwnerRecord>, interfaces: seq<OwnerRecord>)

  /** The layout after the fields of one definition were read. */
  function WithFields(l: Layout, d: DefinitionNode, names: map<string, Definition>, root: Option<nat>): Layout {
    if !d.TypeDefinition? || d.ty.name !in names then l
    else match (d.ty.kind, names[d.ty.name])
      case (ObjectKind(_, nodes), Object(id)) =>
        if id < |l.objects| then
          var fields := l.fields + ObjectOrigins(nodes, id, root);
          l.(fields := fields, objects := WithRange(l.objects, id, |l.fields|, |fields|))
        else l
      case (InterfaceKind(_, nodes), Interface(id)) =>
        if id < |l.interfaces| then
          var fields := l.fields + Origins(Interface(id), nodes, |nodes|);
          l.(fields := fields, interfaces := WithRange(l.interfaces, id, |l.fields|, |fields|))
        else l
      case _ => l
  }

  /** The layout after the first `n` definitions. */
  function LaidOut(
    l: Layout, document: seq<DefinitionNode>, names: map<string, Definition>, root: Option<nat>, n: nat): Layout
    requires n <= |document|
  {
    if n == 0 then l else WithFields(LaidOut(l, document, names, root, n - 1), document[n - 1], names, root)
  }

  lemma {:induction false} LaidOutLengths(
    l: Layout, document: seq<DefinitionNode>, names: map<string, Definition>, root: Option<nat>, n: nat)
    requires n <= |document|
    ensures |LaidOut(l, document, names, root, n).objects| == |l.objects|
    ensures |LaidOut(l, document, names, root, n).interfaces| == |l.interfaces|
  {
    if n > 0 {
      LaidOutLengths(l, document, names, root, n - 1);
    }
  }

  // ----- Input objects -----

  predicate ListedAt(inputs: seq<InputValueNode>, windows: seq<Window>, declared: seq<seq<InputValueNode>>, id: nat) {
    id < |windows| && id < |declared| && Covers(inputs, windows[id], declared[id])
  }

  /** The window of every input object holds exactly the declared input values. */
  ghost predicate Listed(inputs: seq<InputValueNode>, windows: seq<Window>, declared: seq<seq<InputValueNode>>) {
    |windows| == |declared| && forall id | 0 <= id < |windows| :: ListedAt(inputs, windows, declared, id)
  }

  /** What the input objects declare after one more definition. */
  function WithInputs(declared: seq<seq<InputValueNode>>, d: DefinitionNode, names: map<string, Definition>)
    : seq<seq<InputValueNode>>
  {
    if d.TypeDefinition? && d.ty.kind.InputObjectKind? && d.ty.name in names && names[d.ty.name].InputObject?
       && names[d.ty.name].id < |declared|
    then declared[names[d.ty.name].id := d.ty.kind.inputs] else declared
  }

  function InputsRead(
    declared: seq<seq<InputValueNode>>, document: seq<DefinitionNode>, names: map<string, Definition>, n: nat)
    : seq<seq<InputValueNode>>
    requires n <= |document|
  {
    if n == 0 then declared else WithInputs(InputsRead(declared, document, names, n - 1), document[n - 1], names)
  }

  lemma ListedGrows(
    inputs: seq<InputValueNode>, more: seq<InputValueNode>, windows: seq<Window>, declared: seq<seq<InputValueNode>>)
    requires Listed(inputs, windows, declared) && inputs <= more
    ensures Listed(more, windows, declared)
  {
    forall id | 0 <= id < |windows|
      ensures ListedAt(more, windows, declared, id)
    {
      assert ListedAt(inputs, windows, declared, id);
      var w := windows[id];
      assert more[w.start..w.start + w.len] == inputs[w.start..w.start + w.len];
    }
  }

  lemma ListedWith(
    inputs: seq<InputValueNode>, windows: seq<Window>, declared: seq<seq<InputValueNode>>,
    id: nat, w: Window, nodes: seq<InputValueNode>)
    requires Listed(inputs, windows, declared) && id < |windows| && Covers(inputs, w, nodes)
    ensures Listed(inputs, windows[id := w], declared[id := nodes])
  {
    var after, more := windows[id := w], declared[id := nodes];
    forall k | 0 <= k < |windows|
      ensures ListedAt(inputs, after, more, k)
    {
      assert ListedAt(inputs, windows, declared, k);
    }
  }

  // ----- Input fields by name -----

  type Entries = map<(nat, string), InputValueNode>

  /** The fields of an input object, entered under their names; the last one of a name stays. */
  function WithEntries(entries: Entries, id: nat, nodes: seq<InputValueNode>, n: nat): Entries
    requires n <= |nodes|
  {
    if n == 0 then entries else WithEntries(entries, id, nodes, n - 1)[(id, nodes[n - 1].name) := nodes[n - 1]]
  }

  function EntriesWith(entries: Entries, d: DefinitionNode, names: map<string, Definition>): Entries {
    if d.TypeDefinition? && d.ty.kind.InputObjectKind? && d.ty.name in names && names[d.ty.name].InputObject?
    then WithEntries(entries, names[d.ty.name].id, d.ty.kind.inputs, |d.ty.kind.inputs|) else entries
  }

  function EntriesRead(document: seq<DefinitionNode>, names: map<string, Definition>, n: nat): Entries
    requires n <= |document|
  {
    if n == 0 then map[] else EntriesWith(EntriesRead(document, names, n - 1), document[n - 1], names)
  }

  predicate InputEntryAt(
    ids: map<(nat, string), nat>, inputs: seq<InputValueNode>, entries: Entries, key: (nat, string))
  {
    key in ids && key in entries && ids[key] < |inputs| && inputs[ids[key]] == entries[key] && entries[key].name == key.1
  }

  /** Every entry leads to the record of the input value it names. */
  ghost predicate InputEntriesStand(ids: map<(nat, string), nat>, inputs: seq<InputValueNode>, entries: Entries) {
    ids.Keys == entries.Keys && forall key | key in ids :: InputEntryAt(ids, inputs, entries, key)
  }

  lemma InputEntriesGrow(
    ids: map<(nat, string), nat>, inputs: seq<InputValueNode>, more: seq<InputValueNode>, entries: Entries)
    requires InputEntriesStand(ids, inputs, entries) && inputs <= more
    ensures InputEntriesStand(ids, more, entries)
  {
    forall key | key in ids
      ensures InputEntryAt(ids, more, entries, key)
    {
      assert InputEntryAt(ids, inputs, entries, key);
    }
  }

  /** An input value is entered when it is appended. */
  lemma EnterInput(
    ids: map<(nat, string), nat>, inputs: seq<InputValueNode>, entries: Entries, id: nat, n: InputValueNode)
    requires InputEntriesStand(ids, inputs, entries)
    ensures InputEntriesStand(ids[(id, n.name) := |inputs|], inputs + [n], entries[(id, n.name) := n])
  {
    var more, longer, after := ids[(id, n.name) := |inputs|], inputs + [n], entries[(id, n.name) := n];
    forall key | key in more
      ensures InputEntryAt(more, longer, after, key)
    {
      if key != (id, n.name) {
        assert InputEntryAt(ids, inputs, entries, key);
      }
    }
  }

  // ----- Links between types -----

  predicate AllJoinImplements(scope: Scope, directives: seq<DirectiveNode>) {
    forall i | 0 <= i < |directives| :: JoinImplementsOk(scope, directives[i])
  }

  predicate AllJoinMembers(scope: Scope, directives: seq<DirectiveNode>) {
    forall i | 0 <= i < |directives| :: JoinMemberOk(scope, directives[i])
  }

  /** The types that a type links to exist and are of the right kind, as do the subgraphs. */
  predicate LinksOk(scope: Scope, ty: TypeNode) {
    match ty.kind
    case ObjectKind(listed, _) => InterfacesOk(scope.names, listed) && AllJoinImplements(scope, ty.directives)
    case InterfaceKind(listed, _) => InterfacesOk(scope.names, listed) && AllJoinImplements(scope, ty.directives)
    case UnionKind(listed) => MembersOk(scope.names, listed) && AllJoinMembers(scope, ty.directives)
    case _ => true
  }

  function LinkedTo(l: Links, scope: Scope, d: Definition, listed: seq<string>, directives: seq<DirectiveNode>): Links {
    WithInterfaces(l, d, Ids(scope.names, listed, |listed|), JoinInterfaces(scope, directives, |directives|))
  }

  function WithLinks(l: Links, d: DefinitionNode, scope: Scope): Links {
    if !d.TypeDefinition? || d.ty.name !in scope.names then l
    else match (d.ty.kind, scope.names[d.ty.name])
      case (ObjectKind(listed, _), Object(id)) => LinkedTo(l, scope, Object(id), listed, d.ty.directives)
      case (InterfaceKind(listed, _), Interface(id)) => LinkedTo(l, scope, Interface(id), listed, d.ty.directives)
      case (UnionKind(listed), Union(id)) =>
        WithMembers(l, id, Ids(scope.names, listed, |listed|), JoinMembers(scope, d.ty.directives, |d.ty.directives|))
      case _ => l
  }

  function LinksRead(document: seq<DefinitionNode>, scope: Scope, n: nat): Links
    requires n <= |document|
  {
    if n == 0 then NO_LINKS else WithLinks(LinksRead(document, scope, n - 1), document[n - 1], scope)
  }

  // ----- What is accepted -----

  /** A definition whose fields are accepted: its name still stands for a type of its kind, and everything it
      refers to exists. */
  predicate Accepted(d: DefinitionNode, scope: Scope, root: Option<nat>) {
    d.TypeDefinition? ==>
      && LinksOk(scope, d.ty)
      && match d.ty.kind
         case ObjectKind(_, nodes) =>
           IsObjectName(scope.names, d.ty.name) && root.Some? && FieldsOk(scope, nodes, |nodes|)
         case InterfaceKind(_, nodes) =>
           IsInterfaceName(scope.names, d.ty.name) && FieldsOk(scope, nodes, |nodes|)
         case UnionKind(_) => d.ty.name in scope.names && scope.names[d.ty.name].Union?
         case InputObjectKind(nodes) =>
           d.ty.name in scope.names && scope.names[d.ty.name].InputObject? && InputsOk(scope.names, nodes)
         case _ => true
  }

  predicate AllAccepted(document: seq<DefinitionNode>, scope: Scope, root: Option<nat>, n: nat)
    requires n <= |document|
  {
    n == 0 || (Accepted(document[n - 1], scope, root) && AllAccepted(document, scope, root, n - 1))
  }

  lemma {:induction false} AcceptedAt(document: seq<DefinitionNode>, scope: Scope, root: Option<nat>, i: nat, n: nat)
    requires i < n <= |document| && AllAccepted(document, scope, root, n)
    ensures Accepted(document[i], scope, root)
  {
    if i < n - 1 {
      AcceptedAt(document, scope, root, i, n - 1);
    }
  }

  // ----- The root query type -----

  /** The name of the root query type in the first `n` definitions; the last schema definition wins. */
  function QueryName(document: seq<DefinitionNode>, n: nat): Option<string>
    requires n <= |document|
  {
    if n == 0 then None
    else if document[n - 1].SchemaNode? && document[n - 1].query.Some? then document[n - 1].query
    else QueryName(document, n - 1)
  }

  predicate SchemaOk(d: DefinitionNode) {
    d.SchemaNode? ==> forall i | 0 <= i < |d.directives| :: d.directives[i] == LINK_DIRECTIVE
  }

  const LINK_DIRECTIVE := "link"

  predicate SchemasOk(document: seq<DefinitionNode>, n: nat)
    requires n <= |document|
  {
    n == 0 || (SchemaOk(document[n - 1]) && SchemasOk(document, n - 1))
  }

  lemma {:induction false} SchemasOkPrefix(document: seq<DefinitionNode>, i: nat, n: nat)
    requires i <= n <= |document| && SchemasOk(document, n)
    ensures SchemasOk(document, i)
  {
    if i < n {
      SchemasOkPrefix(document, i, n - 1);
    }
  }
}
