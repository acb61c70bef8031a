/**
 What the tables of an analyzed schema hold, told by the nodes of the document: no field, argument or member is
 left out, and each is read as it is written.
 */
module TypedReadings {
  import opened Common
  import opened TypedTypes
  import opened KeyedTables
  import opened TypedAnalysis
  import opened TypedSchema
  import opened TypedTheorems
  import opened TypedQueries

  // ----- Fields and arguments -----

  /** The first resolver directive names this resolver. */
  ghost predicate NamesResolver(directives: seq<DirectiveNode>, text: string) {
    exists i: nat :: IsFirst(directives, "resolver", i) && NamesString(directives[i].arguments, "name", text)
  }

  ghost predicate FieldRead(node: FieldNode, names: map<string, Definition>, f: Field) {
    && f.name == node.name && Resolve(node.ty, names) == Some(f.ty) && (f.hasArguments <==> node.arguments != [])
    && forall text :: f.resolverName == Some(text) <==> NamesResolver(node.directives, text)
  }

  predicate InputRead(node: ArgumentNode, names: map<string, Definition>, f: Field) {
    f.name == node.name && Resolve(node.ty, names) == Some(f.ty) && !f.hasArguments && f.resolverName == None
  }

  predicate ArgumentRead(node: ArgumentNode, names: map<string, Definition>, a: FieldArgument) {
    a.name == node.name && Resolve(node.ty, names) == Some(a.ty)
  }

  /** A node that is found under an object; the arguments of fields of interfaces are not recorded. */
  datatype Found = Found(owner: nat, origin: Origin, recorded: bool)

  ghost predicate EntryRead(names: map<string, Definition>, found: Found, e: Entry) {
    && e.owner == found.owner && e.origin == found.origin
    && match found.origin
       case WrittenField(node) =>
         && FieldRead(node, names, e.field)
         && if found.recorded then Sifted(node.arguments, (n, a: FieldArgument) => ArgumentRead(n, names, a), e.arguments)
            else e.arguments == []
       case WrittenInput(node) => InputRead(node, names, e.field) && e.arguments == []
  }

  /** The field of such an entry. */
  ghost predicate OriginRead(names: map<string, Definition>, found: Found, f: Field) {
    match found.origin
    case WrittenField(node) => FieldRead(node, names, f)
    case WrittenInput(node) => InputRead(node, names, f)
  }

  /** The nodes of a field list, in order. */
  function FoundFields(id: nat, nodes: seq<FieldNode>, recorded: bool): seq<Found> {
    seq(|nodes|, i requires 0 <= i < |nodes| => Found(id, WrittenField(nodes[i]), recorded))
  }

  function FoundInputs(id: nat, nodes: seq<ArgumentNode>): seq<Found> {
    seq(|nodes|, i requires 0 <= i < |nodes| => Found(id, WrittenInput(nodes[i]), false))
  }

  /** The nodes that a definition lists under the object that its name stands for. */
  function FoundIn(d: DefinitionNode, names: map<string, Definition>): seq<Found> {
    if d.TypeDefinition? && d.name in names && names[d.name].Object? then
      match d.kind
      case ObjectKind(_, nodes) => FoundFields(names[d.name].id, nodes, true)
      case InterfaceKind(nodes) => FoundFields(names[d.name].id, nodes, false)
      case InputObjectKind(nodes) => FoundInputs(names[d.name].id, nodes)
      case _ => []
    else []
  }

  lemma FieldAnalyzed(node: FieldNode, names: map<string, Definition>)
    ensures AnalyzeField(node, names).Some? <==> Resolve(node.ty, names).Some?
    ensures AnalyzeField(node, names).Some? ==> FieldRead(node, names, AnalyzeField(node, names).value)
  {
    forall text
      ensures ResolverName(node.directives) == Some(text) <==> NamesResolver(node.directives, text)
    {
      ResolverNamedExactly(node.directives, text);
    }
  }

  lemma {:induction false} ArgumentsAreRead(nodes: seq<ArgumentNode>, names: map<string, Definition>, n: nat)
    requires n <= |nodes|
    ensures Sifted(nodes[..n], (node, a: FieldArgument) => ArgumentRead(node, names, a), Arguments(nodes, names, n))
  {
    hide Sifted;
    var makes := (node, a: FieldArgument) => ArgumentRead(node, names, a);
    if n == 0 {
      SiftedNone(makes);
    } else {
      var before, node := Arguments(nodes, names, n - 1), nodes[n - 1];
      ArgumentsAreRead(nodes, names, n - 1);
      assert nodes[..n] == nodes[..n - 1] + [node];
      var ty := Resolve(node.ty, names);
      if ty.Some? {
        SiftedOne(nodes[..n - 1], node, makes, before, FieldArgument(node.name, ty.value));
      } else {
        SiftedSkip(nodes[..n - 1], node, makes, before);
      }
    }
  }

  // ----- Entries -----

  /** The entries and the fields in them are read from the same nodes. */
  ghost predicate AllRead(names: map<string, Definition>, found: seq<Found>, entries: seq<Entry>) {
    && Sifted(found, (x, e: Entry) => EntryRead(names, x, e), entries)
    && Sifted(found, (x, f: Field) => OriginRead(names, x, f), FieldList(entries, |entries|))
  }

  lemma {:induction false} FieldListPrefix(entries: seq<Entry>, more: seq<Entry>, n: nat)
    requires n <= |entries| && entries <= more
    ensures FieldList(entries, n) == FieldList(more, n)
  {
    if n > 0 {
      FieldListPrefix(entries, more, n - 1);
    }
  }

  lemma ReadOne(names: map<string, Definition>, found: seq<Found>, entries: seq<Entry>, x: Found, e: Entry)
    requires AllRead(names, found, entries) && EntryRead(names, x, e)
    ensures AllRead(names, found + [x], entries + [e])
  {
    hide Sifted, FieldRead;
    FieldListPrefix(entries, entries + [e], |entries|);
    SiftedOne(found, x, (x, e: Entry) => EntryRead(names, x, e), entries, e);
    SiftedOne(found, x, (x, f: Field) => OriginRead(names, x, f), FieldList(entries, |entries|), e.field);
  }

  lemma ReadNone(names: map<string, Definition>, found: seq<Found>, entries: seq<Entry>, x: Found)
    requires AllRead(names, found, entries) && forall f :: !OriginRead(names, x, f)
    ensures AllRead(names, found + [x], entries)
  {
    hide Sifted, FieldRead;
    forall e
      ensures !EntryRead(names, x, e)
    {
      assert !OriginRead(names, x, e.field);
    }
    SiftedSkip(found, x, (x, e: Entry) => EntryRead(names, x, e), entries);
    SiftedSkip(found, x, (x, f: Field) => OriginRead(names, x, f), FieldList(entries, |entries|));
  }

  lemma NothingRead(names: map<string, Definition>)
    ensures AllRead(names, [], [])
  {
    hide Sifted;
    SiftedNone((x, e: Entry) => EntryRead(names, x, e));
    SiftedNone((x, f: Field) => OriginRead(names, x, f));
  }

  lemma Unresolved(node: FieldNode, names: map<string, Definition>, x: Found)
    requires x.origin == WrittenField(node) && Resolve(node.ty, names).None?
    ensures forall f :: !OriginRead(names, x, f)
  {
  }

  lemma {:induction false} ObjectEntriesAreRead(id: nat, nodes: seq<FieldNode>, names: map<string, Definition>, n: nat)
    requires n <= |nodes|
    ensures AllRead(names, FoundFields(id, nodes, true)[..n], ObjectEntries(id, nodes, names, n))
  {
    hide AllRead, FieldRead, Sifted;
    if n == 0 {
      NothingRead(names);
    } else {
      var found, node, before := FoundFields(id, nodes, true), nodes[n - 1], ObjectEntries(id, nodes, names, n - 1);
      ObjectEntriesAreRead(id, nodes, names, n - 1);
      FieldAnalyzed(node, names);
      assert found[..n] == found[..n - 1] + [found[n - 1]];
      var field := AnalyzeField(node, names);
      if field.Some? {
        ArgumentsAreRead(node.arguments, names, |node.arguments|);
        assert node.arguments[..|node.arguments|] == node.arguments;
        ReadOne(names, found[..n - 1], before, found[n - 1],
                Entry(id, WrittenField(node), field.value, Arguments(node.arguments, names, |node.arguments|)));
      } else {
        Unresolved(node, names, found[n - 1]);
        ReadNone(names, found[..n - 1], before, found[n - 1]);
      }
    }
  }

  lemma {:induction false} InterfaceEntriesAreRead(
    id: nat, nodes: seq<FieldNode>, names: map<string, Definition>, n: nat)
    requires n <= |nodes|
    ensures AllRead(names, FoundFields(id, nodes, false)[..n], InterfaceEntries(id, nodes, names, n))
  {
    hide AllRead, FieldRead, Sifted;
    if n == 0 {
      NothingRead(names);
    } else {
      var found, node, before := FoundFields(id, nodes, false), nodes[n - 1], InterfaceEntries(id, nodes, names, n - 1);
      InterfaceEntriesAreRead(id, nodes, names, n - 1);
      FieldAnalyzed(node, names);
      assert found[..n] == found[..n - 1] + [found[n - 1]];
      var field := AnalyzeField(node, names);
      if field.Some? {
        ReadOne(names, found[..n - 1], before, found[n - 1], Entry(id, WrittenField(node), field.value, []));
      } else {
        Unresolved(node, names, found[n - 1]);
        ReadNone(names, found[..n - 1], before, found[n - 1]);
      }
    }
  }

  lemma {:induction false} InputEntriesAreRead(id: nat, nodes: seq<ArgumentNode>, names: map<string, Definition>, n: nat)
    requires n <= |nodes|
    ensures AllRead(names, FoundInputs(id, nodes)[..n], InputEntries(id, nodes, names, n))
  {
    hide AllRead, Sifted;
    if n == 0 {
      NothingRead(names);
    } else {
      var found, node, before := FoundInputs(id, nodes), nodes[n - 1], InputEntries(id, nodes, names, n - 1);
      InputEntriesAreRead(id, nodes, names, n - 1);
      assert found[..n] == found[..n - 1] + [found[n - 1]];
      var field := AnalyzeInputField(node, names);
      if field.Some? {
        ReadOne(names, found[..n - 1], before, found[n - 1], Entry(id, WrittenInput(node), field.value, []));
      } else {
        ReadNone(names, found[..n - 1], before, found[n - 1]);
      }
    }
  }

  /** A definition enters one field for each of its nodes whose type resolves, in order and none left out. */
  lemma DefinitionIsRead(d: DefinitionNode, names: map<string, Definition>)
    ensures AllRead(names, FoundIn(d, names), EntriesOf(d, names))
  {
    hide AllRead, ObjectEntries, InterfaceEntries, InputEntries;
    NothingRead(names);
    if Target(d, names).Some? {
      var id, found := Target(d, names).value, FoundIn(d, names);
      match d.kind
      case ObjectKind(_, nodes) =>
        ObjectEntriesAreRead(id, nodes, names, |nodes|);
        assert found[..|nodes|] == found;
      case InterfaceKind(nodes) =>
        InterfaceEntriesAreRead(id, nodes, names, |nodes|);
        assert found[..|nodes|] == found;
      case InputObjectKind(nodes) =>
        InputEntriesAreRead(id, nodes, names, |nodes|);
        assert found[..|nodes|] == found;
    }
  }

  // ----- The document -----

  /** The nodes under all objects, over the first `n` definitions. */
  function AllFound(document: seq<DefinitionNode>, names: map<string, Definition>, n: nat): seq<Found>
    requires n <= |document|
  {
    if n == 0 then [] else AllFound(document, names, n - 1) + FoundIn(document[n - 1], names)
  }

  /** The nodes under one object. */
  function FoundUnder(document: seq<DefinitionNode>, names: map<string, Definition>, id: nat, n: nat): seq<Found>
    requires n <= |document|
  {
    if n == 0 then []
    else
      var before, d := FoundUnder(document, names, id, n - 1), document[n - 1];
      if d.TypeDefinition? && d.name in names && names[d.name] == Object(id) then before + FoundIn(d, names) else before
  }

  /** The positions of fields are handed out to the nodes whose types resolve, in the order of the document; the
      entry at each position is read from its node. */
  lemma {:induction false} EntriesAreRead(document: seq<DefinitionNode>, names: map<string, Definition>, n: nat)
    requires n <= |document|
    ensures Sifted(AllFound(document, names, n), (x, e: Entry) => EntryRead(names, x, e), Entries(document, names, n))
  {
    hide Sifted, EntryRead, OriginRead, EntriesOf, FoundIn;
    var makes := (x, e: Entry) => EntryRead(names, x, e);
    if n == 0 {
      SiftedNone(makes);
    } else {
      EntriesAreRead(document, names, n - 1);
      DefinitionIsRead(document[n - 1], names);
      SiftedConcat(AllFound(document, names, n - 1), FoundIn(document[n - 1], names), makes,
                   Entries(document, names, n - 1), EntriesOf(document[n - 1], names));
    }
  }

  lemma NotUnder(d: DefinitionNode, names: map<string, Definition>, id: nat)
    ensures Target(d, names) == Some(id) ==> d.TypeDefinition? && d.name in names && names[d.name] == Object(id)
    ensures d.TypeDefinition? && d.name in names && names[d.name] == Object(id) && Target(d, names) != Some(id) ==>
              FoundIn(d, names) == []
  {
  }

  lemma {:induction false} FieldsUnderAreRead(
    document: seq<DefinitionNode>, names: map<string, Definition>, id: nat, n: nat)
    requires n <= |document|
    ensures Sifted(FoundUnder(document, names, id, n), (x, f: Field) => OriginRead(names, x, f),
                   FieldsUnder(document, names, id, n))
  {
    hide Sifted, OriginRead, EntryRead, EntriesOf, FoundIn, Target;
    var makes := (x, f: Field) => OriginRead(names, x, f);
    if n == 0 {
      SiftedNone(makes);
    } else {
      var d, before := document[n - 1], FoundUnder(document, names, id, n - 1);
      FieldsUnderAreRead(document, names, id, n - 1);
      NotUnder(d, names, id);
      if Target(d, names) == Some(id) {
        DefinitionIsRead(d, names);
        SiftedConcat(before, FoundIn(d, names), makes, FieldsUnder(document, names, id, n - 1), FieldsDeclared(d, names));
      } else {
        assert before + [] == before;
      }
    }
  }

  /** For every document, the fields found for an object are read from the nodes that its definition and its
      extensions list: one for each node whose type resolves, in order and none left out. */
  lemma ObjectFieldsAreRead(document: seq<DefinitionNode>, id: nat)
    ensures Sifted(FoundUnder(document, NamesOf(document), id, |document|),
                   (x, f: Field) => OriginRead(NamesOf(document), x, f),
                   Filtered(SortByKey(FieldsFound(document)), id))
  {
    hide Sifted, OriginRead, FieldsUnder, FoundUnder;
    ObjectFieldsAreDeclared(document, id);
    FieldsUnderAreRead(document, NamesOf(document), id, |document|);
  }

  // ----- Members of unions -----

  /** The members of a definition are the objects among the names that it lists, in order and none left out. */
  lemma {:induction false} MembersAreRead(members: seq<string>, names: map<string, Definition>, n: nat)
    requires n <= |members|
    ensures Sifted(members[..n], (name, id: nat) => name in names && names[name] == Object(id),
                   ObjectMembers(members, names, n))
  {
    hide Sifted;
    var makes := (name, id: nat) => name in names && names[name] == Object(id);
    if n == 0 {
      SiftedNone(makes);
    } else {
      var before, name := ObjectMembers(members, names, n - 1), members[n - 1];
      MembersAreRead(members, names, n - 1);
      assert members[..n] == members[..n - 1] + [name];
      if name in names && names[name].Object? {
        SiftedOne(members[..n - 1], name, makes, before, names[name].id);
      } else {
        SiftedSkip(members[..n - 1], name, makes, before);
      }
    }
  }

  // ----- Names -----

  /** A definition that the first pass enters. */
  predicate IsEntered(d: DefinitionNode) {
    d.TypeDefinition? && !d.extend && !d.kind.InterfaceKind?
  }

  /** The kind of a definition, and the record it is entered with. */
  predicate EnteredAs(t: TopLevel, d: DefinitionNode, to: Definition)
    requires IsEntered(d)
  {
    match d.kind
    case ScalarKind => to.CustomScalar? && to.id < |t.scalars| && t.scalars[to.id] == d.name
    case ObjectKind(_, _) => to.Object? && to.id < |t.objects| && t.objects[to.id] == ObjectRecord(d.name, false)
    case InputObjectKind(_) => to.Object? && to.id < |t.objects| && t.objects[to.id] == ObjectRecord(d.name, true)
    case UnionKind(_) => to.Union? && to.id < |t.unions| && t.unions[to.id] == d.name
    case EnumKind(_) => to.Enum? && to.id < |t.enums| && t.enums[to.id] == d.name
  }

  lemma EnteredNow(t: TopLevel, d: DefinitionNode)
    requires IsEntered(d)
    ensures d.name in WithTop(t, d).names && EnteredAs(WithTop(t, d), d, WithTop(t, d).names[d.name])
  {
  }

  /** Another definition leaves the record and the name alone. */
  lemma EnteredBefore(t: TopLevel, d: DefinitionNode, e: DefinitionNode)
    requires IsEntered(e) && (IsEntered(d) ==> d.name != e.name)
    requires e.name in t.names && EnteredAs(t, e, t.names[e.name])
    ensures e.name in WithTop(t, d).names && WithTop(t, d).names[e.name] == t.names[e.name]
    ensures EnteredAs(WithTop(t, d), e, t.names[e.name])
  {
    assert Extends(t, WithTop(t, d));
  }

  lemma {:induction false} EnteredStays(document: seq<DefinitionNode>, i: nat, n: nat)
    requires i < n <= |document| && IsEntered(document[i])
    requires forall j | i < j < n && IsEntered(document[j]) :: document[j].name != document[i].name
    ensures document[i].name in Top(document, n).names
    ensures EnteredAs(Top(document, n), document[i], Top(document, n).names[document[i].name])
  {
    hide WithTop, EnteredAs;
    if i < n - 1 {
      EnteredStays(document, i, n - 1);
      EnteredBefore(Top(document, n - 1), document[n - 1], document[i]);
    } else {
      EnteredNow(Top(document, n - 1), document[i]);
    }
  }

  lemma {:induction false} RootsKeep(t: TopLevel, name: string, n: nat)
    requires name in t.names && n <= |ROOTS|
    ensures name in WithRoots(t, n).names && WithRoots(t, n).names[name] == t.names[name]
    ensures Extends(t, WithRoots(t, n))
  {
    if n > 0 {
      RootsKeep(t, name, n - 1);
    }
  }

  /** A name stands for the last definition entered under it, of its own kind. */
  lemma NameStandsForLast(document: seq<DefinitionNode>, i: nat)
    requires i < |document| && IsEntered(document[i])
    requires forall j | i < j < |document| && IsEntered(document[j]) :: document[j].name != document[i].name
    ensures document[i].name in NamesOf(document)
    ensures EnteredAs(FirstPass(document), document[i], NamesOf(document)[document[i].name])
  {
    EnteredStays(document, i, |document|);
    RootsKeep(Top(document, |document|), document[i].name, |ROOTS|);
  }
}
