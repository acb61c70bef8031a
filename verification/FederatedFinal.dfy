/**
 What a schema document is ingested to, in terms of the document alone.
 */
module FederatedFinal {
  import opened Common
  import opened Wrapping
  import opened TypeRefs
  import opened FederatedModel
  import opened FederatedJoin
  import opened FederatedRecords
  import opened FederatedLayout
  import opened FederatedDefinitions

  /** The registry with a root query type: a missing one is added under the default name. */
  function WithRoot(r: Registry, queryTypeName: Option<string>): Registry {
    if RootName(queryTypeName) in r.names then r else WithType(r, DEFAULT_ROOT, ObjectKind([], []))
  }

  /** The layout before the fields are read: an added root type has its reserved fields already. */
  function StartingLayout(r: Registry, queryTypeName: Option<string>): Layout {
    if RootName(queryTypeName) in r.names then Layout([], r.objects, r.interfaces)
    else
      var id := |r.objects|;
      Layout(Introspection(id), r.objects + [OwnerRecord(|r.types|, Range(0, 2))], r.interfaces)
  }

  function FinalRegistry(document: seq<DefinitionNode>): Registry {
    WithRoot(Definitions(document), QueryName(document, |document|))
  }

  /** The types and subgraphs that the document can refer to. */
  function FinalScope(document: seq<DefinitionNode>): Scope {
    Scope(FinalRegistry(document).names, FinalRegistry(document).graphNames)
  }

  function FinalLinks(document: seq<DefinitionNode>): Links {
    LinksRead(document, FinalScope(document), |document|)
  }

  function FinalEntries(document: seq<DefinitionNode>): Entries {
    EntriesRead(document, FinalRegistry(document).names, |document|)
  }

  function StartOf(document: seq<DefinitionNode>): Layout {
    StartingLayout(Definitions(document), QueryName(document, |document|))
  }

  /** The name of the root query type: the declared one if there is such a type. */
  function FinalQueryName(document: seq<DefinitionNode>): Option<string> {
    var name := QueryName(document, |document|);
    if RootName(name) in Definitions(document).names then name else Some(DEFAULT_ROOT)
  }

  function FinalRoot(document: seq<DefinitionNode>): Option<nat> {
    RootObject(FinalRegistry(document).names, FinalQueryName(document))
  }

  function FinalLayout(document: seq<DefinitionNode>): Layout {
    LaidOut(StartOf(document), document, FinalRegistry(document).names, FinalRoot(document), |document|)
  }

  /** Before the fields are read no input object declares anything. */
  function NothingDeclared(n: nat): seq<seq<InputValueNode>> {
    seq(n, i => [])
  }

  lemma NothingListed(inputs: seq<InputValueNode>, windows: seq<Window>)
    requires forall i | 0 <= i < |windows| :: windows[i] == Window(0, 0)
    ensures Listed(inputs, windows, NothingDeclared(|windows|))
  {
  }

  /** What each input object declares in the end. */
  function FinalInputs(document: seq<DefinitionNode>): seq<seq<InputValueNode>> {
    var final := FinalRegistry(document);
    InputsRead(NothingDeclared(final.inputObjects), document, final.names, |document|)
  }

  /** Every name leads to a record. */
  predicate InRange(names: map<string, Definition>, objects: nat, interfaces: nat, inputObjects: nat) {
    forall n | n in names ::
      match names[n]
      case Object(id) => id < objects
      case Interface(id) => id < interfaces
      case InputObject(id) => id < inputObjects
      case _ => true
  }

  lemma FinalWell(document: seq<DefinitionNode>)
    ensures WellRegistered(FinalRegistry(document))
    ensures var start, final := StartOf(document), FinalRegistry(document);
            InRange(final.names, |start.objects|, |start.interfaces|, final.inputObjects)
  {
    DefinitionsWell(document);
    WithTypeWellRegistered(Definitions(document), DEFAULT_ROOT, ObjectKind([], []));
    var start, final := StartOf(document), FinalRegistry(document);
    forall n | n in final.names
      ensures HandedOut(final, final.names[n])
    {
    }
    assert |start.objects| == |final.objects| && |start.interfaces| == |final.interfaces|;
  }

  // ----- Names -----

  predicate Redefines(d: DefinitionNode, name: string) {
    IsRegistered(d) && d.ty.name == name
  }

  lemma {:induction false} NameStays(document: seq<DefinitionNode>, i: nat, n: nat)
    requires i < n <= |document| && IsRegistered(document[i])
    requires forall j | i < j < n :: !Redefines(document[j], document[i].ty.name)
    ensures document[i].ty.name in Registered(document, n).names
    ensures Registered(document, n).names[document[i].ty.name] == Assigned(Registered(document, i), document[i].ty.kind)
  {
    if i < n - 1 {
      NameStays(document, i, n - 1);
      assert !Redefines(document[n - 1], document[i].ty.name);
    }
  }

  lemma {:induction false} ScalarsKeep(r: Registry, name: string, n: nat)
    requires name in r.names && name !in BUILTIN_SCALARS && n <= |BUILTIN_SCALARS|
    ensures name in WithScalars(r, n).names && WithScalars(r, n).names[name] == r.names[name]
  {
    if n > 0 {
      ScalarsKeep(r, name, n - 1);
    }
  }

  /** A name stands for the last type defined under it, unless it is that of a builtin scalar. */
  lemma LastDefinitionNames(document: seq<DefinitionNode>, i: nat)
    requires i < |document| && IsRegistered(document[i]) && document[i].ty.name !in BUILTIN_SCALARS
    requires forall j | i < j < |document| :: !Redefines(document[j], document[i].ty.name)
    ensures document[i].ty.name in Definitions(document).names
    ensures Definitions(document).names[document[i].ty.name] == Assigned(Registered(document, i), document[i].ty.kind)
  {
    NameStays(document, i, |document|);
    ScalarsKeep(Registered(document, |document|), document[i].ty.name, |BUILTIN_SCALARS|);
  }
}
