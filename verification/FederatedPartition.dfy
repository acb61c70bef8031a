/**
 The ranges of the types and the field table.  A range never holds a field of another type.
 The ranges partition the table exactly when no type is given fields twice: a second
 definition under the same name, or one that takes over the name of an added root type,
 replaces the range and leaves the earlier fields without an owner.
 */
module FederatedPartition {
  import opened Common
  import opened Wrapping
  import opened TypeRefs
  import opened FederatedModel
  import opened FederatedJoin
  import opened FederatedRecords
  import opened FederatedLayout
  import opened FederatedDefinitions
  import opened FederatedFinal
  import opened FederatedState
  import opened FederatedSelecting
  import opened FederatedClosing
  import opened FederatedAttach
  import opened FederatedIngest

  predicate Within(r: Range, f: nat) {
    r.start <= f < r.end
  }

  predicate IsOwner(l: Layout, d: Definition) {
    match d
    case Object(id) => id < |l.objects|
    case Interface(id) => id < |l.interfaces|
    case _ => false
  }

  function RangeOf(l: Layout, d: Definition): Range
    requires IsOwner(l, d)
  {
    match d
    case Object(id) => l.objects[id].fields
    case Interface(id) => l.interfaces[id].fields
  }

  /** The range of the type contains the field. */
  predicate Owns(l: Layout, d: Definition, f: nat) {
    IsOwner(l, d) && Within(RangeOf(l, d), f)
  }

  predicate Comes(l: Layout, d: Definition, f: nat) {
    f < |l.fields| && OwnerOf(l.fields[f]) == d
  }

  /** No range contains a field of another type. */
  ghost predicate Sound(l: Layout) {
    forall d, f: nat :: Owns(l, d, f) ==> Comes(l, d, f)
  }

  /** Each range holds the fields of its type and no others, so every field has one owner. */
  ghost predicate Exact(l: Layout) {
    forall d, f: nat :: Owns(l, d, f) <==> Comes(l, d, f)
  }

  predicate Unowning(l: Layout, d: Definition) {
    IsOwner(l, d) ==> RangeOf(l, d) == NO_FIELDS
  }

  // ----- Fields are given to a type -----

  /** Appends fields and gives their range to an object or interface. */
  function Give(l: Layout, d: Definition, added: seq<Origin>): Layout
    requires IsOwner(l, d)
  {
    var fields := l.fields + added;
    match d
    case Object(id) => l.(fields := fields, objects := WithRange(l.objects, id, |l.fields|, |fields|))
    case Interface(id) => l.(fields := fields, interfaces := WithRange(l.interfaces, id, |l.fields|, |fields|))
  }

  predicate AllFrom(added: seq<Origin>, d: Definition) {
    forall i | 0 <= i < |added| :: OwnerOf(added[i]) == d
  }

  lemma {:induction false} GiveSound(l: Layout, d: Definition, added: seq<Origin>)
    requires Sound(l) && IsOwner(l, d) && AllFrom(added, d)
    ensures Sound(Give(l, d, added))
  {
    var m := Give(l, d, added);
    forall e, f: nat | Owns(m, e, f)
      ensures Comes(m, e, f)
    {
      if Owns(l, e, f) {
        assert Comes(l, e, f);
      } else {
        assert m.fields[f] == added[f - |l.fields|];
      }
    }
  }

  lemma {:induction false} GiveExact(l: Layout, d: Definition, added: seq<Origin>)
    requires Exact(l) && IsOwner(l, d) && AllFrom(added, d) && (added == [] || Unowning(l, d))
    ensures Exact(Give(l, d, added))
  {
    var m := Give(l, d, added);
    GiveSound(l, d, added);
    forall e, f: nat | Comes(m, e, f)
      ensures Owns(m, e, f)
    {
      if f < |l.fields| {
        assert Comes(l, e, f) && Owns(l, e, f);
      } else {
        assert m.fields[f] == added[f - |l.fields|];
      }
    }
  }

  /** The field comes from the type, but the type's range starts behind it. */
  predicate Lost(l: Layout, d: Definition, f: nat) {
    Comes(l, d, f) && IsOwner(l, d) && f < RangeOf(l, d).start
  }

  lemma GiveLoses(l: Layout, d: Definition, added: seq<Origin>, f: nat)
    requires IsOwner(l, d) && Comes(l, d, f) && added != []
    ensures Lost(Give(l, d, added), d, f)
  {
  }

  lemma GiveStaysLost(l: Layout, d: Definition, added: seq<Origin>, e: Definition, f: nat)
    requires IsOwner(l, d) && Lost(l, e, f)
    ensures Lost(Give(l, d, added), e, f)
  {
  }

  // ----- One definition -----

  predicate HasFields(d: DefinitionNode) {
    d.TypeDefinition? && (d.ty.kind.ObjectKind? || d.ty.kind.InterfaceKind?)
  }

  /** The fields that a definition contributes. */
  function Contribution(d: DefinitionNode, names: map<string, Definition>, root: Option<nat>): seq<Origin> {
    if !d.TypeDefinition? || d.ty.name !in names then []
    else match (d.ty.kind, names[d.ty.name])
      case (ObjectKind(_, nodes), Object(id)) => ObjectOrigins(nodes, id, root)
      case (InterfaceKind(_, nodes), Interface(id)) => Origins(Interface(id), nodes, |nodes|)
      case _ => []
  }

  lemma {:induction false} ContributionOwner(d: DefinitionNode, names: map<string, Definition>, root: Option<nat>)
    requires d.TypeDefinition? && d.ty.name in names
    ensures AllFrom(Contribution(d, names, root), names[d.ty.name])
  {
    match (d.ty.kind, names[d.ty.name])
    case (ObjectKind(_, nodes), Object(id)) => OriginsAt(Object(id), nodes, |nodes|);
    case (InterfaceKind(_, nodes), Interface(id)) => OriginsAt(Interface(id), nodes, |nodes|);
    case _ =>
  }

  // ----- The document -----

  function NamesOf(document: seq<DefinitionNode>): map<string, Definition> {
    FinalRegistry(document).names
  }

  function ContributionAt(document: seq<DefinitionNode>, i: nat): seq<Origin>
    requires i < |document|
  {
    Contribution(document[i], NamesOf(document), FinalRoot(document))
  }

  /** The type that a definition's fields go to. */
  predicate GoesTo(document: seq<DefinitionNode>, i: nat, d: Definition)
    requires i < |document|
  {
    HasFields(document[i]) && document[i].ty.name in NamesOf(document) && NamesOf(document)[document[i].ty.name] == d
  }

  /** The object added for a missing root query type, which has its reserved fields from the start. */
  function Added(document: seq<DefinitionNode>): Option<Definition> {
    if RootName(QueryName(document, |document|)) in Definitions(document).names then None
    else Some(Object(|Definitions(document).objects|))
  }

  /** The type was given fields before definition `n` was read. */
  predicate Filled(document: seq<DefinitionNode>, d: Definition, n: nat)
    requires n <= |document|
  {
    if n == 0 then Added(document) == Some(d)
    else Filled(document, d, n - 1) || (GoesTo(document, n - 1, d) && ContributionAt(document, n - 1) != [])
  }

  function LayoutAt(document: seq<DefinitionNode>, n: nat): Layout
    requires n <= |document|
  {
    LaidOut(StartOf(document), document, NamesOf(document), FinalRoot(document), n)
  }

  /** Reading an accepted definition gives its contribution to its type. */
  lemma {:induction false} OneStep(document: seq<DefinitionNode>, i: nat)
    requires Readable(document) && i < |document|
    ensures HasFields(document[i]) ==>
              && document[i].ty.name in NamesOf(document)
              && var d := NamesOf(document)[document[i].ty.name];
              && IsOwner(LayoutAt(document, i), d) && AllFrom(ContributionAt(document, i), d)
              && LayoutAt(document, i + 1) == Give(LayoutAt(document, i), d, ContributionAt(document, i))
    ensures !HasFields(document[i]) ==> LayoutAt(document, i + 1) == LayoutAt(document, i)
  {
    var names, root := NamesOf(document), FinalRoot(document);
    AcceptedAt(document, FinalScope(document), root, i, |document|);
    FinalWell(document);
    LaidOutLengths(StartOf(document), document, names, root, i);
    if HasFields(document[i]) {
      ContributionOwner(document[i], names, root);
    }
  }

  // ----- The start -----

  predicate OwnNothing(owners: seq<OwnerRecord>) {
    forall i | 0 <= i < |owners| :: owners[i].fields == NO_FIELDS
  }

  lemma {:induction false} RegisteredOwnsNothing(document: seq<DefinitionNode>, n: nat)
    requires n <= |document|
    ensures OwnNothing(Registered(document, n).objects) && OwnNothing(Registered(document, n).interfaces)
  {
    if n > 0 {
      RegisteredOwnsNothing(document, n - 1);
    }
  }

  lemma {:induction false} ScalarsOwnNothing(r: Registry, n: nat)
    requires n <= |BUILTIN_SCALARS|
    ensures WithScalars(r, n).objects == r.objects && WithScalars(r, n).interfaces == r.interfaces
  {
    if n > 0 {
      ScalarsOwnNothing(r, n - 1);
    }
  }

  lemma StartingExact(r: Registry, queryTypeName: Option<string>)
    requires OwnNothing(r.objects) && OwnNothing(r.interfaces)
    ensures Exact(StartingLayout(r, queryTypeName))
  {
    var l := StartingLayout(r, queryTypeName);
    forall e, f: nat
      ensures Owns(l, e, f) <==> Comes(l, e, f)
    {
    }
  }

  lemma StartExact(document: seq<DefinitionNode>)
    ensures Exact(StartOf(document))
    ensures forall d :: Unowning(StartOf(document), d) || Added(document) == Some(d)
  {
    RegisteredOwnsNothing(document, |document|);
    ScalarsOwnNothing(Registered(document, |document|), |BUILTIN_SCALARS|);
    StartingExact(Definitions(document), QueryName(document, |document|));
  }

  // ----- All definitions -----

  /** No range ever contains a field of another type. */
  lemma {:induction false} RangesAreSound(document: seq<DefinitionNode>, n: nat)
    requires Readable(document) && n <= |document|
    ensures Sound(LayoutAt(document, n))
  {
    if n == 0 {
      StartExact(document);
    } else {
      RangesAreSound(document, n - 1);
      OneStep(document, n - 1);
      if HasFields(document[n - 1]) {
        GiveSound(LayoutAt(document, n - 1), NamesOf(document)[document[n - 1].ty.name], ContributionAt(document, n - 1));
      }
    }
  }

  lemma {:induction false} UnfilledOwnsNothing(document: seq<DefinitionNode>, d: Definition, n: nat)
    requires Readable(document) && n <= |document| && !Filled(document, d, n)
    ensures Unowning(LayoutAt(document, n), d)
  {
    if n == 0 {
      StartExact(document);
    } else {
      UnfilledOwnsNothing(document, d, n - 1);
      OneStep(document, n - 1);
    }
  }

  lemma {:induction false} FilledHasField(document: seq<DefinitionNode>, d: Definition, n: nat) returns (f: nat)
    requires Readable(document) && n <= |document| && Filled(document, d, n)
    ensures Comes(LayoutAt(document, n), d, f)
  {
    if n == 0 {
      f := 0;
    } else {
      OneStep(document, n - 1);
      if Filled(document, d, n - 1) {
        f := FilledHasField(document, d, n - 1);
      } else {
        f := |LayoutAt(document, n - 1).fields|;
      }
    }
  }

  /** The definition contributes fields to a type that was given fields before. */
  predicate Refills(document: seq<DefinitionNode>, i: nat) {
    && i < |document| && HasFields(document[i]) && document[i].ty.name in NamesOf(document)
    && ContributionAt(document, i) != [] && Filled(document, NamesOf(document)[document[i].ty.name], i)
  }

  lemma {:induction false} ExactWithoutRefill(document: seq<DefinitionNode>, n: nat)
    requires Readable(document) && n <= |document| && forall i | 0 <= i < n :: !Refills(document, i)
    ensures Exact(LayoutAt(document, n))
  {
    if n == 0 {
      StartExact(document);
    } else {
      ExactWithoutRefill(document, n - 1);
      OneStep(document, n - 1);
      assert !Refills(document, n - 1);
      if HasFields(document[n - 1]) {
        var d := NamesOf(document)[document[n - 1].ty.name];
        if ContributionAt(document, n - 1) != [] {
          UnfilledOwnsNothing(document, d, n - 1);
        }
        GiveExact(LayoutAt(document, n - 1), d, ContributionAt(document, n - 1));
      }
    }
  }

  lemma {:induction false} RefillLoses(document: seq<DefinitionNode>, i: nat, n: nat) returns (f: nat)
    requires Readable(document) && i < n <= |document| && Refills(document, i)
    ensures Lost(LayoutAt(document, n), NamesOf(document)[document[i].ty.name], f)
  {
    var d := NamesOf(document)[document[i].ty.name];
    OneStep(document, n - 1);
    if i == n - 1 {
      f := FilledHasField(document, d, i);
      GiveLoses(LayoutAt(document, i), d, ContributionAt(document, i), f);
    } else {
      f := RefillLoses(document, i, n - 1);
      if HasFields(document[n - 1]) {
        var e := NamesOf(document)[document[n - 1].ty.name];
        GiveStaysLost(LayoutAt(document, n - 1), e, ContributionAt(document, n - 1), d, f);
      }
    }
  }

  // ----- When a type is given fields twice -----

  /** Two definitions under one name that both contribute fields. */
  predicate Repeats(document: seq<DefinitionNode>, i: nat, j: nat) {
    && i < j < |document| && HasFields(document[i]) && HasFields(document[j])
    && document[i].ty.name == document[j].ty.name
    && ContributionAt(document, i) != [] && ContributionAt(document, j) != []
  }

  /** An object type under the default name, while the declared root query type is missing. */
  predicate TakesOver(document: seq<DefinitionNode>, i: nat) {
    && i < |document| && HasFields(document[i]) && document[i].ty.name == DEFAULT_ROOT
    && Added(document).Some?
  }

  /** The type of a definition was filled by an earlier definition or by the added root type. */
  lemma {:induction false} FilledBy(document: seq<DefinitionNode>, d: Definition, n: nat) returns (i: nat)
    requires n <= |document| && Filled(document, d, n) && Added(document) != Some(d)
    ensures i < n && GoesTo(document, i, d) && ContributionAt(document, i) != []
  {
    if GoesTo(document, n - 1, d) && ContributionAt(document, n - 1) != [] {
      i := n - 1;
    } else {
      i := FilledBy(document, d, n - 1);
    }
  }

  lemma {:induction false} FilledFrom(document: seq<DefinitionNode>, d: Definition, i: nat, n: nat)
    requires i < n <= |document| && GoesTo(document, i, d) && ContributionAt(document, i) != []
    ensures Filled(document, d, n)
  {
    if i < n - 1 {
      FilledFrom(document, d, i, n - 1);
    }
  }

  lemma {:induction false} AddedFills(document: seq<DefinitionNode>, n: nat)
    requires n <= |document| && Added(document).Some?
    ensures Filled(document, Added(document).value, n)
  {
    if n > 0 {
      AddedFills(document, n - 1);
    }
  }

  /** A type that takes over is the root query type, so it contributes at least the reserved fields. */
  lemma TakingOverContributes(document: seq<DefinitionNode>, j: nat)
    requires Readable(document) && TakesOver(document, j)
    ensures GoesTo(document, j, Added(document).value) && ContributionAt(document, j) != []
  {
    AcceptedAt(document, FinalScope(document), FinalRoot(document), j, |document|);
    assert FinalQueryName(document) == Some(DEFAULT_ROOT);
    assert FinalRoot(document) == Some(Added(document).value.id);
  }

  lemma {:induction false} RefillsExactly(document: seq<DefinitionNode>, j: nat)
    requires Readable(document) && j < |document|
    ensures Refills(document, j) <==> TakesOver(document, j) || exists i: nat :: Repeats(document, i, j)
  {
    FinalWell(document);
    OneStep(document, j);
    if Refills(document, j) {
      var d := NamesOf(document)[document[j].ty.name];
      if Added(document) == Some(d) {
        DefinitionsWell(document);
        assert NamesOf(document)[DEFAULT_ROOT] == d;
        assert TakesOver(document, j);
      } else {
        var i := FilledBy(document, d, j);
        assert Repeats(document, i, j);
      }
    }
    if TakesOver(document, j) {
      AddedFills(document, j);
      TakingOverContributes(document, j);
    }
    if i: nat :| Repeats(document, i, j) {
      FilledFrom(document, NamesOf(document)[document[j].ty.name], i, j);
    }
  }

  // ----- The theorems -----

  /** The ranges partition the fields exactly when no type is given fields twice. */
  lemma {:induction false} RangesPartition(document: seq<DefinitionNode>)
    requires Readable(document)
    ensures Sound(FinalLayout(document))
    ensures Exact(FinalLayout(document)) <==>
            !(exists j: nat :: TakesOver(document, j)) && !(exists i: nat, j: nat :: Repeats(document, i, j))
  {
    RangesAreSound(document, |document|);
    if j: nat :| Refills(document, j) {
      RefillsExactly(document, j);
      var f := RefillLoses(document, j, |document|);
      assert !Owns(FinalLayout(document), NamesOf(document)[document[j].ty.name], f);
    } else {
      ExactWithoutRefill(document, |document|);
      forall j: nat | TakesOver(document, j)
        ensures false
      {
        RefillsExactly(document, j);
      }
      forall i: nat, j: nat | Repeats(document, i, j)
        ensures false
      {
        RefillsExactly(document, j);
      }
    }
  }

  /** A field that was lost belongs to no type at all. */
  lemma LostHasNoOwner(l: Layout, d: Definition, f: nat)
    requires Sound(l) && Lost(l, d, f)
    ensures forall e :: !Owns(l, e, f)
  {
    forall e
      ensures !Owns(l, e, f)
    {
      assert Owns(l, e, f) ==> Comes(l, e, f);
    }
  }

  // ----- What a range lists -----

  /** All fields read for a type by the first `n` definitions, in order. */
  function Gathered(document: seq<DefinitionNode>, d: Definition, n: nat): seq<Origin>
    requires n <= |document|
  {
    if n == 0 then if Added(document) == Some(d) then Introspection(|Definitions(document).objects|) else []
    else Gathered(document, d, n - 1) + if GoesTo(document, n - 1, d) then ContributionAt(document, n - 1) else []
  }

  predicate Lists(l: Layout, d: Definition, own: seq<Origin>)
    requires IsOwner(l, d)
  {
    var r := RangeOf(l, d);
    r.start <= r.end <= |l.fields| && l.fields[r.start..r.end] == own
  }

  lemma GiveLists(l: Layout, d: Definition, added: seq<Origin>)
    requires IsOwner(l, d) && Lists(l, d, []) && Unowning(l, d)
    ensures Lists(Give(l, d, added), d, added)
  {
  }

  lemma GiveKeeps(l: Layout, d: Definition, added: seq<Origin>, e: Definition, own: seq<Origin>)
    requires IsOwner(l, d) && IsOwner(l, e) && Lists(l, e, own) && (d != e || added == [])
    ensures Lists(Give(l, d, added), e, own)
  {
    var r := RangeOf(l, e);
    assert Give(l, d, added).fields[r.start..r.end] == l.fields[r.start..r.end];
  }

  lemma {:induction false} UnfilledGathersNothing(document: seq<DefinitionNode>, d: Definition, n: nat)
    requires n <= |document| && !Filled(document, d, n)
    ensures Gathered(document, d, n) == []
  {
    if n > 0 {
      UnfilledGathersNothing(document, d, n - 1);
    }
  }

  /** Where no type is given fields twice, a range lists the fields of its type in the order they were read. */
  lemma {:induction false} RangeListsFields(document: seq<DefinitionNode>, d: Definition, n: nat)
    requires Readable(document) && n <= |document| && forall i | 0 <= i < n :: !Refills(document, i)
    requires IsOwner(StartOf(document), d)
    ensures IsOwner(LayoutAt(document, n), d) && Lists(LayoutAt(document, n), d, Gathered(document, d, n))
  {
    hide Readable, ContributionAt, WithFields;
    if n == 0 {
      StartExact(document);
    } else {
      RangeListsFields(document, d, n - 1);
      OneStep(document, n - 1);
      assert !Refills(document, n - 1);
      if HasFields(document[n - 1]) {
        var l, e, added := LayoutAt(document, n - 1), NamesOf(document)[document[n - 1].ty.name],
          ContributionAt(document, n - 1);
        if d == e && added != [] {
          UnfilledOwnsNothing(document, d, n - 1);
          UnfilledGathersNothing(document, d, n - 1);
          GiveLists(l, d, added);
        } else {
          GiveKeeps(l, e, added, d, Gathered(document, d, n - 1));
        }
      }
    }
  }

  lemma {:induction false} InputsReadLength(
    declared: seq<seq<InputValueNode>>, document: seq<DefinitionNode>, names: map<string, Definition>, n: nat)
    requires n <= |document|
    ensures |InputsRead(declared, document, names, n)| == |declared|
  {
    if n > 0 {
      InputsReadLength(declared, document, names, n - 1);
    }
  }

  predicate DeclaresInput(d: DefinitionNode, name: string) {
    d.TypeDefinition? && d.ty.kind.InputObjectKind? && d.ty.name == name
  }

  lemma {:induction false} InputsFrom(
    declared: seq<seq<InputValueNode>>, document: seq<DefinitionNode>, names: map<string, Definition>, i: nat, n: nat)
    requires Injective(names) && i < n <= |document| && document[i].TypeDefinition?
             && document[i].ty.kind.InputObjectKind?
    requires document[i].ty.name in names && names[document[i].ty.name].InputObject?
    requires names[document[i].ty.name].id < |declared|
    requires forall j | i < j < n :: !DeclaresInput(document[j], document[i].ty.name)
    ensures |InputsRead(declared, document, names, n)| == |declared|
    ensures InputsRead(declared, document, names, n)[names[document[i].ty.name].id] == document[i].ty.kind.inputs
  {
    InputsReadLength(declared, document, names, n - 1);
    if i < n - 1 {
      InputsFrom(declared, document, names, i, n - 1);
      assert !DeclaresInput(document[n - 1], document[i].ty.name);
    }
  }

  /** An input object declares what its last definition lists. */
  lemma InputObjectListsInputs(document: seq<DefinitionNode>, i: nat)
    requires Readable(document) && i < |document| && document[i].TypeDefinition? && document[i].ty.kind.InputObjectKind?
    requires forall j | i < j < |document| :: !DeclaresInput(document[j], document[i].ty.name)
    ensures var names, inputs := NamesOf(document), FinalInputs(document);
            && document[i].ty.name in names && names[document[i].ty.name].InputObject?
            && names[document[i].ty.name].id < |inputs|
            && inputs[names[document[i].ty.name].id] == document[i].ty.kind.inputs
  {
    FinalWell(document);
    AcceptedAt(document, FinalScope(document), FinalRoot(document), i, |document|);
    InputsFrom(NothingDeclared(FinalRegistry(document).inputObjects), document, NamesOf(document), i, |document|);
  }

  // ----- A schema whose ranges do not partition -----

  /** A schema that names a missing root type and declares an object type under the default name. */
  const TAKE_OVER: seq<DefinitionNode> :=
    [SchemaNode([], Some("Root")), TypeDefinition(TypeNode(DEFAULT_ROOT, false, None, [], ObjectKind([], [])))]

  lemma TakeOverRegistry()
    ensures Registered(TAKE_OVER, 2) == WithType(EMPTY, DEFAULT_ROOT, ObjectKind([], []))
    ensures QueryName(TAKE_OVER, 2) == Some("Root")
  {
    assert Registered(TAKE_OVER, 1) == EMPTY;
    assert QueryName(TAKE_OVER, 1) == Some("Root");
  }

  lemma {:induction false} ScalarNames(r: Registry, n: nat, name: string)
    requires n <= |BUILTIN_SCALARS| && name !in r.names && name !in BUILTIN_SCALARS
    ensures name !in WithScalars(r, n).names
  {
    if n > 0 {
      ScalarNames(r, n - 1, name);
    }
  }

  lemma TakeOverIsRead()
    ensures Readable(TAKE_OVER) && FinalRoot(TAKE_OVER) == Some(1)
    ensures DEFAULT_ROOT in NamesOf(TAKE_OVER) && NamesOf(TAKE_OVER)[DEFAULT_ROOT] == Object(1)
    ensures TakesOver(TAKE_OVER, 1)
    ensures FinalLayout(TAKE_OVER).fields == Introspection(1) + Introspection(1)
    ensures |FinalLayout(TAKE_OVER).objects| == 2 && FinalLayout(TAKE_OVER).objects[1].fields == Range(2, 4)
  {
    TakeOverRegistry();
    var r := Registered(TAKE_OVER, 2);
    assert "Root" != DEFAULT_ROOT by { assert "Root"[0] != DEFAULT_ROOT[0]; }
    assert "Root" !in BUILTIN_SCALARS by {
      forall i | 0 <= i < |BUILTIN_SCALARS|
        ensures BUILTIN_SCALARS[i] != "Root"
      {
        assert BUILTIN_SCALARS[i][0] != "Root"[0];
      }
    }
    ScalarNames(r, |BUILTIN_SCALARS|, "Root");
    ScalarsOwnNothing(r, |BUILTIN_SCALARS|);
    var scope, root := FinalScope(TAKE_OVER), FinalRoot(TAKE_OVER);
    assert FinalQueryName(TAKE_OVER) == Some(DEFAULT_ROOT);
    assert scope.names[DEFAULT_ROOT] == Object(1) && root == Some(1);
    assert DefinitionsOk(TAKE_OVER, 1) && SchemasOk(TAKE_OVER, 1) && AllAccepted(TAKE_OVER, scope, root, 1);
    assert LayoutAt(TAKE_OVER, 1) == LayoutAt(TAKE_OVER, 0);
  }

  lemma TakeOverCloses(parse: Parser)
    ensures Closes(FinalSchema(TAKE_OVER), parse, TAKE_OVER)
  {
    TakeOverIsRead();
    var schema := FinalSchema(TAKE_OVER);
    forall i | 0 <= i < |TAKE_OVER|
      ensures FieldsClose(schema, parse, TAKE_OVER[i]) && TypeAuthorizes(schema, parse, TAKE_OVER[i])
      ensures KeysClose(schema, parse, TAKE_OVER[i])
    {
    }
  }

  /** It is ingested, but the fields reserved for the added root type belong to no type. */
  lemma TakeOverLosesFields(parse: Parser)
    ensures Ingestible(TAKE_OVER, parse)
    ensures |FinalLayout(TAKE_OVER).fields| == 4 && !Exact(FinalLayout(TAKE_OVER))
    ensures forall d :: !Owns(FinalLayout(TAKE_OVER), d, 0) && !Owns(FinalLayout(TAKE_OVER), d, 1)
  {
    TakeOverIsRead();
    TakeOverCloses(parse);
    RangesPartition(TAKE_OVER);
    LostHasNoOwner(FinalLayout(TAKE_OVER), Object(1), 0);
    LostHasNoOwner(FinalLayout(TAKE_OVER), Object(1), 1);
  }

  // ----- The selection map -----

  /** Looking a field up by type and name leads into the range of that type. */
  lemma EntriesLeadToOwners(g: Graph, s: Source, l: Layout)
    requires Stands(g, s) && l.fields == s.fields && Exact(l)
    ensures forall key | key in g.tables.selectionMap :: Owns(l, key.0, g.tables.selectionMap[key])
    ensures forall d, f: nat | Owns(l, d, f) && l.fields[f].Declared? ::
              (d, l.fields[f].node.name) in g.tables.selectionMap
  {
    forall key | key in g.tables.selectionMap
      ensures Owns(l, key.0, g.tables.selectionMap[key])
    {
      assert EntryAt(g.tables.selectionMap, s.fields, key);
      assert Comes(l, key.0, g.tables.selectionMap[key]);
    }
    forall d, f: nat | Owns(l, d, f) && l.fields[f].Declared?
      ensures (d, l.fields[f].node.name) in g.tables.selectionMap
    {
      assert Comes(l, d, f);
      assert EnteredAt(g.tables.selectionMap, s.fields, f);
    }
  }

  /** Every field of a resolved selection lies in the range of the type it is selected on. */
  predicate Belongs(l: Layout, t: Tables, g: GraphSelection, target: Definition)
    decreases g
  {
    match g
    case GField(field, _, items) =>
      && Owns(l, target, field) && field < |t.fields|
      && forall i | 0 <= i < |items| :: Belongs(l, t, items[i], t.fields[field].ty.definition)
    case GInlineFragment(on, items) => forall i | 0 <= i < |items| :: Belongs(l, t, items[i], on)
  }

  lemma {:induction false} ResolvedFieldsBelong(
    g: Graph, s: Source, l: Layout, target: Definition, resolved: GraphSelection, selection: SelectionNode)
    requires Stands(g, s) && l.fields == s.fields && Exact(l)
    requires DenotesSelection(g.strings, g.tables, target, resolved, selection)
    ensures Belongs(l, g.tables, resolved, target)
    decreases selection
  {
    match selection
    case FieldSelection(name, _, items) =>
      EntriesLeadToOwners(g, s, l);
      forall i | 0 <= i < |items|
        ensures Belongs(l, g.tables, resolved.items[i], g.tables.fields[resolved.field].ty.definition)
      {
        ResolvedFieldsBelong(g, s, l, g.tables.fields[resolved.field].ty.definition, resolved.items[i], items[i]);
      }
    case InlineFragment(_, items) =>
      forall i | 0 <= i < |items|
        ensures Belongs(l, g.tables, resolved.items[i], resolved.on)
      {
        ResolvedFieldsBelong(g, s, l, resolved.on, resolved.items[i], items[i]);
      }
  }
}
