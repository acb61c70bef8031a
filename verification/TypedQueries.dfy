/**
 The queries over an analyzed schema give back what the document declares.
 */
module TypedQueries {
  import opened Common
  import opened TypedTypes
  import opened KeyedTables
  import opened TypedAnalysis
  import opened TypedSchema
  import opened TypedTheorems
  import opened TypedPlain
  import Interfaces = InterfaceGroups

  // ----- Names -----

  function NameIn(t: TopLevel, d: Definition): string {
    match d
    case CustomScalar(id) => if id < |t.scalars| then t.scalars[id] else ""
    case Enum(id) => if id < |t.enums| then t.enums[id] else ""
    case Object(id) => if id < |t.objects| then t.objects[id].name else ""
    case Union(id) => if id < |t.unions| then t.unions[id] else ""
  }

  predicate InTable(t: TopLevel, d: Definition) {
    match d
    case CustomScalar(id) => id < |t.scalars|
    case Enum(id) => id < |t.enums|
    case Object(id) => id < |t.objects|
    case Union(id) => id < |t.unions|
  }

  predicate NamedAt(t: TopLevel, name: string) {
    name in t.names && InTable(t, t.names[name]) && NameIn(t, t.names[name]) == name
  }

  /** A definition is recorded under the name it is found by. */
  ghost predicate WellNamed(t: TopLevel) {
    forall name | name in t.names :: NamedAt(t, name)
  }

  predicate Extends(t: TopLevel, more: TopLevel) {
    t.scalars <= more.scalars && t.enums <= more.enums && t.objects <= more.objects && t.unions <= more.unions
  }

  lemma WellNamedGrows(t: TopLevel, more: TopLevel, added: string)
    requires WellNamed(t) && Extends(t, more) && NamedAt(more, added)
    requires more.names == t.names[added := more.names[added]]
    ensures WellNamed(more)
  {
    forall name | name in more.names
      ensures NamedAt(more, name)
    {
      if name != added {
        assert NamedAt(t, name);
      }
    }
  }

  lemma WithTopWellNamed(t: TopLevel, d: DefinitionNode)
    requires WellNamed(t)
    ensures WellNamed(WithTop(t, d))
  {
    if d.TypeDefinition? && !d.extend && !d.kind.InterfaceKind? {
      WellNamedGrows(t, WithTop(t, d), d.name);
    }
  }

  lemma {:induction false} TopWellNamed(document: seq<DefinitionNode>, n: nat)
    requires n <= |document|
    ensures WellNamed(Top(document, n))
  {
    if n > 0 {
      TopWellNamed(document, n - 1);
      WithTopWellNamed(Top(document, n - 1), document[n - 1]);
    }
  }

  lemma {:induction false} RootsWellNamed(t: TopLevel, n: nat)
    requires WellNamed(t) && n <= |ROOTS|
    ensures WellNamed(WithRoots(t, n))
  {
    if n > 0 {
      RootsWellNamed(t, n - 1);
      WithTopWellNamed(WithRoots(t, n - 1), TypeDefinition(ROOTS[n - 1], false, ObjectKind([], [])));
    }
  }

  lemma FirstPassWellNamed(document: seq<DefinitionNode>)
    ensures WellNamed(FirstPass(document))
  {
    TopWellNamed(document, |document|);
    var t := WithRoots(Top(document, |document|), |ROOTS|);
    RootsWellNamed(Top(document, |document|), |ROOTS|);
    forall name | name in FirstPass(document).names
      ensures NamedAt(FirstPass(document), name)
    {
      assert NamedAt(t, name);
    }
  }

  /** A type that resolves against the schema is rendered as it was written. */
  lemma RendersAsWritten(document: seq<DefinitionNode>, ty: TypeNode)
    requires Resolve(ty, NamesOf(document)).Some?
    ensures Rendered(Resolve(ty, NamesOf(document)).value, d => NameIn(FirstPass(document), d)) == Direct(ty)
  {
    FirstPassWellNamed(document);
    assert forall name | name in NamesOf(document) :: NamedAt(FirstPass(document), name);
    RenderingIsDirect(ty, NamesOf(document), d => NameIn(FirstPass(document), d));
  }

  // ----- Resolvers -----

  /** The directive at a position is the first of its name. */
  predicate IsFirst(directives: seq<DirectiveNode>, name: string, i: nat) {
    i < |directives| && directives[i].name == name && forall j | 0 <= j < i :: directives[j].name != name
  }

  lemma {:induction false} FindsFirst(directives: seq<DirectiveNode>, name: string, i: nat)
    requires IsFirst(directives, name, i)
    ensures FindDirective(directives, name) == Some(directives[i])
  {
    if i > 0 {
      assert directives[0].name != name;
      FindsFirst(directives[1..], name, i - 1);
    }
  }

  lemma {:induction false} FindsNone(directives: seq<DirectiveNode>, name: string)
    requires forall i | 0 <= i < |directives| :: directives[i].name != name
    ensures FindDirective(directives, name).None?
  {
    if directives != [] {
      FindsNone(directives[1..], name);
    }
  }

  /** The first argument of a name, as a string. */
  predicate NamesString(arguments: seq<(string, ConstValue)>, name: string, text: string) {
    exists i :: 0 <= i < |arguments| && arguments[i] == (name, StringValue(text)) &&
                forall j | 0 <= j < i :: arguments[j].0 != name
  }

  lemma {:induction false} FindsArgument(arguments: seq<(string, ConstValue)>, name: string, text: string)
    ensures FindArgument(arguments, name) == Some(StringValue(text)) <==> NamesString(arguments, name, text)
  {
    if arguments != [] {
      FindsArgument(arguments[1..], name, text);
      if arguments[0].0 != name {
        if FindArgument(arguments, name) == Some(StringValue(text)) {
          var i :| 0 <= i < |arguments[1..]| && arguments[1..][i] == (name, StringValue(text)) &&
                   forall j | 0 <= j < i :: arguments[1..][j].0 != name;
          assert arguments[i + 1] == (name, StringValue(text));
          forall j | 0 <= j < i + 1
            ensures arguments[j].0 != name
          {
            assert j > 0 ==> arguments[j] == arguments[1..][j - 1];
          }
        }
        if NamesString(arguments, name, text) {
          var i :| 0 <= i < |arguments| && arguments[i] == (name, StringValue(text)) &&
                   forall j | 0 <= j < i :: arguments[j].0 != name;
          assert arguments[1..][i - 1] == (name, StringValue(text));
        }
      } else if NamesString(arguments, name, text) {
        var i :| 0 <= i < |arguments| && arguments[i] == (name, StringValue(text)) &&
                 forall j | 0 <= j < i :: arguments[j].0 != name;
        assert i == 0;
      }
    }
  }

  /** A field has a resolver exactly if its first resolver directive names one by a string. */
  lemma ResolverNamedExactly(directives: seq<DirectiveNode>, text: string)
    ensures ResolverName(directives) == Some(text) <==>
            exists i: nat :: IsFirst(directives, RESOLVER, i) && NamesString(directives[i].arguments, NAME, text)
  {
    if i: nat :| IsFirst(directives, RESOLVER, i) {
      FindsFirst(directives, RESOLVER, i);
      FindsArgument(directives[i].arguments, NAME, text);
      assert forall j: nat | IsFirst(directives, RESOLVER, j) :: j == i;
    } else {
      NoneIsFirst(directives, RESOLVER);
      FindsNone(directives, RESOLVER);
    }
  }

  lemma {:induction false} NoneIsFirst(directives: seq<DirectiveNode>, name: string)
    requires forall i: nat :: !IsFirst(directives, name, i)
    ensures forall i | 0 <= i < |directives| :: directives[i].name != name
  {
    var i := 0;
    while i < |directives|
      invariant 0 <= i <= |directives| && forall j | 0 <= j < i :: directives[j].name != name
    {
      assert !IsFirst(directives, name, i);
      i := i + 1;
    }
  }

  // ----- Enums -----

  /** Only an enum adds enum values. */
  lemma WithTopEnums(t: TopLevel, d: DefinitionNode)
    ensures IsEnum(d) ==>
              && WithTop(t, d).enums == t.enums + [d.name]
              && WithTop(t, d).enumVariants == t.enumVariants + Tagged(|t.enums|, d.kind.values, |d.kind.values|)
    ensures !IsEnum(d) ==> WithTop(t, d).enums == t.enums && WithTop(t, d).enumVariants == t.enumVariants
  {
  }

  predicate EnumTableSorted(t: TopLevel) {
    SortedKeys(t.enumVariants) && KeysBelow(t.enumVariants, |t.enums|)
  }

  lemma EnumTableStaysSorted(t: TopLevel, d: DefinitionNode)
    requires EnumTableSorted(t)
    ensures EnumTableSorted(WithTop(t, d))
  {
    WithTopEnums(t, d);
    if IsEnum(d) {
      TaggedFor(|t.enums|, d.kind.values, |d.kind.values|, 0);
      AppendLarger(t.enumVariants, Tagged(|t.enums|, d.kind.values, |d.kind.values|), |t.enums|);
    }
  }

  lemma {:induction false} EnumsSorted(document: seq<DefinitionNode>, n: nat)
    requires n <= |document|
    ensures EnumTableSorted(Top(document, n))
  {
    if n > 0 {
      EnumsSorted(document, n - 1);
      EnumTableStaysSorted(Top(document, n - 1), document[n - 1]);
    }
  }

  predicate IsEnum(d: DefinitionNode) {
    d.TypeDefinition? && !d.extend && d.kind.EnumKind?
  }

  /** The values found for an id after one more definition. */
  lemma EnumStep(document: seq<DefinitionNode>, n: nat, id: nat)
    requires n < |document|
    ensures var t, more, d := Top(document, n), Top(document, n + 1), document[n];
            && |t.enums| <= |more.enums| && (IsEnum(d) ==> |t.enums| < |more.enums|)
            && (IsEnum(d) && id == |t.enums| ==>
                  Filtered(more.enumVariants, id) == Filtered(t.enumVariants, id) + d.kind.values)
            && (!(IsEnum(d) && id == |t.enums|) ==> Filtered(more.enumVariants, id) == Filtered(t.enumVariants, id))
  {
    var t, d := Top(document, n), document[n];
    WithTopEnums(t, d);
    if IsEnum(d) {
      var values := d.kind.values;
      TaggedFor(|t.enums|, values, |values|, id);
      FilteredConcat(t.enumVariants, Tagged(|t.enums|, values, |values|), id);
      assert values[..|values|] == values;
    }
  }

  lemma {:induction false} EnumVariantsAt(document: seq<DefinitionNode>, i: nat, n: nat)
    requires i < n <= |document| && IsEnum(document[i])
    ensures |Top(document, i).enums| < |Top(document, n).enums|
    ensures Filtered(Top(document, n).enumVariants, |Top(document, i).enums|) == document[i].kind.values
  {
    var id, t := |Top(document, i).enums|, Top(document, n - 1);
    EnumStep(document, n - 1, id);
    if i < n - 1 {
      EnumVariantsAt(document, i, n - 1);
    } else {
      EnumsSorted(document, i);
      ForKeySkips(t.enumVariants, id, 0, |t.enumVariants|);
    }
  }

  lemma {:induction false} RootsAddNoEnum(t: TopLevel, n: nat)
    requires n <= |ROOTS|
    ensures WithRoots(t, n).enumVariants == t.enumVariants
  {
    if n > 0 {
      RootsAddNoEnum(t, n - 1);
    }
  }

  /** The table of enum values is always sorted, and an enum's values are those it declares. */
  lemma EnumVariantsAreDeclared(document: seq<DefinitionNode>, i: nat)
    requires i < |document| && IsEnum(document[i])
    ensures SortedKeys(FirstPass(document).enumVariants)
    ensures Filtered(FirstPass(document).enumVariants, |Top(document, i).enums|) == document[i].kind.values
  {
    EnumsSorted(document, |document|);
    EnumVariantsAt(document, i, |document|);
    RootsAddNoEnum(Top(document, |document|), |ROOTS|);
  }

  // ----- Fields -----

  /** In a plain document no two definitions enter fields under one object. */
  lemma TargetsDiffer(document: seq<DefinitionNode>, i: nat, j: nat)
    requires Plain(document) && i < j < |document|
    requires Target(document[i], NamesOf(document)).Some? && Target(document[j], NamesOf(document)).Some?
    ensures Target(document[i], NamesOf(document)) != Target(document[j], NamesOf(document))
  {
    FirstPassWellNamed(document);
    var t, names := FirstPass(document), NamesOf(document);
    assert NamedAt(t, document[i].name) && NamedAt(t, document[j].name);
  }

  function FieldsDeclared(d: DefinitionNode, names: map<string, Definition>): seq<Field> {
    FieldList(EntriesOf(d, names), |EntriesOf(d, names)|)
  }

  /** The fields that the first `n` definitions enter under an object. */
  function FieldsUnder(document: seq<DefinitionNode>, names: map<string, Definition>, id: nat, n: nat): seq<Field>
    requires n <= |document|
  {
    if n == 0 then []
    else if Target(document[n - 1], names) == Some(id) then
      FieldsUnder(document, names, id, n - 1) + FieldsDeclared(document[n - 1], names)
    else FieldsUnder(document, names, id, n - 1)
  }

  lemma {:induction false} UnderPrefix<T>(a: seq<Segment<T>>, b: seq<Segment<T>>, key: nat, n: nat)
    requires n <= |a| <= |b| && forall i | 0 <= i < n :: a[i] == b[i]
    ensures Under(a, key, n) == Under(b, key, n)
  {
    if n > 0 {
      UnderPrefix(a, b, key, n - 1);
    }
  }

  lemma UnderSnoc<T>(segments: seq<Segment<T>>, s: Segment<T>, key: nat)
    ensures Under(segments + [s], key, |segments| + 1) ==
            if s.key == key && s.items != [] then Under(segments, key, |segments|) + s.items
            else Under(segments, key, |segments|)
  {
    UnderPrefix(segments, segments + [s], key, |segments|);
  }

  lemma {:induction false} FieldsUnderSegments(
    document: seq<DefinitionNode>, names: map<string, Definition>, id: nat, n: nat)
    requires n <= |document|
    ensures |FieldSegments(document, names, n)| == n
    ensures Under(FieldSegments(document, names, n), id, n) == FieldsUnder(document, names, id, n)
  {
    hide ItemsFor;
    if n > 0 {
      FieldsUnderSegments(document, names, id, n - 1);
      UnderSnoc(FieldSegments(document, names, n - 1), FieldSegment(document[n - 1], names), id);
    }
  }

  /** For every document, the fields found for an object are those that its definition and its extensions
      declare, in order, whether or not the sort moved them. */
  lemma ObjectFieldsAreDeclared(document: seq<DefinitionNode>, id: nat)
    ensures SortedKeys(SortByKey(FieldsFound(document)))
    ensures Filtered(SortByKey(FieldsFound(document)), id) == FieldsUnder(document, NamesOf(document), id, |document|)
  {
    var names := NamesOf(document);
    SortByKeySorts(FieldsFound(document));
    SortByKeyIsStable(FieldsFound(document), id);
    FieldsAreJoined(document, names, |document|);
    JoinedFiltered(FieldSegments(document, names, |document|), id, |document|);
    FieldsUnderSegments(document, names, id, |document|);
  }

  lemma {:induction false} FieldsOfOne(
    document: seq<DefinitionNode>, names: map<string, Definition>, id: nat, i: nat, n: nat)
    requires i < |document| && n <= |document|
    requires forall j | 0 <= j < |document| :: Target(document[j], names) == Some(id) <==> j == i
    ensures FieldsUnder(document, names, id, n) == if i < n then FieldsDeclared(document[i], names) else []
  {
    if n > 0 {
      FieldsOfOne(document, names, id, i, n - 1);
    }
  }

  /** In a plain document the fields of an object are those of its one definition. */
  lemma PlainObjectFields(document: seq<DefinitionNode>, i: nat)
    requires Plain(document) && i < |document| && Target(document[i], NamesOf(document)).Some?
    ensures Filtered(SortByKey(FieldsFound(document)), Target(document[i], NamesOf(document)).value) ==
            FieldsDeclared(document[i], NamesOf(document))
  {
    var names := NamesOf(document);
    forall j | 0 <= j < |document|
      ensures Target(document[j], names) == Target(document[i], names) <==> j == i
    {
      if j != i && Target(document[j], names).Some? {
        TargetsDiffer(document, if i < j then i else j, if i < j then j else i);
      }
    }
    ObjectFieldsAreDeclared(document, Target(document[i], names).value);
    FieldsOfOne(document, names, Target(document[i], names).value, i, |document|);
  }

  // ----- Unions -----

  predicate IsUnion(d: DefinitionNode) {
    d.TypeDefinition? && d.kind.UnionKind?
  }

  /** The union that the members of a definition or extension are entered under. */
  function UnionTarget(d: DefinitionNode, names: map<string, Definition>): Option<nat> {
    if IsUnion(d) && d.name in names && names[d.name].Union? then Some(names[d.name].id) else None
  }

  /** The members that are objects. */
  function ObjectMembers(members: seq<string>, names: map<string, Definition>, n: nat): seq<nat>
    requires n <= |members|
  {
    if n == 0 then []
    else
      var before := ObjectMembers(members, names, n - 1);
      if members[n - 1] in names && names[members[n - 1]].Object? then before + [names[members[n - 1]].id] else before
  }

  function MembersOf(d: DefinitionNode, names: map<string, Definition>): seq<nat> {
    if UnionTarget(d, names).Some? then ObjectMembers(d.kind.members, names, |d.kind.members|) else []
  }

  lemma {:induction false} VariantsTagged(id: nat, members: seq<string>, names: map<string, Definition>, n: nat)
    requires n <= |members|
    ensures var own := ObjectMembers(members, names, n); Variants(id, members, names, n) == Tagged(id, own, |own|)
  {
    if n > 0 {
      VariantsTagged(id, members, names, n - 1);
      var name := members[n - 1];
      if name in names && names[name].Object? {
        TaggedSnoc(id, ObjectMembers(members, names, n - 1), names[name].id);
      }
    }
  }

  function UnionSegment(d: DefinitionNode, names: map<string, Definition>): Segment<nat> {
    var target := UnionTarget(d, names);
    Segment(if target.Some? then target.value else 0, MembersOf(d, names))
  }

  function UnionSegments(document: seq<DefinitionNode>, names: map<string, Definition>, n: nat): seq<Segment<nat>>
    requires n <= |document|
  {
    if n == 0 then [] else UnionSegments(document, names, n - 1) + [UnionSegment(document[n - 1], names)]
  }

  lemma {:induction false} UnionSegmentsAt(document: seq<DefinitionNode>, names: map<string, Definition>, n: nat)
    requires n <= |document|
    ensures |UnionSegments(document, names, n)| == n
    ensures forall i | 0 <= i < n :: UnionSegments(document, names, n)[i] == UnionSegment(document[i], names)
  {
    if n > 0 {
      UnionSegmentsAt(document, names, n - 1);
    }
  }

  lemma UnionTagged(d: DefinitionNode, names: map<string, Definition>)
    ensures VariantsOf(d, names) == TaggedSegment(UnionSegment(d, names))
  {
    if UnionTarget(d, names).Some? {
      VariantsTagged(UnionTarget(d, names).value, d.kind.members, names, |d.kind.members|);
    }
  }

  lemma {:induction false} VariantsAreJoined(document: seq<DefinitionNode>, names: map<string, Definition>, n: nat)
    requires n <= |document|
    ensures |UnionSegments(document, names, n)| == n
    ensures AllVariants(document, names, n) == Joined(UnionSegments(document, names, n), n)
  {
    if n > 0 {
      VariantsAreJoined(document, names, n - 1);
      JoinedSnoc(UnionSegments(document, names, n - 1), UnionSegment(document[n - 1], names));
      UnionTagged(document[n - 1], names);
    }
  }

  /** Two union definitions or extensions with variants that come up with descending ids. */
  predicate UnionsDescend(document: seq<DefinitionNode>, i: nat, j: nat) {
    var names := NamesOf(document);
    && i < j < |document| && MembersOf(document[i], names) != [] && MembersOf(document[j], names) != []
    && UnionTarget(document[i], names).value > UnionTarget(document[j], names).value
  }

  /** The members that a union's definitions and extensions among the first `n` list, in order. */
  function MembersUnder(document: seq<DefinitionNode>, names: map<string, Definition>, id: nat, n: nat): seq<nat>
    requires n <= |document|
  {
    if n == 0 then []
    else if UnionTarget(document[n - 1], names) == Some(id) then
      MembersUnder(document, names, id, n - 1) + MembersOf(document[n - 1], names)
    else MembersUnder(document, names, id, n - 1)
  }

  lemma {:induction false} MembersUnderSegments(
    document: seq<DefinitionNode>, names: map<string, Definition>, id: nat, n: nat)
    requires n <= |document|
    ensures |UnionSegments(document, names, n)| == n
    ensures Under(UnionSegments(document, names, n), id, n) == MembersUnder(document, names, id, n)
  {
    hide ItemsFor;
    if n > 0 {
      MembersUnderSegments(document, names, id, n - 1);
      UnderSnoc(UnionSegments(document, names, n - 1), UnionSegment(document[n - 1], names), id);
    }
  }

  /** For every document, the union table is sorted if and only if no two union definitions with variants
      come up with descending ids. */
  lemma {:induction false} UnionsSortedExactly(document: seq<DefinitionNode>)
    ensures SortedKeys(AllVariants(document, NamesOf(document), |document|)) <==>
            forall i: nat, j: nat :: !UnionsDescend(document, i, j)
  {
    var names := NamesOf(document);
    var segments := UnionSegments(document, names, |document|);
    VariantsAreJoined(document, names, |document|);
    UnionSegmentsAt(document, names, |document|);
    JoinedSorted(segments);
    forall i: nat, j: nat
      ensures Descends(segments, i, j) <==> UnionsDescend(document, i, j)
    {
      if i < j < |document| {
        assert segments[i] == UnionSegment(document[i], names) && segments[j] == UnionSegment(document[j], names);
      }
    }
  }

  /** For every document, the entries of a union are the objects that its definition and its extensions list,
      in order; where nothing descends, searching the table finds exactly them, wherever the search ends. */
  lemma UnionVariantsAreDeclared(document: seq<DefinitionNode>, id: nat)
    ensures forall k | 0 <= k < |AllVariants(document, NamesOf(document), |document|)| ::
              AllVariants(document, NamesOf(document), |document|)[k].1 < |FirstPass(document).objects|
    ensures Filtered(AllVariants(document, NamesOf(document), |document|), id) ==
            MembersUnder(document, NamesOf(document), id, |document|)
    ensures (forall i: nat, j: nat :: !UnionsDescend(document, i, j)) ==>
              forall p: nat | Boundary(AllVariants(document, NamesOf(document), |document|), id, p) ::
                RunFrom(AllVariants(document, NamesOf(document), |document|), id, p) ==
                MembersUnder(document, NamesOf(document), id, |document|)
  {
    var names := NamesOf(document);
    FirstPassWellNamed(document);
    AllVariantsInTable(document, FirstPass(document), |document|);
    VariantsAreJoined(document, names, |document|);
    JoinedFiltered(UnionSegments(document, names, |document|), id, |document|);
    MembersUnderSegments(document, names, id, |document|);
    UnionsSortedExactly(document);
    var table := AllVariants(document, names, |document|);
    if SortedKeys(table) {
      forall p: nat | Boundary(table, id, p)
        ensures RunFrom(table, id, p) == Filtered(table, id)
      {
        RunIsFiltered(table, id, p);
      }
    }
  }

  /** In a document without extensions and repeated names nothing descends. */
  lemma PlainUnionsAscend(document: seq<DefinitionNode>, i: nat, j: nat)
    requires Plain(document)
    ensures !UnionsDescend(document, i, j)
  {
    if i < j < |document| && IsUnion(document[i]) && IsUnion(document[j]) {
      var t := Top(document, |document|);
      DeclaredId(document, i, |document|);
      DeclaredId(document, j, |document|);
      RootsKeep(t, document[i].name, |ROOTS|);
      RootsKeep(t, document[j].name, |ROOTS|);
      TopGrows(document, i, j);
    }
  }

  /** A union is extended after another union was defined. */
  const EXTENDED: seq<DefinitionNode> := [
    TypeDefinition("A", false, ObjectKind([], [])),
    TypeDefinition("U", false, UnionKind(["A"])),
    TypeDefinition("V", false, UnionKind(["A"])),
    TypeDefinition("U", true, UnionKind(["A"]))]

  lemma ExtendedNames()
    ensures var names := NamesOf(EXTENDED);
            && "A" in names && names["A"] == Object(0)
            && "U" in names && names["U"] == Union(0)
            && "V" in names && names["V"] == Union(1)
  {
    var t1, t2, t3 := Top(EXTENDED, 1), Top(EXTENDED, 2), Top(EXTENDED, 3);
    assert Top(EXTENDED, 0) == EMPTY;
    assert t1.names == map["A" := Object(0)];
    assert "A"[0] != "U"[0] && "A"[0] != "V"[0] && "U"[0] != "V"[0];
    assert t2.names == t1.names["U" := Union(0)];
    assert t3.names == t2.names["V" := Union(1)];
    assert Top(EXTENDED, 4).names == t3.names;
    RootsKeep(Top(EXTENDED, 4), "A", |ROOTS|);
    RootsKeep(Top(EXTENDED, 4), "U", |ROOTS|);
    RootsKeep(Top(EXTENDED, 4), "V", |ROOTS|);
  }

  lemma OneVariant(id: nat, names: map<string, Definition>)
    requires "A" in names && names["A"] == Object(0)
    ensures Variants(id, ["A"], names, 1) == [(id, 0)]
  {
    assert Variants(id, ["A"], names, 0) == [];
  }

  lemma ExtendedVariants()
    ensures AllVariants(EXTENDED, NamesOf(EXTENDED), 4) == [(0, 0), (1, 0), (0, 0)]
  {
    var names := NamesOf(EXTENDED);
    ExtendedNames();
    OneVariant(0, names);
    OneVariant(1, names);
    assert AllVariants(EXTENDED, names, 0) == [];
    assert AllVariants(EXTENDED, names, 1) == [];
    assert AllVariants(EXTENDED, names, 2) == [(0, 0)];
    assert AllVariants(EXTENDED, names, 3) == [(0, 0), (1, 0)];
  }

  lemma RunIsTooShort(table: seq<(nat, nat)>)
    requires table == [(0, 0), (1, 0), (0, 0)]
    ensures !SortedKeys(table) && Filtered(table, 0) == [0, 0]
    ensures forall p: nat :: Boundary(table, 0, p) ==> RunFrom(table, 0, p) == [0]
  {
    assert table[1].0 > table[2].0;
    assert ForKey(table, 0, 0) == [] && ForKey(table, 0, 1) == [0] && ForKey(table, 0, 2) == [0];
    assert RunFrom(table, 0, 1) == [];
  }

  /** The member that the extension adds is not found: wherever the search ends, the run is too short. */
  lemma ExtensionIsLost()
    ensures var table := AllVariants(EXTENDED, NamesOf(EXTENDED), |EXTENDED|);
            && table == [(0, 0), (1, 0), (0, 0)] && !SortedKeys(table)
            && Filtered(table, 0) == [0, 0] && MembersUnder(EXTENDED, NamesOf(EXTENDED), 0, |EXTENDED|) == [0, 0]
            && forall p: nat :: Boundary(table, 0, p) ==> RunFrom(table, 0, p) == [0]
  {
    ExtendedVariants();
    RunIsTooShort(AllVariants(EXTENDED, NamesOf(EXTENDED), |EXTENDED|));
    UnionVariantsAreDeclared(EXTENDED, 0);
  }

  lemma {:induction false} VariantsInTable(t: TopLevel, id: nat, members: seq<string>, n: nat)
    requires WellNamed(t) && n <= |members|
    ensures forall i | 0 <= i < |Variants(id, members, t.names, n)| ::
            Variants(id, members, t.names, n)[i].1 < |t.objects|
  {
    if n > 0 {
      VariantsInTable(t, id, members, n - 1);
      if members[n - 1] in t.names {
        assert NamedAt(t, members[n - 1]);
      }
    }
  }

  lemma {:induction false} AllVariantsInTable(document: seq<DefinitionNode>, t: TopLevel, n: nat)
    requires WellNamed(t) && n <= |document|
    ensures forall i | 0 <= i < |AllVariants(document, t.names, n)| ::
            AllVariants(document, t.names, n)[i].1 < |t.objects|
  {
    if n > 0 {
      AllVariantsInTable(document, t, n - 1);
      var d := document[n - 1];
      if IsUnion(d) && d.name in t.names && t.names[d.name].Union? {
        VariantsInTable(t, t.names[d.name].id, d.kind.members, |d.kind.members|);
      }
    }
  }

  // ----- Interfaces -----

  /** The definition at a position declares that an object implements an interface. */
  predicate Implements(document: seq<DefinitionNode>, i: nat, x: Interfaces.Implementation) {
    && i < |document| && document[i].TypeDefinition? && !document[i].extend && document[i].kind.ObjectKind?
    && document[i].name == x.implementer && x.interface in document[i].kind.implements
  }

  lemma {:induction false} ImplementedBy(interfaces: seq<string>, name: string, n: nat, x: Interfaces.Implementation)
    requires n <= |interfaces|
    ensures x in Implemented(interfaces, name, n) <==> x.implementer == name && x.interface in interfaces[..n]
  {
    if n > 0 {
      ImplementedBy(interfaces, name, n - 1, x);
      assert interfaces[..n] == interfaces[..n - 1] + [interfaces[n - 1]];
    }
  }

  /** Only an object adds implementations. */
  lemma WithTopImplementations(t: TopLevel, document: seq<DefinitionNode>, i: nat, x: Interfaces.Implementation)
    requires i < |document|
    ensures x in WithTop(t, document[i]).implementations <==> x in t.implementations || Implements(document, i, x)
  {
    var d := document[i];
    if d.TypeDefinition? && d.kind.ObjectKind? {
      ImplementedBy(d.kind.implements, d.name, |d.kind.implements|, x);
      assert d.kind.implements[..|d.kind.implements|] == d.kind.implements;
    }
  }

  lemma {:induction false} TopImplementations(document: seq<DefinitionNode>, n: nat, x: Interfaces.Implementation)
    requires n <= |document|
    ensures x in Top(document, n).implementations <==> exists i: nat :: i < n && Implements(document, i, x)
  {
    if n > 0 {
      TopImplementations(document, n - 1, x);
      WithTopImplementations(Top(document, n - 1), document, n - 1, x);
    }
  }

  lemma {:induction false} RootsImplementNothing(t: TopLevel, n: nat)
    requires n <= |ROOTS|
    ensures WithRoots(t, n).implementations == t.implementations
  {
    if n > 0 {
      RootsImplementNothing(t, n - 1);
    }
  }

  /** The table of implementations is sorted and holds exactly the declared ones. */
  lemma ImplementationsAreDeclared(document: seq<DefinitionNode>, x: Interfaces.Implementation)
    ensures Interfaces.Sorted(FirstPass(document).implementations)
    ensures x in FirstPass(document).implementations <==> exists i: nat :: Implements(document, i, x)
  {
    var found := Top(document, |document|).implementations;
    RootsImplementNothing(Top(document, |document|), |ROOTS|);
    Interfaces.SortSorts(found);
    assert x in multiset(Interfaces.Sort(found)) <==> x in multiset(found);
    TopImplementations(document, |document|, x);
    assert forall i: nat | Implements(document, i, x) :: i < |document|;
  }
}
