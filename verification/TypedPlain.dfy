/**
 Documents without type extensions in which every type name is declared once.  There the field
 sort can only be disturbed by an interface that is named like a root type: it is not
 registered in the first pass, so its fields go to the object added for the root type, whose
 id is larger than that of every declared type.
 */
module TypedPlain {
  import opened Common
  import opened TypedTypes
  import opened KeyedTables
  import opened TypedAnalysis
  import opened TypedSchema
  import opened TypedTheorems
  import Interfaces = InterfaceGroups
  import Sorting = StableSorting

  predicate Plain(document: seq<DefinitionNode>) {
    && (forall i | 0 <= i < |document| && document[i].TypeDefinition? :: !document[i].extend)
    && (forall i, j | 0 <= i < j < |document| && document[i].TypeDefinition? && document[j].TypeDefinition? ::
          document[i].name != document[j].name)
  }

  predicate IsObject(d: DefinitionNode) {
    d.TypeDefinition? && (d.kind.ObjectKind? || d.kind.InputObjectKind?)
  }

  predicate IsInterface(d: DefinitionNode) {
    d.TypeDefinition? && d.kind.InterfaceKind?
  }

  // ----- The first pass -----

  lemma {:induction false} TopGrows(document: seq<DefinitionNode>, i: nat, n: nat)
    requires i <= n <= |document|
    ensures |Top(document, i).objects| <= |Top(document, n).objects|
    ensures |Top(document, i).unions| <= |Top(document, n).unions|
  {
    if i < n {
      TopGrows(document, i, n - 1);
    }
  }

  lemma {:induction false} DeclaredId(document: seq<DefinitionNode>, i: nat, n: nat)
    requires Plain(document) && i < n <= |document|
    ensures IsObject(document[i]) ==>
              && document[i].name in Top(document, n).names
              && Top(document, n).names[document[i].name] == Object(|Top(document, i).objects|)
    ensures document[i].TypeDefinition? && document[i].kind.UnionKind? ==>
              && document[i].name in Top(document, n).names
              && Top(document, n).names[document[i].name] == Union(|Top(document, i).unions|)
  {
    if i < n - 1 {
      DeclaredId(document, i, n - 1);
    }
  }

  /** A name is registered only by a declaration that is not an interface. */
  lemma {:induction false} Unregistered(document: seq<DefinitionNode>, name: string, n: nat)
    requires n <= |document|
    requires forall i | 0 <= i < n && document[i].TypeDefinition? && !IsInterface(document[i]) :: document[i].name != name
    ensures name !in Top(document, n).names
  {
    if n > 0 {
      Unregistered(document, name, n - 1);
    }
  }

  // ----- The root types -----

  lemma {:induction false} RootsKeep(t: TopLevel, name: string, n: nat)
    requires n <= |ROOTS| && name in t.names
    ensures name in WithRoots(t, n).names && WithRoots(t, n).names[name] == t.names[name]
  {
    if n > 0 {
      RootsKeep(t, name, n - 1);
    }
  }

  function Rank(name: string, n: nat): nat
    requires n <= |ROOTS|
    decreases |ROOTS| - n
  {
    if n == |ROOTS| || ROOTS[n] == name then n else Rank(name, n + 1)
  }

  function RootRank(name: string): nat {
    Rank(name, 0)
  }

  lemma {:induction false} RankNames(name: string, n: nat)
    requires n <= |ROOTS|
    ensures n <= Rank(name, n) <= |ROOTS| && (Rank(name, n) < |ROOTS| ==> ROOTS[Rank(name, n)] == name)
    ensures forall k | n <= k < Rank(name, n) :: ROOTS[k] != name
    decreases |ROOTS| - n
  {
    if n < |ROOTS| && ROOTS[n] != name {
      RankNames(name, n + 1);
    }
  }

  lemma RankIsFirst(name: string, k: nat)
    requires k < |ROOTS| && ROOTS[k] == name
    ensures RootRank(name) <= k && ROOTS[RootRank(name)] == name
  {
    RankNames(name, 0);
  }

  lemma {:induction false} RootsGrow(t: TopLevel, k: nat, n: nat)
    requires k <= n <= |ROOTS|
    ensures |WithRoots(t, k).objects| <= |WithRoots(t, n).objects|
  {
    if k < n {
      RootsGrow(t, k, n - 1);
    }
  }

  /** A name that only the root types introduce belongs to the object added for it. */
  lemma {:induction false} AddedRoot(t: TopLevel, name: string, n: nat)
    requires n <= |ROOTS| && name !in t.names
    ensures name in WithRoots(t, n).names <==> RootRank(name) < n
    ensures name in WithRoots(t, n).names ==>
              WithRoots(t, n).names[name] == Object(|WithRoots(t, RootRank(name)).objects|)
  {
    RankNames(name, 0);
    if n > 0 {
      AddedRoot(t, name, n - 1);
      if ROOTS[n - 1] == name {
        RankIsFirst(name, n - 1);
      }
    }
  }

  // ----- Where the fields of a definition go -----

  lemma ObjectTarget(document: seq<DefinitionNode>, i: nat)
    requires Plain(document) && i < |document| && IsObject(document[i])
    ensures Target(document[i], NamesOf(document)) == Some(|Top(document, i).objects|)
    ensures |Top(document, i).objects| < |Top(document, i + 1).objects|
  {
    DeclaredId(document, i, |document|);
    RootsKeep(Top(document, |document|), document[i].name, |ROOTS|);
  }

  lemma InterfaceTarget(document: seq<DefinitionNode>, i: nat)
    requires Plain(document) && i < |document| && IsInterface(document[i])
    ensures var t, rank := Top(document, |document|), RootRank(document[i].name);
            && (Target(document[i], NamesOf(document)).Some? <==> rank < |ROOTS|)
            && (rank < |ROOTS| ==>
                  && Target(document[i], NamesOf(document)) == Some(|WithRoots(t, rank).objects|)
                  && |WithRoots(t, rank).objects| < |WithRoots(t, rank + 1).objects|)
  {
    var t, name := Top(document, |document|), document[i].name;
    Unregistered(document, name, |document|);
    RankNames(name, 0);
    AddedRoot(t, name, |ROOTS|);
    if RootRank(name) < |ROOTS| {
      AddedRoot(t, name, RootRank(name));
    }
  }

  /** Declared types come before every added root type. */
  lemma ObjectBelow(document: seq<DefinitionNode>, i: nat, k: nat)
    requires Plain(document) && i < |document| && IsObject(document[i]) && k <= |ROOTS|
    ensures Target(document[i], NamesOf(document)).Some?
    ensures Target(document[i], NamesOf(document)).value < |WithRoots(Top(document, |document|), k).objects|
  {
    ObjectTarget(document, i);
    TopGrows(document, i + 1, |document|);
    RootsGrow(Top(document, |document|), 0, k);
  }

  lemma ObjectsAscend(document: seq<DefinitionNode>, i: nat, j: nat)
    requires Plain(document) && i < j < |document| && IsObject(document[i]) && IsObject(document[j])
    ensures !Misplaced(document, NamesOf(document), i, j)
  {
    ObjectTarget(document, i);
    ObjectTarget(document, j);
    TopGrows(document, i + 1, j);
  }

  lemma InterfacesByRank(document: seq<DefinitionNode>, i: nat, j: nat)
    requires Plain(document) && i < |document| && j < |document| && IsInterface(document[i]) && IsInterface(document[j])
    requires Target(document[i], NamesOf(document)).Some? && Target(document[j], NamesOf(document)).Some?
    requires RootRank(document[i].name) < RootRank(document[j].name)
    ensures Target(document[i], NamesOf(document)).value < Target(document[j], NamesOf(document)).value
  {
    InterfaceTarget(document, i);
    InterfaceTarget(document, j);
    RootsGrow(Top(document, |document|), RootRank(document[i].name) + 1, RootRank(document[j].name));
  }

  /** Two definitions are misplaced exactly when the first is an interface named like a root type,
      and the second is an object, an input object or such an interface of a lower rank. */
  lemma {:induction false} MisplacedExactly(document: seq<DefinitionNode>, i: nat, j: nat)
    requires Plain(document)
    ensures Misplaced(document, NamesOf(document), i, j) <==> OutOfOrder(document, i, j)
  {
    var names := NamesOf(document);
    if i < j < |document| && Contributes(document[i], names) && Contributes(document[j], names) {
      if IsObject(document[i]) && IsObject(document[j]) {
        ObjectsAscend(document, i, j);
      } else if IsObject(document[i]) {
        InterfaceTarget(document, j);
        ObjectBelow(document, i, RootRank(document[j].name));
      } else if IsObject(document[j]) {
        InterfaceTarget(document, i);
        ObjectBelow(document, j, RootRank(document[i].name));
      } else if RootRank(document[i].name) < RootRank(document[j].name) {
        InterfacesByRank(document, i, j);
      } else if RootRank(document[j].name) < RootRank(document[i].name) {
        InterfacesByRank(document, j, i);
      } else {
        InterfaceTarget(document, i);
        InterfaceTarget(document, j);
      }
    }
  }

  predicate OutOfOrder(document: seq<DefinitionNode>, i: nat, j: nat) {
    && i < j < |document|
    && Contributes(document[i], NamesOf(document)) && Contributes(document[j], NamesOf(document))
    && IsInterface(document[i])
    && (IsInterface(document[j]) ==> RootRank(document[i].name) > RootRank(document[j].name))
  }

  /** In a plain document the field sort is the identity exactly when nothing is out of order. */
  lemma {:induction false} PlainSortIsIdentity(document: seq<DefinitionNode>)
    requires Plain(document)
    ensures SortByKey(FieldsFound(document)) == FieldsFound(document) <==>
            forall i: nat, j: nat :: !OutOfOrder(document, i, j)
  {
    SortIsIdentity(document);
    forall i: nat, j: nat
      ensures Misplaced(document, NamesOf(document), i, j) <==> OutOfOrder(document, i, j)
    {
      MisplacedExactly(document, i, j);
    }
  }

  /** An interface named like a root type, before an object whose field takes an argument. */
  const SHIFTED: seq<DefinitionNode> := [
    TypeDefinition("Query", false, InterfaceKind([FieldNode("a", Named("Int", true), [], [])])),
    TypeDefinition("T", false, ObjectKind([], [FieldNode("b", Named("Int", true), [ArgumentNode("x", Named("Int", true))], [])]))]

  lemma IntResolves(names: map<string, Definition>)
    ensures Resolve(Named("Int", true), names) == Some(GraphqlType(Scalar(Int), true, []))
  {
    assert Builtin("Int") == Some(Int);
  }

  lemma ShiftedEntries()
    ensures var e := EntriesIn(SHIFTED);
            && |e| == 2
            && e[0].owner == 1 && e[0].field.name == "a" && e[0].arguments == []
            && e[1].owner == 0 && e[1].field.name == "b" && |e[1].arguments| == 1
  {
    var names := NamesOf(SHIFTED);
    assert Top(SHIFTED, 1) == EMPTY;
    assert Top(SHIFTED, 2) == WithTop(EMPTY, SHIFTED[1]);
    var t := Top(SHIFTED, 2);
    assert t.names == map["T" := Object(0)];
    assert "Query" != "T" by { assert |"Query"| != |"T"|; }
    assert WithRoots(t, 1) == WithObject(t, ObjectRecord("Query", false));
    RootsKeep(t, "T", |ROOTS|);
    AddedRoot(t, "Query", |ROOTS|);
    assert RootRank("Query") == 0;
    assert names["T"] == Object(0) && names["Query"] == Object(1);
    IntResolves(names);
    var a, b := SHIFTED[0].kind.fields, SHIFTED[1].kind.fields;
    assert EntriesOf(SHIFTED[0], names) == InterfaceEntries(1, a, names, 1);
    assert InterfaceEntries(1, a, names, 0) == [];
    assert EntriesOf(SHIFTED[1], names) == ObjectEntries(0, b, names, 1);
    assert ObjectEntries(0, b, names, 0) == [];
    assert Arguments(b[0].arguments, names, 0) == [];
    assert |Arguments(b[0].arguments, names, 1)| == 1;
    assert Entries(SHIFTED, names, 0) == [];
    assert Entries(SHIFTED, names, 1) == EntriesOf(SHIFTED[0], names);
  }

  lemma InsertBefore<T(!new)>(x: (nat, T), y: (nat, T))
    requires y.0 < x.0
    ensures Sorting.Insert([x], y, KeyLe) == [y, x]
  {
    var one: seq<(nat, T)> := [x];
    assert Sorting.Insert(one[..0], y, KeyLe) == [y];
  }

  lemma TwoSwapped<T(!new)>(x: (nat, T), y: (nat, T))
    requires y.0 < x.0
    ensures SortByKey([x, y]) == [y, x]
  {
    var one: seq<(nat, T)> := [x];
    SortedIsUntouched(one);
    InsertBefore(x, y);
    assert [x, y][..1] == one;
  }

  /** Two fields that come up in the wrong order are swapped, but their arguments are not. */
  lemma TwoEntries(document: seq<DefinitionNode>, d: Entry, e: Entry)
    requires EntriesIn(document) == [d, e] && e.owner < d.owner
    ensures SortByKey(FieldsFound(document)) == [(e.owner, e.field), (d.owner, d.field)]
    ensures Filtered(SortByKey(ArgumentsFound(document)), 0) == d.arguments
  {
    FieldAt([d, e], 2);
    ArgumentsOfPosition(document, 0);
    TwoSwapped((d.owner, d.field), (e.owner, e.field));
    assert FieldsFound(document) == [(d.owner, d.field), (e.owner, e.field)];
  }

  /** After the sort the first field is found without its argument. */
  lemma ShiftedArguments()
    ensures Plain(SHIFTED)
    ensures var e := EntriesIn(SHIFTED);
            && |e| == 2 && e[1].arguments != []
            && SortByKey(FieldsFound(SHIFTED)) == [(e[1].owner, e[1].field), (e[0].owner, e[0].field)]
            && Filtered(SortByKey(ArgumentsFound(SHIFTED)), 0) == []
  {
    hide EntriesIn, ArgumentsFound, Filtered;
    assert |SHIFTED[0].name| != |SHIFTED[1].name|;
    ShiftedEntries();
    TwoEntries(SHIFTED, EntriesIn(SHIFTED)[0], EntriesIn(SHIFTED)[1]);
  }

  /** An interface named like a root type whose field takes an argument. */
  const DROPPED: seq<DefinitionNode> := [
    TypeDefinition("Query", false,
                   InterfaceKind([FieldNode("a", Named("Int", true), [ArgumentNode("x", Named("Int", true))], [])]))]

  lemma DroppedEntries()
    ensures Target(DROPPED[0], NamesOf(DROPPED)) == Some(0)
    ensures EntriesIn(DROPPED) == InterfaceEntries(0, DROPPED[0].kind.fields, NamesOf(DROPPED), 1)
  {
    var names := NamesOf(DROPPED);
    assert Top(DROPPED, 1) == EMPTY;
    AddedRoot(EMPTY, "Query", |ROOTS|);
    assert RootRank("Query") == 0;
    assert names["Query"] == Object(0);
    assert Entries(DROPPED, names, 0) == [];
    assert Entries(DROPPED, names, 1) == EntriesOf(DROPPED[0], names);
  }

  lemma DroppedField(names: map<string, Definition>)
    ensures var node := DROPPED[0].kind.fields[0];
            && AnalyzeField(node, names).Some? && AnalyzeField(node, names).value.hasArguments
            && |Arguments(node.arguments, names, |node.arguments|)| == 1
            && InterfaceEntries(0, DROPPED[0].kind.fields, names, 1) ==
               [Entry(0, WrittenField(node), AnalyzeField(node, names).value, [])]
  {
    IntResolves(names);
    var fields := DROPPED[0].kind.fields;
    assert InterfaceEntries(0, fields, names, 0) == [];
    assert Arguments(fields[0].arguments, names, 0) == [];
  }

  /** A single field stays where it is, with the arguments recorded for it. */
  lemma OneEntry(document: seq<DefinitionNode>, e: Entry)
    requires EntriesIn(document) == [e]
    ensures SortByKey(FieldsFound(document)) == FieldsFound(document)
    ensures Filtered(SortByKey(ArgumentsFound(document)), 0) == e.arguments
  {
    ArgumentsOfPosition(document, 0);
    FieldAt([e], 1);
    SortedIsUntouched(FieldsFound(document));
  }

  /** Nothing is moved, but the argument of the field is not found although it resolves. */
  lemma DroppedArgument()
    ensures Plain(DROPPED) && SortByKey(FieldsFound(DROPPED)) == FieldsFound(DROPPED)
    ensures DropsArguments(DROPPED, 0, 0)
    ensures var e := EntriesIn(DROPPED);
            && |e| == 1 && e[0].field.hasArguments && |Declared(e[0].origin, NamesOf(DROPPED))| == 1
            && Filtered(SortByKey(ArgumentsFound(DROPPED)), 0) == []
  {
    hide EntriesIn, FieldsFound, ArgumentsFound, NamesOf, Filtered, Arguments, AnalyzeField;
    DroppedEntries();
    DroppedField(NamesOf(DROPPED));
    OneEntry(DROPPED, EntriesIn(DROPPED)[0]);
  }
}
