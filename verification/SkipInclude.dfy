/**
 Removal of skipped selections.  The rewrite runs once over the operation and every fragment
 before execution; afterwards nothing looks at `@skip` or `@include` again.  The theorem is
 that this changes nothing about the meaning of the operation.
 */
module SkipInclude {
  import opened Common
  import opened Selections

  type Variables = map<string, ConstValue>

  // ----- Conditions -----

  /** Substitution of variables; fails when some variable is not provided. */
  function IntoConst(v: Value, variables: Variables): Option<ConstValue> {
    match v
    case Variable(name) => if name in variables then Some(variables[name]) else None
    case Null => Some(CNull)
    case Number(number) => Some(CNumber(number))
    case Text(text) => Some(CString(text))
    case Boolean(flag) => Some(CBoolean(flag))
    case Binary(bytes) => Some(CBinary(bytes))
    case Enum(name) => Some(CEnum(name))
    case List(items) =>
      (match IntoConstList(items, variables)
       case Some(values) => Some(CList(values))
       case None => None)
    case Object(fields) =>
      (match IntoConstFields(fields, variables)
       case Some(values) => Some(CObject(values))
       case None => None)
  }

  function IntoConstList(items: seq<Value>, variables: Variables): Option<seq<ConstValue>> {
    if items == [] then Some([])
    else
      match (IntoConst(items[0], variables), IntoConstList(items[1..], variables))
      case (Some(v), Some(vs)) => Some([v] + vs)
      case _ => None
  }

  function IntoConstFields(fields: seq<Member>, variables: Variables): Option<seq<ConstMember>> {
    if fields == [] then Some([])
    else
      match (IntoConst(fields[0].value, variables), IntoConstFields(fields[1..], variables))
      case (Some(v), Some(vs)) => Some([ConstMember(fields[0].key, v)] + vs)
      case _ => None
  }

  function GetArgument(arguments: seq<(string, Value)>, name: string): Option<Value> {
    if arguments == [] then None
    else if arguments[0].0 == name then Some(arguments[0].1)
    else GetArgument(arguments[1..], name)
  }

  /** The first argument of a name has this value. */
  ghost predicate FirstIs(arguments: seq<(string, Value)>, name: string, v: Value) {
    exists i :: 0 <= i < |arguments| && arguments[i] == (name, v) && forall j | 0 <= j < i :: arguments[j].0 != name
  }

  lemma {:induction false} FindsFirst(arguments: seq<(string, Value)>, name: string)
    ensures forall v :: GetArgument(arguments, name) == Some(v) <==> FirstIs(arguments, name, v)
    ensures GetArgument(arguments, name).None? <==> forall i | 0 <= i < |arguments| :: arguments[i].0 != name
  {
    if arguments != [] {
      var first, rest := arguments[0], arguments[1..];
      FindsFirst(rest, name);
      if first.0 == name {
        assert FirstIs(arguments, name, first.1);
      } else {
        forall v
          ensures FirstIs(rest, name, v) <==> FirstIs(arguments, name, v)
        {
          FirstBehind(arguments, name, v);
        }
        assert GetArgument(arguments, name).None? ==>
            forall i | 0 <= i < |arguments| :: i == 0 || arguments[i] == rest[i - 1];
        assert forall i | 0 <= i < |rest| :: rest[i] == arguments[i + 1];
      }
    }
  }

  lemma FirstBehind(arguments: seq<(string, Value)>, name: string, v: Value)
    requires arguments != [] && arguments[0].0 != name
    ensures FirstIs(arguments[1..], name, v) <==> FirstIs(arguments, name, v)
  {
    var rest := arguments[1..];
    if i :| 0 <= i < |rest| && rest[i] == (name, v) && forall j | 0 <= j < i :: rest[j].0 != name {
      forall j | 0 <= j < i + 1
        ensures arguments[j].0 != name
      {
        assert j > 0 ==> arguments[j] == rest[j - 1];
      }
      assert arguments[i + 1] == (name, v);
    }
    if i :| 0 <= i < |arguments| && arguments[i] == (name, v) && forall j | 0 <= j < i :: arguments[j].0 != name {
      assert rest[i - 1] == (name, v) && forall j | 0 <= j < i - 1 :: rest[j] == arguments[j + 1];
    }
  }

  /** The condition as the code computes it: a failed substitution becomes null, and a value
      that is no boolean becomes false. */
  function Condition(v: Value, variables: Variables): bool {
    var value := match IntoConst(v, variables) { case Some(c) => c case None => CNull };
    value.CBoolean? && value.flag
  }

  /** Literally true, or a variable that was provided as true. */
  predicate Holds(v: Value, variables: Variables) {
    v == Boolean(true) || (v.Variable? && v.name in variables && variables[v.name] == CBoolean(true))
  }

  lemma ConditionMeaning(v: Value, variables: Variables)
    ensures Condition(v, variables) <==> Holds(v, variables)
  {
    match v
    case List(items) =>
    case _ =>
  }

  /** Sections 3.13.1 and 3.13.2 of the GraphQL specification: a selection is kept when no
      `@skip` condition holds and no `@include` condition fails. */
  ghost predicate Included(directives: seq<Directive>, variables: Variables) {
    forall i, v | 0 <= i < |directives| && FirstIs(directives[i].arguments, "if", v) ::
      && (directives[i].name == "skip" ==> !Holds(v, variables))
      && (directives[i].name == "include" ==> Holds(v, variables))
  }

  /** A single directive that removes the selection it stands on. */
  ghost predicate Removes(d: Directive, variables: Variables) {
    exists v :: FirstIs(d.arguments, "if", v) &&
                ((d.name == "skip" && Holds(v, variables)) || (d.name == "include" && !Holds(v, variables)))
  }

  lemma IncludedIsNotSkipped(directives: seq<Directive>, variables: Variables)
    ensures Included(directives, variables) <==>
            !exists i :: 0 <= i < |directives| && Removes(directives[i], variables)
  {
    if !Included(directives, variables) {
      var i, v :| 0 <= i < |directives| && FirstIs(directives[i].arguments, "if", v)
                  && !(&& (directives[i].name == "skip" ==> !Holds(v, variables))
                       && (directives[i].name == "include" ==> Holds(v, variables)));
      assert Removes(directives[i], variables);
    }
  }

  method IsSkipped(directives: seq<Directive>, variables: Variables) returns (skipped: bool)
    ensures skipped <==> !Included(directives, variables)
  {
    IncludedIsNotSkipped(directives, variables);
    for i := 0 to |directives|
      invariant forall j | 0 <= j < i :: !Removes(directives[j], variables)
    {
      var directive := directives[i];
      FindsFirst(directive.arguments, "if");
      var mustHold: bool;
      if directive.name == "skip" {
        mustHold := false;
      } else if directive.name == "include" {
        mustHold := true;
      } else {
        continue;
      }
      var conditionInput := GetArgument(directive.arguments, "if");
      if conditionInput.Some? {
        var value := Condition(conditionInput.value, variables);
        ConditionMeaning(conditionInput.value, variables);
        assert FirstIs(directive.arguments, "if", conditionInput.value);
        if mustHold != value {
          return true;
        }
      }
    }
    return false;
  }

  // ----- The rewrite -----

  predicate IsConditional(d: Directive) {
    d.name == "skip" || d.name == "include"
  }

  /** The directives that are not conditional. */
  function Others(directives: seq<Directive>): seq<Directive> {
    if directives == [] then []
    else (if IsConditional(directives[0]) then [] else [directives[0]]) + Others(directives[1..])
  }

  /** The rewritten selection set. */
  ghost function Pruned(items: seq<Selection>, variables: Variables): seq<Selection> {
    if items == [] then []
    else (if Included(items[0].directives, variables) then [PrunedOf(items[0], variables)] else [])
         + Pruned(items[1..], variables)
  }

  ghost function PrunedOf(s: Selection, variables: Variables): Selection {
    match s
    case Field(alias, name, arguments, directives, items) =>
      Field(alias, name, arguments, Others(directives), Pruned(items, variables))
    case FragmentSpread(name, directives) => FragmentSpread(name, Others(directives))
    case InlineFragment(on, directives, items) => InlineFragment(on, Others(directives), Pruned(items, variables))
  }

  ghost function PrunedFragments(fragments: Fragments, variables: Variables): Fragments {
    map n | n in fragments :: fragments[n].(items := Pruned(fragments[n].items, variables))
  }

  // ----- The three passes of the code compute the rewrite -----

  ghost function Retained(items: seq<Selection>, variables: Variables): seq<Selection> {
    if items == [] then []
    else (if Included(items[0].directives, variables) then [items[0]] else []) + Retained(items[1..], variables)
  }

  lemma {:induction false} RetainedSnoc(items: seq<Selection>, s: Selection, variables: Variables)
    ensures Retained(items + [s], variables) ==
            Retained(items, variables) + if Included(s.directives, variables) then [s] else []
  {
    if items == [] {
      assert [s][1..] == [];
    } else {
      assert (items + [s])[1..] == items[1..] + [s];
      RetainedSnoc(items[1..], s, variables);
    }
  }

  lemma {:induction false} OthersSnoc(directives: seq<Directive>, d: Directive)
    ensures Others(directives + [d]) == Others(directives) + if IsConditional(d) then [] else [d]
  {
    if directives == [] {
      assert [d][1..] == [];
    } else {
      assert (directives + [d])[1..] == directives[1..] + [d];
      OthersSnoc(directives[1..], d);
    }
  }

  /** The other directives are those with neither of the two names, in order and none left out. */
  lemma {:induction false} OthersAreTheRest(directives: seq<Directive>)
    ensures Sifted(directives, (d: Directive, e: Directive) => d == e && d.name != "skip" && d.name != "include",
                   Others(directives))
  {
    var makes := (d: Directive, e: Directive) => d == e && d.name != "skip" && d.name != "include";
    if directives == [] {
      SiftedNone(makes);
    } else {
      var rest, last := directives[..|directives| - 1], directives[|directives| - 1];
      OthersAreTheRest(rest);
      OthersSnoc(rest, last);
      if IsConditional(last) {
        SiftedSkip(rest, last, makes, Others(rest));
        assert Others(rest) + [] == Others(rest);
      } else {
        SiftedOne(rest, last, makes, Others(rest), last);
      }
      assert rest + [last] == directives;
    }
  }

  lemma {:induction false} PrunedIsRetainedPruned(items: seq<Selection>, variables: Variables)
    ensures |Pruned(items, variables)| == |Retained(items, variables)|
    ensures forall i | 0 <= i < |Retained(items, variables)| ::
              Pruned(items, variables)[i] == PrunedOf(Retained(items, variables)[i], variables)
  {
    if items != [] {
      PrunedIsRetainedPruned(items[1..], variables);
      var pruned, kept := Pruned(items[1..], variables), Retained(items[1..], variables);
      if Included(items[0].directives, variables) {
        assert Pruned(items, variables) == [PrunedOf(items[0], variables)] + pruned;
        assert Retained(items, variables) == [items[0]] + kept;
      } else {
        assert Pruned(items, variables) == pruned && Retained(items, variables) == kept;
      }
    }
  }

  /** The number of selections in a tree. */
  function Size(items: seq<Selection>): nat {
    if items == [] then 0 else SizeOf(items[0]) + Size(items[1..])
  }

  function SizeOf(s: Selection): nat {
    match s
    case Field(_, _, _, _, items) => 1 + Size(items)
    case FragmentSpread(_, _) => 1
    case InlineFragment(_, _, items) => 1 + Size(items)
  }

  lemma {:induction false} RetainedSize(items: seq<Selection>, variables: Variables, i: nat)
    requires i < |Retained(items, variables)|
    ensures SizeOf(Retained(items, variables)[i]) <= Size(items)
  {
    var kept := Included(items[0].directives, variables);
    if !kept {
      RetainedSize(items[1..], variables, i);
    } else if i > 0 {
      RetainedSize(items[1..], variables, i - 1);
    }
  }

  function WithDirectives(s: Selection, directives: seq<Directive>): Selection {
    match s
    case Field(alias, name, arguments, _, items) => Field(alias, name, arguments, directives, items)
    case FragmentSpread(name, _) => FragmentSpread(name, directives)
    case InlineFragment(on, _, items) => InlineFragment(on, directives, items)
  }

  method RetainOthers(directives: seq<Directive>) returns (kept: seq<Directive>)
    ensures kept == Others(directives)
  {
    kept := [];
    for i := 0 to |directives|
      invariant kept == Others(directives[..i])
    {
      assert directives[..i + 1] == directives[..i] + [directives[i]];
      OthersSnoc(directives[..i], directives[i]);
      if directives[i].name != "skip" && directives[i].name != "include" {
        kept := kept + [directives[i]];
      }
    }
    assert directives[..|directives|] == directives;
  }

  method RetainIncluded(items: seq<Selection>, variables: Variables) returns (kept: seq<Selection>)
    ensures kept == Retained(items, variables)
  {
    kept := [];
    for i := 0 to |items|
      invariant kept == Retained(items[..i], variables)
    {
      assert items[..i + 1] == items[..i] + [items[i]];
      RetainedSnoc(items[..i], items[i], variables);
      var skipped := IsSkipped(items[i].directives, variables);
      if !skipped {
        kept := kept + [items[i]];
      }
    }
    assert items[..|items|] == items;
  }

  method RemoveSkippedSelection(selectionSet: seq<Selection>, variables: Variables) returns (items: seq<Selection>)
    ensures items == Pruned(selectionSet, variables)
    decreases Size(selectionSet)
  {
    items := RetainIncluded(selectionSet, variables);
    ghost var kept := items;
    for i := 0 to |items|
      invariant |items| == |kept|
      invariant forall j | 0 <= j < i :: items[j] == WithDirectives(kept[j], Others(kept[j].directives))
      invariant forall j | i <= j < |items| :: items[j] == kept[j]
    {
      var others := RetainOthers(items[i].directives);
      items := items[i := WithDirectives(items[i], others)];
    }
    for i := 0 to |items|
      invariant |items| == |kept|
      invariant forall j | 0 <= j < i :: items[j] == PrunedOf(kept[j], variables)
      invariant forall j | i <= j < |items| :: items[j] == WithDirectives(kept[j], Others(kept[j].directives))
    {
      RetainedSize(selectionSet, variables, i);
      match items[i]
      case Field(alias, name, arguments, directives, inner) =>
        var rest := RemoveSkippedSelection(inner, variables);
        items := items[i := Field(alias, name, arguments, directives, rest)];
      case FragmentSpread(_, _) =>
      case InlineFragment(on, directives, inner) =>
        var rest := RemoveSkippedSelection(inner, variables);
        items := items[i := InlineFragment(on, directives, rest)];
    }
    PrunedIsRetainedPruned(selectionSet, variables);
  }

  /** The step of request preparation: every fragment and the operation are rewritten. */
  method RemoveSkipped(operation: seq<Selection>, document: Fragments, variables: Variables)
    returns (items: seq<Selection>, fragments: Fragments)
    ensures items == Pruned(operation, variables)
    ensures fragments == PrunedFragments(document, variables)
  {
    fragments := document;
    var todo := document.Keys;
    while todo != {}
      invariant todo <= document.Keys == fragments.Keys
      invariant forall n | n in todo :: fragments[n] == document[n]
      invariant forall n | n in document.Keys - todo :: fragments[n] == PrunedFragments(document, variables)[n]
    {
      var n :| n in todo;
      todo := todo - {n};
      var pruned := RemoveSkippedSelection(fragments[n].items, variables);
      fragments := fragments[n := fragments[n].(items := pruned)];
    }
    items := RemoveSkippedSelection(operation, variables);
  }

  // ----- The rewrite preserves meaning -----

  /** The meaning of a selection set under the conditional directives: what is not included is
      left out, at every level and inside every fragment. */
  ghost function Meaning(items: seq<Selection>, fragments: Fragments, variables: Variables): seq<Node>
    requires Acyclic(fragments)
    decreases Height(items, fragments), items
  {
    if items == [] then []
    else (if Included(items[0].directives, variables) then [MeaningOf(items[0], fragments, variables)] else [])
         + Meaning(items[1..], fragments, variables)
  }

  ghost function MeaningOf(s: Selection, fragments: Fragments, variables: Variables): Node
    requires Acyclic(fragments)
    decreases HeightOf(s, fragments), s
  {
    match s
    case Field(alias, name, arguments, directives, items) =>
      FieldNode(alias, name, arguments, Others(directives), Meaning(items, fragments, variables))
    case InlineFragment(on, directives, items) =>
      GroupNode(None, on, Others(directives), Meaning(items, fragments, variables))
    case FragmentSpread(name, directives) =>
      if name in fragments then
        SpreadLowersHeight(fragments, name);
        GroupNode(Some(name), Some(fragments[name].on), Others(directives),
                  Meaning(fragments[name].items, fragments, variables))
      else UnknownNode(name, Others(directives))
  }

  lemma {:induction false} PrunedSpreads(items: seq<Selection>, variables: Variables)
    ensures Spreads(Pruned(items, variables)) <= Spreads(items)
  {
    if items != [] {
      PrunedSpreads(items[1..], variables);
      if !items[0].FragmentSpread? {
        PrunedSpreads(items[0].items, variables);
      }
      if Included(items[0].directives, variables) {
        var s, rest := PrunedOf(items[0], variables), Pruned(items[1..], variables);
        assert ([s] + rest)[1..] == rest;
        assert Pruned(items, variables) == [s] + rest;
        assert Spreads([s] + rest) == SpreadsOf(s) + Spreads(rest);
        assert SpreadsOf(s) <= SpreadsOf(items[0]);
      } else {
        assert Pruned(items, variables) == Pruned(items[1..], variables);
      }
    }
  }

  /** The rewritten fragments are still free of cycles. */
  lemma {:induction false} PrunedAcyclic(fragments: Fragments, variables: Variables)
    requires Acyclic(fragments)
    ensures Acyclic(PrunedFragments(fragments, variables))
  {
    var pruned := PrunedFragments(fragments, variables);
    forall p: seq<string> | Chain(pruned, p)
      ensures p[0] != p[|p| - 1]
    {
      forall i | 0 <= i < |p| - 1
        ensures p[i + 1] in Spreads(fragments[p[i]].items)
      {
        PrunedSpreads(fragments[p[i]].items, variables);
      }
      assert Chain(fragments, p);
    }
  }

  /** Expanding the rewritten operation over the rewritten fragments, looking at no directive,
      gives the meaning of the original. */
  lemma {:induction false} RewritePreservesMeaning(items: seq<Selection>, fragments: Fragments, variables: Variables)
    requires Acyclic(fragments) && Acyclic(PrunedFragments(fragments, variables))
    ensures Plain(Pruned(items, variables), PrunedFragments(fragments, variables)) == Meaning(items, fragments, variables)
    decreases Height(items, fragments), items
  {
    if items != [] {
      RewritePreservesMeaning(items[1..], fragments, variables);
      if Included(items[0].directives, variables) {
        RewritePreservesMeaningOf(items[0], fragments, variables);
        var s, rest := PrunedOf(items[0], variables), Pruned(items[1..], variables);
        assert ([s] + rest)[1..] == rest;
      } else {
        assert Pruned(items, variables) == Pruned(items[1..], variables);
      }
    }
  }

  lemma {:induction false} RewritePreservesMeaningOf(s: Selection, fragments: Fragments, variables: Variables)
    requires Acyclic(fragments) && Acyclic(PrunedFragments(fragments, variables))
    ensures PlainOf(PrunedOf(s, variables), PrunedFragments(fragments, variables)) == MeaningOf(s, fragments, variables)
    decreases HeightOf(s, fragments), s
  {
    match s
    case Field(_, _, _, _, items) => RewritePreservesMeaning(items, fragments, variables);
    case InlineFragment(_, _, items) => RewritePreservesMeaning(items, fragments, variables);
    case FragmentSpread(name, _) =>
      if name in fragments {
        SpreadLowersHeight(fragments, name);
        RewritePreservesMeaning(fragments[name].items, fragments, variables);
      }
  }

  lemma {:induction false} SkipRemovalPreservesMeaning(
    operation: seq<Selection>, fragments: Fragments, variables: Variables)
    requires Acyclic(fragments)
    ensures var pruned := PrunedFragments(fragments, variables);
            Acyclic(pruned) && Plain(Pruned(operation, variables), pruned) == Meaning(operation, fragments, variables)
  {
    PrunedAcyclic(fragments, variables);
    RewritePreservesMeaning(operation, fragments, variables);
  }

  // ----- Nothing conditional is left, and a second rewrite does nothing -----

  predicate Unconditional(items: seq<Selection>) {
    forall i | 0 <= i < |items| ::
      && (forall j | 0 <= j < |items[i].directives| :: !IsConditional(items[i].directives[j]))
      && (!items[i].FragmentSpread? ==> Unconditional(items[i].items))
  }

  lemma {:induction false} OthersUnconditional(directives: seq<Directive>)
    ensures forall j | 0 <= j < |Others(directives)| :: !IsConditional(Others(directives)[j])
    ensures (forall j | 0 <= j < |directives| :: !IsConditional(directives[j])) ==> Others(directives) == directives
  {
    if directives != [] {
      OthersUnconditional(directives[1..]);
    }
  }

  lemma {:induction false} PrunedIsUnconditional(items: seq<Selection>, variables: Variables)
    ensures Unconditional(Pruned(items, variables))
  {
    if items != [] {
      PrunedIsUnconditional(items[1..], variables);
      OthersUnconditional(items[0].directives);
      if !items[0].FragmentSpread? {
        PrunedIsUnconditional(items[0].items, variables);
      }
    }
  }

  lemma {:induction false} UnconditionalIsUntouched(items: seq<Selection>, variables: Variables)
    requires Unconditional(items)
    ensures Pruned(items, variables) == items
  {
    if items != [] {
      UnconditionalIsUntouched(items[1..], variables);
      var s := items[0];
      if !s.FragmentSpread? {
        UnconditionalIsUntouched(s.items, variables);
      }
      OthersUnconditional(s.directives);
      assert PrunedOf(s, variables) == s;
      assert Included(s.directives, variables) by {
        assert forall i | 0 <= i < |s.directives| :: !IsConditional(s.directives[i]);
      }
      assert items == [s] + items[1..];
    }
  }

  /** The rewrite is idempotent, even if the variables change. */
  lemma {:induction false} RewriteIsIdempotent(items: seq<Selection>, variables: Variables, others: Variables)
    ensures Pruned(Pruned(items, variables), others) == Pruned(items, variables)
  {
    PrunedIsUnconditional(items, variables);
    UnconditionalIsUntouched(Pruned(items, variables), others);
  }
}
