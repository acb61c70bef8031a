/**
 The directives that become records of their own, told by the names that are written in the document.
 */
module FederatedDirectives {
  import opened Common
  import opened FederatedModel
  import opened FederatedJoin
  import opened FederatedRecords

  // ----- Lists of lists of strings -----

  ghost predicate TextList(v: Value, texts: seq<string>) {
    && v.ListValue? && |v.items| == |texts|
    && forall i | 0 <= i < |texts| :: v.items[i] == Str(texts[i]) || v.items[i] == BlockStr(texts[i])
  }

  ghost predicate TextLists(v: Value, lists: seq<seq<string>>) {
    v.ListValue? && |v.items| == |lists| && forall i | 0 <= i < |lists| :: TextList(v.items[i], lists[i])
  }

  lemma StringListRead(v: Value, texts: seq<string>)
    ensures TextList(v, texts) <==> IsStringList(v) && StringList(v) == texts
  {
    if v.ListValue? {
      forall i | 0 <= i < |v.items|
        ensures AsText(Some(v.items[i])).Some? <==> v.items[i].Str? || v.items[i].BlockStr?
      {
      }
      if IsStringList(v) && StringList(v) == texts {
        forall i | 0 <= i < |texts|
          ensures v.items[i] == Str(texts[i]) || v.items[i] == BlockStr(texts[i])
        {
          assert StringList(v)[i] == AsText(Some(v.items[i])).value;
        }
      }
    }
  }

  lemma StringListsRead(v: Option<Value>, lists: seq<seq<string>>)
    ensures StringLists(v) == Some(lists) <==> v.Some? && TextLists(v.value, lists)
  {
    if v.Some? && v.value.ListValue? {
      var items := v.value.items;
      if TextLists(v.value, lists) {
        forall i | 0 <= i < |items|
          ensures IsStringList(items[i]) && StringList(items[i]) == lists[i]
        {
          StringListRead(items[i], lists[i]);
        }
        assert StringLists(v).Some? && StringLists(v).value == lists;
      }
      if StringLists(v) == Some(lists) {
        forall i | 0 <= i < |items|
          ensures TextList(items[i], lists[i])
        {
          assert StringLists(v).value[i] == StringList(items[i]);
          StringListRead(items[i], lists[i]);
        }
      }
    }
  }

  /** The first argument of a name is a list of lists of strings. */
  ghost predicate ListsArgument(d: DirectiveNode, name: string, lists: seq<seq<string>>) {
    exists v :: FirstArgument(d, name, v) && TextLists(v, lists)
  }

  lemma ListsFound(d: DirectiveNode, name: string, lists: seq<seq<string>>)
    ensures StringLists(GetArgument(d.arguments, name)) == Some(lists) <==> ListsArgument(d, name, lists)
  {
    ArgumentFound(d, name);
    StringListsRead(GetArgument(d.arguments, name), lists);
  }

  // ----- Records -----

  /** Directives that are read elsewhere. */
  const NOT_COMPOSED: set<string> := {"join__field", "join__type", "authorized", "join__implements", "join__unionMember"}

  /** The directive becomes a record. */
  ghost predicate BecomesRecord(d: DirectiveNode) {
    && d.name !in NOT_COMPOSED
    && (d.name == "requiresScopes" ==> exists lists :: ListsArgument(d, "scopes", lists))
    && (d.name == "policy" ==> exists lists :: ListsArgument(d, "policies", lists))
  }

  lemma ComposedExactly(d: DirectiveNode)
    ensures IsComposed(d) <==> BecomesRecord(d)
  {
    var scopes, policies := StringLists(GetArgument(d.arguments, "scopes")), StringLists(GetArgument(d.arguments,
      "policies"));
    if scopes.Some? {
      ListsFound(d, "scopes", scopes.value);
    }
    if policies.Some? {
      ListsFound(d, "policies", policies.value);
    }
    forall lists
      ensures ListsArgument(d, "scopes", lists) ==> scopes.Some?
      ensures ListsArgument(d, "policies", lists) ==> policies.Some?
    {
      ListsFound(d, "scopes", lists);
      ListsFound(d, "policies", lists);
    }
  }

  /** The record that a directive stands for, by its name. */
  ghost predicate RecordIs(
    strings: seq<string>, enumValues: map<(nat, string), nat>, r: DirectiveRecord, d: DirectiveNode)
  {
    match d.name
    case "inaccessible" => r == Inaccessible
    case "authenticated" => r == Authenticated
    case "deprecated" =>
      && r.Deprecated?
      && (r.reason.None? ==> forall text :: !FirstText(d, "reason", text))
      && (r.reason.Some? ==> exists text :: FirstText(d, "reason", text) && Denotes(strings, r.reason.value, text))
    case "requiresScopes" =>
      r.RequiresScopes? && exists lists :: ListsArgument(d, "scopes", lists) && DenotesLists(strings, r.scopes, lists)
    case "policy" =>
      r.Policy? && exists lists :: ListsArgument(d, "policies", lists) && DenotesLists(strings, r.policies, lists)
    case _ =>
      && d.name !in NOT_COMPOSED && r.Other? && Denotes(strings, r.name, d.name) && |r.arguments| == |d.arguments|
      && forall i | 0 <= i < |d.arguments| ::
           && Denotes(strings, r.arguments[i].key, d.arguments[i].name)
           && DenotesValue(strings, enumValues, None, r.arguments[i].value, d.arguments[i].value)
  }

  lemma ReasonRead(strings: seq<string>, d: DirectiveNode, reason: Option<nat>)
    ensures DenotesOption(strings, reason, Reason(d)) <==>
            && (reason.None? ==> forall text :: !FirstText(d, "reason", text))
            && (reason.Some? ==> exists text :: FirstText(d, "reason", text) && Denotes(strings, reason.value, text))
  {
    TextFound(d, "reason");
    if Reason(d).Some? {
      assert FirstText(d, "reason", Reason(d).value);
    }
  }

  lemma ListsRead(strings: seq<string>, d: DirectiveNode, name: string, ids: seq<seq<nat>>)
    ensures var lists := StringLists(GetArgument(d.arguments, name));
            lists.Some? && DenotesLists(strings, ids, lists.value) <==>
            exists texts :: ListsArgument(d, name, texts) && DenotesLists(strings, ids, texts)
  {
    var lists := StringLists(GetArgument(d.arguments, name));
    if lists.Some? {
      ListsFound(d, name, lists.value);
    }
    forall texts | ListsArgument(d, name, texts)
      ensures lists == Some(texts)
    {
      ListsFound(d, name, texts);
    }
  }

  lemma OtherRead(strings: seq<string>, enumValues: map<(nat, string), nat>, arguments: seq<GraphMember>, d: DirectiveNode)
    ensures DenotesValue(strings, enumValues, None, GObject(arguments), ObjectValue(AsMembers(d.arguments))) <==>
            && |arguments| == |d.arguments|
            && forall i | 0 <= i < |d.arguments| ::
                 && Denotes(strings, arguments[i].key, d.arguments[i].name)
                 && DenotesValue(strings, enumValues, None, arguments[i].value, d.arguments[i].value)
  {
    var members := AsMembers(d.arguments);
    assert forall i | 0 <= i < |members| :: members[i] == Member(d.arguments[i].name, d.arguments[i].value);
  }

  /** The record of a directive is the one that its name calls for. */
  lemma RecordedByName(
    strings: seq<string>, enumValues: map<(nat, string), nat>, r: DirectiveRecord, d: DirectiveNode)
    ensures DenotesDirective(strings, enumValues, r, d) <==> RecordIs(strings, enumValues, r, d)
  {
    hide DenotesLists, ListsArgument, FirstText, DenotesValue, StringLists, GetArgument;
    if r.Deprecated? {
      ReasonRead(strings, d, r.reason);
    }
    if r.RequiresScopes? {
      ListsRead(strings, d, "scopes", r.scopes);
    }
    if r.Policy? {
      ListsRead(strings, d, "policies", r.policies);
    }
    if r.Other? {
      OtherRead(strings, enumValues, r.arguments, d);
    }
  }

  /** The composed directives are those that become records, in order and none left out. */
  lemma {:induction false} ComposedAreWritten(directives: seq<DirectiveNode>, n: nat)
    requires n <= |directives|
    ensures Sifted(directives[..n], (d: DirectiveNode, e: DirectiveNode) => d == e && BecomesRecord(d),
                   ComposedTo(directives, n))
  {
    hide Sifted, IsComposed, BecomesRecord;
    var makes := (d: DirectiveNode, e: DirectiveNode) => d == e && BecomesRecord(d);
    if n == 0 {
      SiftedNone(makes);
    } else {
      var before, d := ComposedTo(directives, n - 1), directives[n - 1];
      ComposedAreWritten(directives, n - 1);
      ComposedExactly(d);
      assert directives[..n] == directives[..n - 1] + [d];
      if IsComposed(d) {
        SiftedOne(directives[..n - 1], d, makes, before, d);
      } else {
        SiftedSkip(directives[..n - 1], d, makes, before);
        assert before + [] == before;
      }
    }
  }

  // ----- What is refused -----

  /** The scalars of a value in the order they are written. */
  function Leaves(v: Value): seq<Value>
    decreases v, 1
  {
    match v
    case ListValue(items) => AllLeaves(items)
    case ObjectValue(members) => MemberLeaves(members)
    case _ => [v]
  }

  function AllLeaves(items: seq<Value>): seq<Value>
    decreases items, 0
  {
    if items == [] then [] else Leaves(items[0]) + AllLeaves(items[1..])
  }

  function MemberLeaves(members: seq<Member>): seq<Value>
    decreases members, 0
  {
    if members == [] then [] else Leaves(members[0].value) + MemberLeaves(members[1..])
  }

  /** What stops the conversion to JSON. */
  predicate Stops(v: Value) {
    v.Variable? || v.Enum? || (v.Float? && !v.finite)
  }

  predicate FirstStop(leaves: seq<Value>, i: int) {
    0 <= i < |leaves| && Stops(leaves[i]) && forall j | 0 <= j < i :: !Stops(leaves[j])
  }

  /** The conversion ends as the first scalar that stops it says. */
  ghost predicate EndsAt(leaves: seq<Value>, c: Conversion) {
    match c
    case Converts => forall j | 0 <= j < |leaves| :: !Stops(leaves[j])
    case GivesUp => exists i :: FirstStop(leaves, i) && !leaves[i].Float?
    case Overflows => exists i :: FirstStop(leaves, i) && leaves[i].Float?
  }

  lemma EndsWith(a: seq<Value>, b: seq<Value>, first: Conversion, rest: Conversion)
    requires EndsAt(a, first) && EndsAt(b, rest)
    ensures EndsAt(a + b, if first.Converts? then rest else first)
  {
    if !first.Converts? {
      var i :| FirstStop(a, i) && (a[i].Float? <==> first.Overflows?);
      assert FirstStop(a + b, i);
    } else if !rest.Converts? {
      var i :| FirstStop(b, i) && (b[i].Float? <==> rest.Overflows?);
      assert FirstStop(a + b, |a| + i);
    }
  }

  lemma {:induction false} ConversionEnds(v: Value)
    ensures EndsAt(Leaves(v), ToJson(v))
    decreases v, 1
  {
    match v
    case ListValue(items) => AllConversionsEnd(items);
    case ObjectValue(members) => MemberConversionsEnd(members);
    case _ => assert Stops(v) ==> FirstStop([v], 0);
  }

  lemma {:induction false} AllConversionsEnd(items: seq<Value>)
    ensures EndsAt(AllLeaves(items), AllToJson(items))
    decreases items, 0
  {
    if items != [] {
      ConversionEnds(items[0]);
      AllConversionsEnd(items[1..]);
      EndsWith(Leaves(items[0]), AllLeaves(items[1..]), ToJson(items[0]), AllToJson(items[1..]));
    }
  }

  lemma {:induction false} MemberConversionsEnd(members: seq<Member>)
    ensures EndsAt(MemberLeaves(members), MembersToJson(members))
    decreases members, 0
  {
    if members != [] {
      ConversionEnds(members[0].value);
      MemberConversionsEnd(members[1..]);
      EndsWith(Leaves(members[0].value), MemberLeaves(members[1..]), ToJson(members[0].value),
               MembersToJson(members[1..]));
    }
  }

  /** The first argument of a name has an infinite number that nothing else stops the conversion before. */
  ghost predicate Overflowing(d: DirectiveNode, name: string) {
    exists v, i :: FirstArgument(d, name, v) && FirstStop(Leaves(v), i) && Leaves(v)[i].Float?
  }

  lemma OverflowFound(d: DirectiveNode, name: string)
    ensures ArgumentOverflows(d, name) <==> Overflowing(d, name)
  {
    ArgumentFound(d, name);
    var v := GetArgument(d.arguments, name);
    if v.Some? {
      ConversionEnds(v.value);
      forall i, j | FirstStop(Leaves(v.value), i) && FirstStop(Leaves(v.value), j)
        ensures i == j
      {
      }
    }
  }

  /** A directive is refused for a variable, where its arguments are kept, or for an infinite number, where they
      are converted. */
  lemma RefusedExactly(d: DirectiveNode)
    ensures DirectiveOk(d) <==>
            match d.name
            case "inaccessible" => true
            case "authenticated" => true
            case "deprecated" => true
            case "requiresScopes" => !Overflowing(d, "scopes")
            case "policy" => !Overflowing(d, "policies")
            case _ => d.name in NOT_COMPOSED || forall i | 0 <= i < |d.arguments| :: !HasVariable(d.arguments[i].value)
  {
    OverflowFound(d, "scopes");
    OverflowFound(d, "policies");
    var members := AsMembers(d.arguments);
    assert forall i | 0 <= i < |members| :: members[i].value == d.arguments[i].value;
  }
}
