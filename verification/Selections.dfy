/**
 GraphQL selection sets with fragments: the syntax tree, the fragment graph, and a rank on
 fragments that makes recursion through spreads well-founded when the graph has no cycle.
 */
module Selections {
  import opened Common

  /** A value with all variables substituted. */
  datatype ConstValue =
    | CNull
    | CNumber(number: string)
    | CString(text: string)
    | CBoolean(flag: bool)
    | CBinary(bytes: seq<nat>)
    | CEnum(name: string)
    | CList(items: seq<ConstValue>)
    | CObject(fields: seq<ConstMember>)

  datatype ConstMember = ConstMember(key: string, value: ConstValue)

  datatype Value =
    | Variable(name: string)
    | Null
    | Number(number: string)
    | Text(text: string)
    | Boolean(flag: bool)
    | Binary(bytes: seq<nat>)
    | Enum(name: string)
    | List(items: seq<Value>)
    | Object(fields: seq<Member>)

  datatype Member = Member(key: string, value: Value)

  datatype Directive = Directive(name: string, arguments: seq<(string, Value)>)

  datatype Selection =
    | Field(alias: Option<string>, name: string, arguments: seq<(string, Value)>,
            directives: seq<Directive>, items: seq<Selection>)
    | FragmentSpread(name: string, directives: seq<Directive>)
    | InlineFragment(on: Option<string>, directives: seq<Directive>, items: seq<Selection>)

  datatype Fragment = Fragment(on: string, directives: seq<Directive>, items: seq<Selection>)

  type Fragments = map<string, Fragment>

  // ----- The fragment graph -----

  /** The names of all fragments spread anywhere in a selection set. */
  function Spreads(items: seq<Selection>): set<string> {
    if items == [] then {} else SpreadsOf(items[0]) + Spreads(items[1..])
  }

  function SpreadsOf(s: Selection): set<string> {
    match s
    case Field(_, _, _, _, items) => Spreads(items)
    case FragmentSpread(name, _) => {name}
    case InlineFragment(_, _, items) => Spreads(items)
  }

  /** Each fragment of the chain spreads the next one. */
  predicate Chain(fragments: Fragments, p: seq<string>) {
    && |p| >= 2
    && (forall i | 0 <= i < |p| :: p[i] in fragments)
    && (forall i | 0 <= i < |p| - 1 :: p[i + 1] in Spreads(fragments[p[i]].items))
  }

  /** No fragment spreads itself, directly or through others. */
  ghost predicate Acyclic(fragments: Fragments) {
    forall p: seq<string> {:trigger Chain(fragments, p)} :: Chain(fragments, p) ==> p[0] != p[|p| - 1]
  }

  ghost predicate Reaches(fragments: Fragments, n: string, m: string) {
    exists p: seq<string> {:trigger Chain(fragments, p)} :: Chain(fragments, p) && p[0] == n && p[|p| - 1] == m
  }

  ghost function Reachable(fragments: Fragments, n: string): set<string> {
    set m | m in fragments && Reaches(fragments, n, m)
  }

  /** The number of fragments reachable from a fragment. */
  ghost function Rank(fragments: Fragments, n: string): nat {
    |Reachable(fragments, n)|
  }

  lemma {:induction false} ReachesTrans(fragments: Fragments, n: string, m: string, k: string)
    requires n in fragments && m in Spreads(fragments[n].items) && Reaches(fragments, m, k)
    ensures Reaches(fragments, n, k)
  {
    var p :| Chain(fragments, p) && p[0] == m && p[|p| - 1] == k;
    var q := [n] + p;
    forall i | 0 <= i < |q| - 1
      ensures q[i + 1] in Spreads(fragments[q[i]].items)
    {
      if i > 0 {
        assert p[i] in Spreads(fragments[p[i - 1]].items);
      }
    }
    assert Chain(fragments, q) && q[0] == n && q[|q| - 1] == k;
  }

  lemma {:induction false} SubsetSize<T>(a: set<T>, b: set<T>)
    requires a < b
    ensures |a| < |b|
  {
    assert b == a + (b - a);
  }

  /** Without cycles a spread leads to a fragment of smaller rank. */
  lemma {:induction false} RankDecreases(fragments: Fragments, n: string, m: string)
    requires Acyclic(fragments) && n in fragments && m in fragments && m in Spreads(fragments[n].items)
    ensures Rank(fragments, m) < Rank(fragments, n)
  {
    var a, b := Reachable(fragments, m), Reachable(fragments, n);
    forall k | k in a
      ensures k in b
    {
      ReachesTrans(fragments, n, m, k);
    }
    assert Chain(fragments, [n, m]) && [n, m][0] == n && [n, m][1] == m;
    assert m in b && m !in a;
    SubsetSize(a, b);
  }

  /** One more than the largest rank among the known fragments spread in a selection set. */
  ghost function Height(items: seq<Selection>, fragments: Fragments): nat {
    if items == [] then 0
    else
      var a, b := HeightOf(items[0], fragments), Height(items[1..], fragments);
      if a > b then a else b
  }

  ghost function HeightOf(s: Selection, fragments: Fragments): nat {
    match s
    case Field(_, _, _, _, items) => Height(items, fragments)
    case FragmentSpread(name, _) => if name in fragments then Rank(fragments, name) + 1 else 0
    case InlineFragment(_, _, items) => Height(items, fragments)
  }

  lemma {:induction false} HeightBound(items: seq<Selection>, fragments: Fragments, bound: nat)
    requires forall m | m in Spreads(items) && m in fragments :: Rank(fragments, m) < bound
    ensures Height(items, fragments) <= bound
    decreases items
  {
    if items != [] {
      HeightBound(items[1..], fragments, bound);
      assert Spreads(items) == SpreadsOf(items[0]) + Spreads(items[1..]);
      if items[0].FragmentSpread? {
        assert items[0].name in Spreads(items);
      } else {
        HeightBound(items[0].items, fragments, bound);
      }
    }
  }

  /** Following a spread lowers the height, which is what makes recursion over a selection set
      and its fragments terminate. */
  lemma {:induction false} SpreadLowersHeight(fragments: Fragments, n: string)
    requires Acyclic(fragments) && n in fragments
    ensures Height(fragments[n].items, fragments) <= Rank(fragments, n)
  {
    forall m | m in Spreads(fragments[n].items) && m in fragments
      ensures Rank(fragments, m) < Rank(fragments, n)
    {
      RankDecreases(fragments, n, m);
    }
    HeightBound(fragments[n].items, fragments, Rank(fragments, n));
  }

  // ----- Expansion -----

  /** A fully expanded selection: fragments are replaced by their contents. */
  datatype Node =
    | FieldNode(alias: Option<string>, name: string, arguments: seq<(string, Value)>,
                directives: seq<Directive>, children: seq<Node>)
    | GroupNode(fragment: Option<string>, on: Option<string>, directives: seq<Directive>, children: seq<Node>)
    | UnknownNode(name: string, directives: seq<Directive>)

  /** Expansion that looks at no directive. */
  ghost function Plain(items: seq<Selection>, fragments: Fragments): seq<Node>
    requires Acyclic(fragments)
    decreases Height(items, fragments), items
  {
    if items == [] then [] else [PlainOf(items[0], fragments)] + Plain(items[1..], fragments)
  }

  ghost function PlainOf(s: Selection, fragments: Fragments): Node
    requires Acyclic(fragments)
    decreases HeightOf(s, fragments), s
  {
    match s
    case Field(alias, name, arguments, directives, items) =>
      FieldNode(alias, name, arguments, directives, Plain(items, fragments))
    case InlineFragment(on, directives, items) => GroupNode(None, on, directives, Plain(items, fragments))
    case FragmentSpread(name, directives) =>
      if name in fragments then
        SpreadLowersHeight(fragments, name);
        GroupNode(Some(name), Some(fragments[name].on), directives, Plain(fragments[name].items, fragments))
      else UnknownNode(name, directives)
  }
}
