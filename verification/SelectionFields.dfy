/**
 Two ways to see the fields of a selection set through its fragments: an iterator with an
 explicit stack, and the recursive look-ahead.  Both ignore spreads of unknown fragments.
 */
module SelectionFields {
  import opened Common
  import opened Selections

  // ----- Reference: in-order flattening -----

  /** The fields of a selection set in document order, fragments opened in place. */
  ghost function Flatten(items: seq<Selection>, fragments: Fragments): seq<Selection>
    requires Acyclic(fragments)
    decreases Height(items, fragments), items
  {
    if items == [] then [] else FlattenOf(items[0], fragments) + Flatten(items[1..], fragments)
  }

  ghost function FlattenOf(s: Selection, fragments: Fragments): seq<Selection>
    requires Acyclic(fragments)
    decreases HeightOf(s, fragments), s
  {
    match s
    case Field(_, _, _, _, _) => [s]
    case InlineFragment(_, _, items) => Flatten(items, fragments)
    case FragmentSpread(name, _) =>
      if name in fragments then
        SpreadLowersHeight(fragments, name);
        Flatten(fragments[name].items, fragments)
      else []
  }

  /** How many moves the iterator needs for a selection set: one for each item, one to leave
      each opened set. */
  ghost function Moves(items: seq<Selection>, fragments: Fragments): nat
    requires Acyclic(fragments)
    decreases Height(items, fragments), items
  {
    if items == [] then 0 else MovesOf(items[0], fragments) + Moves(items[1..], fragments)
  }

  ghost function MovesOf(s: Selection, fragments: Fragments): nat
    requires Acyclic(fragments)
    decreases HeightOf(s, fragments), s
  {
    match s
    case Field(_, _, _, _, _) => 1
    case InlineFragment(_, _, items) => 2 + Moves(items, fragments)
    case FragmentSpread(name, _) =>
      if name in fragments then
        SpreadLowersHeight(fragments, name);
        2 + Moves(fragments[name].items, fragments)
      else 1
  }

  // ----- The explicit-stack iterator -----

  /** What a stack of partly read selection sets still yields; the last one is on top. */
  ghost function Remaining(stack: seq<seq<Selection>>, fragments: Fragments): seq<Selection>
    requires Acyclic(fragments)
  {
    if stack == [] then []
    else Flatten(stack[|stack| - 1], fragments) + Remaining(stack[..|stack| - 1], fragments)
  }

  ghost function StackMoves(stack: seq<seq<Selection>>, fragments: Fragments): nat
    requires Acyclic(fragments)
  {
    if stack == [] then 0
    else 1 + Moves(stack[|stack| - 1], fragments) + StackMoves(stack[..|stack| - 1], fragments)
  }

  lemma {:induction false} PushRemaining(stack: seq<seq<Selection>>, top: seq<Selection>, fragments: Fragments)
    requires Acyclic(fragments)
    ensures Remaining(stack + [top], fragments) == Flatten(top, fragments) + Remaining(stack, fragments)
  {
    assert (stack + [top])[..|stack|] == stack;
  }

  lemma {:induction false} PushMoves(stack: seq<seq<Selection>>, top: seq<Selection>, fragments: Fragments)
    requires Acyclic(fragments)
    ensures StackMoves(stack + [top], fragments) == 1 + Moves(top, fragments) + StackMoves(stack, fragments)
  {
    assert (stack + [top])[..|stack|] == stack;
  }

  /** What the iterator puts on the stack when it reads an item, if it opens one. */
  function Opened(s: Selection, fragments: Fragments): seq<seq<Selection>> {
    match s
    case Field(_, _, _, _, _) => []
    case InlineFragment(_, _, items) => [items]
    case FragmentSpread(name, _) => if name in fragments then [fragments[name].items] else []
  }

  /** Reading an item keeps what remains, except for the field it yields. */
  lemma {:induction false} ReadKeepsRemaining(below: seq<seq<Selection>>, top: seq<Selection>, fragments: Fragments)
    requires Acyclic(fragments) && top != []
    ensures var after := below + [top[1..]] + Opened(top[0], fragments);
            Remaining(below + [top], fragments) == (if top[0].Field? then [top[0]] else []) + Remaining(after, fragments)
  {
    var stack, extra := below + [top[1..]], Opened(top[0], fragments);
    var head, tail, rest := FlattenOf(top[0], fragments), Flatten(top[1..], fragments), Remaining(below, fragments);
    calc {
      Remaining(below + [top], fragments);
      { PushRemaining(below, top, fragments); }
      (head + tail) + rest;
      { ConcatAssoc(head, tail, rest); }
      head + (tail + rest);
      { PushRemaining(below, top[1..], fragments); }
      head + Remaining(stack, fragments);
    }
    OpenedRemaining(stack, top[0], fragments);
  }

  lemma {:induction false} OpenedRemaining(stack: seq<seq<Selection>>, s: Selection, fragments: Fragments)
    requires Acyclic(fragments)
    ensures FlattenOf(s, fragments) + Remaining(stack, fragments) ==
            (if s.Field? then [s] else []) + Remaining(stack + Opened(s, fragments), fragments)
  {
    var extra := Opened(s, fragments);
    if extra == [] {
      assert stack + extra == stack;
    } else {
      PushRemaining(stack, extra[0], fragments);
    }
  }

  /** Reading an item uses up one move. */
  lemma {:induction false} ReadTakesOneMove(below: seq<seq<Selection>>, top: seq<Selection>, fragments: Fragments)
    requires Acyclic(fragments) && top != []
    ensures StackMoves(below + [top], fragments) ==
            1 + StackMoves(below + [top[1..]] + Opened(top[0], fragments), fragments)
  {
    var stack, extra := below + [top[1..]], Opened(top[0], fragments);
    PushMoves(below, top, fragments);
    PushMoves(below, top[1..], fragments);
    if extra == [] {
      assert stack + extra == stack;
    } else {
      PushMoves(stack, extra[0], fragments);
    }
  }

  class SelectionFieldsIter {
    const fragments: Fragments
    var stack: seq<seq<Selection>>

    constructor (fragments: Fragments, items: seq<Selection>)
      requires Acyclic(fragments)
      ensures this.fragments == fragments
      ensures Remaining(stack, fragments) == Flatten(items, fragments)
    {
      this.fragments := fragments;
      stack := [items];
      new;
      assert stack == [] + [items];
      PushRemaining([], items, fragments);
    }

    /** Yields the next field, or nothing when none is left.  The loop ends because every turn
        uses up one move. */
    method Next() returns (field: Option<Selection>)
      requires Acyclic(fragments)
      modifies this
      ensures match field
              case Some(f) => old(Remaining(stack, fragments)) == [f] + Remaining(stack, fragments) && f.Field?
              case None => old(Remaining(stack, fragments)) == [] == Remaining(stack, fragments)
      ensures field.Some? ==> StackMoves(stack, fragments) < old(StackMoves(stack, fragments))
    {
      while true
        invariant Remaining(stack, fragments) == old(Remaining(stack, fragments))
        invariant StackMoves(stack, fragments) <= old(StackMoves(stack, fragments))
        decreases StackMoves(stack, fragments)
      {
        if stack == [] {
          return None;
        }
        var below, top := stack[..|stack| - 1], stack[|stack| - 1];
        assert stack == below + [top];
        if top == [] {
          PushRemaining(below, top, fragments);
          PushMoves(below, top, fragments);
          stack := below;
        } else {
          ReadKeepsRemaining(below, top, fragments);
          ReadTakesOneMove(below, top, fragments);
          var selection := top[0];
          stack := below + [top[1..]];
          assert stack + [] == stack;
          match selection
          case Field(_, _, _, _, _) =>
            return Some(selection);
          case FragmentSpread(name, _) =>
            if name in fragments {
              stack := stack + [fragments[name].items];
            }
          case InlineFragment(_, _, items) =>
            stack := stack + [items];
        }
      }
    }
  }

  /** Draining the iterator yields exactly the flattening. */
  method SelectionSet(fragments: Fragments, items: seq<Selection>) returns (fields: seq<Selection>)
    requires Acyclic(fragments)
    ensures fields == Flatten(items, fragments)
  {
    var iter := new SelectionFieldsIter(fragments, items);
    fields := [];
    var next := iter.Next();
    while next.Some?
      invariant iter.fragments == fragments && fresh(iter)
      invariant next.Some? ==> Flatten(items, fragments) == fields + [next.value] + Remaining(iter.stack, fragments)
      invariant next.None? ==> Flatten(items, fragments) == fields
      decreases next.Some?, StackMoves(iter.stack, fragments)
    {
      fields := fields + [next.value];
      next := iter.Next();
    }
  }

  // ----- Look-ahead -----

  function Named(fields: seq<Selection>, name: string): seq<Selection> {
    if fields == [] then []
    else (if fields[0].Field? && fields[0].name == name then [fields[0]] else []) + Named(fields[1..], name)
  }

  lemma {:induction false} NamedConcat(a: seq<Selection>, b: seq<Selection>, name: string)
    ensures Named(a + b, name) == Named(a, name) + Named(b, name)
  {
    if a == [] {
      assert a + b == b;
    } else {
      assert (a + b)[1..] == a[1..] + b;
      NamedConcat(a[1..], b, name);
    }
  }

  lemma {:induction false} FlattenConcat(a: seq<Selection>, b: seq<Selection>, fragments: Fragments)
    requires Acyclic(fragments)
    ensures Flatten(a + b, fragments) == Flatten(a, fragments) + Flatten(b, fragments)
  {
    if a == [] {
      assert a + b == b;
    } else {
      assert (a + b)[1..] == a[1..] + b;
      FlattenConcat(a[1..], b, fragments);
    }
  }

  lemma {:induction false} FlattenUpTo(items: seq<Selection>, i: nat, fragments: Fragments)
    requires Acyclic(fragments) && i < |items|
    ensures Flatten(items[..i + 1], fragments) == Flatten(items[..i], fragments) + FlattenOf(items[i], fragments)
  {
    assert items[..i + 1] == items[..i] + [items[i]];
    FlattenConcat(items[..i], [items[i]], fragments);
    assert Flatten([items[i]], fragments) == FlattenOf(items[i], fragments) + Flatten([], fragments);
  }

  lemma {:induction false} HeightOfItem(items: seq<Selection>, i: nat, fragments: Fragments)
    requires i < |items|
    ensures HeightOf(items[i], fragments) <= Height(items, fragments)
  {
    if i > 0 {
      HeightOfItem(items[1..], i - 1, fragments);
    }
  }

  lemma {:induction false} FilterUpTo(items: seq<Selection>, i: nat, fragments: Fragments, name: string)
    requires Acyclic(fragments) && i < |items|
    ensures Named(Flatten(items[..i + 1], fragments), name) ==
            Named(Flatten(items[..i], fragments), name) + Named(FlattenOf(items[i], fragments), name)
    ensures HeightOf(items[i], fragments) <= Height(items, fragments)
  {
    FlattenUpTo(items, i, fragments);
    NamedConcat(Flatten(items[..i], fragments), FlattenOf(items[i], fragments), name);
    HeightOfItem(items, i, fragments);
  }

  /** Appends the fields of the given name, looking through fragments. */
  method Filter(found: seq<Selection>, fragments: Fragments, items: seq<Selection>, name: string)
    returns (fields: seq<Selection>)
    requires Acyclic(fragments)
    ensures fields == found + Named(Flatten(items, fragments), name)
    decreases Height(items, fragments), items
  {
    fields := found;
    for i := 0 to |items|
      invariant fields == found + Named(Flatten(items[..i], fragments), name)
    {
      FilterUpTo(items, i, fragments, name);
      ghost var before := fields;
      ghost var a, b := Named(Flatten(items[..i], fragments), name), Named(FlattenOf(items[i], fragments), name);
      ConcatAssoc(found, a, b);
      match items[i]
      case Field(_, fieldName, _, _, _) =>
        if fieldName == name {
          fields := fields + [items[i]];
        }
        assert fields == before + Named([items[i]], name);
      case InlineFragment(_, _, inner) =>
        fields := Filter(fields, fragments, inner, name);
      case FragmentSpread(spread, _) =>
        if spread in fragments {
          SpreadLowersHeight(fragments, spread);
          fields := Filter(fields, fragments, fragments[spread].items, name);
        }
    }
    assert items[..|items|] == items;
  }

  /** The selection sets of several fields, flattened one after the other. */
  ghost function FlattenAll(fields: seq<Selection>, fragments: Fragments): seq<Selection>
    requires Acyclic(fragments)
  {
    if fields == [] then []
    else FlattenAll(fields[..|fields| - 1], fragments)
         + (var last := fields[|fields| - 1]; if last.Field? then Flatten(last.items, fragments) else [])
  }

  datatype Lookahead = Lookahead(fragments: Fragments, fields: seq<Selection>) {

    ghost predicate Valid() {
      Acyclic(fragments) && forall i | 0 <= i < |fields| :: fields[i].Field?
    }

    method Field(name: string) returns (next: Lookahead)
      requires Valid()
      ensures next.Valid() && next.fragments == fragments
      ensures next.fields == Named(FlattenAll(fields, fragments), name)
    {
      var found: seq<Selection> := [];
      for i := 0 to |fields|
        invariant found == Named(FlattenAll(fields[..i], fragments), name)
      {
        assert fields[..i + 1][..i] == fields[..i];
        NamedConcat(FlattenAll(fields[..i], fragments), Flatten(fields[i].items, fragments), name);
        found := Filter(found, fragments, fields[i].items, name);
      }
      assert fields[..|fields|] == fields;
      NamedAreFields(FlattenAll(fields, fragments), name);
      next := Lookahead(fragments, found);
    }

    /** A chain of `field` calls, from left to right. */
    method Path(names: seq<string>) returns (next: Lookahead)
      requires Valid()
      ensures next.Valid() && next.fragments == fragments
      ensures next.fields == Descend(fields, names, fragments)
    {
      next := this;
      for i := 0 to |names|
        invariant next.Valid() && next.fragments == fragments
        invariant Descend(next.fields, names[i..], fragments) == Descend(fields, names, fragments)
      {
        assert names[i..][1..] == names[i + 1..];
        next := next.Field(names[i]);
      }
    }
  }

  lemma {:induction false} NamedAreFields(fields: seq<Selection>, name: string)
    ensures forall i | 0 <= i < |Named(fields, name)| :: Named(fields, name)[i].Field?
  {
    if fields != [] {
      NamedAreFields(fields[1..], name);
    }
  }

  /** Repeatedly flattening and filtering by name. */
  ghost function Descend(fields: seq<Selection>, names: seq<string>, fragments: Fragments): seq<Selection>
    requires Acyclic(fragments)
    decreases names
  {
    if names == [] then fields
    else Descend(Named(FlattenAll(fields, fragments), names[0]), names[1..], fragments)
  }

  // ----- Look-ahead sees the expanded tree -----

  /** The field nodes directly visible in an expanded tree, groups opened. */
  function Visible(nodes: seq<Node>): seq<Node> {
    if nodes == [] then [] else VisibleOf(nodes[0]) + Visible(nodes[1..])
  }

  function VisibleOf(n: Node): seq<Node> {
    match n
    case FieldNode(_, _, _, _, _) => [n]
    case GroupNode(_, _, _, children) => Visible(children)
    case UnknownNode(_, _) => []
  }

  function NamedNodes(nodes: seq<Node>, name: string): seq<Node> {
    if nodes == [] then []
    else (if nodes[0].FieldNode? && nodes[0].name == name then [nodes[0]] else []) + NamedNodes(nodes[1..], name)
  }

  function Children(nodes: seq<Node>): seq<Node> {
    if nodes == [] then []
    else (if nodes[0].FieldNode? then nodes[0].children else []) + Children(nodes[1..])
  }

  /** All nodes of an expanded tree at a path of field names, in document order. */
  function AtPath(nodes: seq<Node>, names: seq<string>): seq<Node>
    decreases names
  {
    if names == [] then nodes else AtPath(NamedNodes(Visible(Children(nodes)), names[0]), names[1..])
  }

  lemma {:induction false} VisibleConcat(a: seq<Node>, b: seq<Node>)
    ensures Visible(a + b) == Visible(a) + Visible(b)
  {
    if a == [] {
      assert a + b == b;
    } else {
      assert (a + b)[1..] == a[1..] + b;
      VisibleConcat(a[1..], b);
    }
  }

  lemma {:induction false} ChildrenConcat(a: seq<Node>, b: seq<Node>)
    ensures Children(a + b) == Children(a) + Children(b)
  {
    if a == [] {
      assert a + b == b;
    } else {
      assert (a + b)[1..] == a[1..] + b;
      ChildrenConcat(a[1..], b);
    }
  }

  lemma {:induction false} PlainConcat(a: seq<Selection>, b: seq<Selection>, fragments: Fragments)
    requires Acyclic(fragments)
    ensures Plain(a + b, fragments) == Plain(a, fragments) + Plain(b, fragments)
  {
    if a == [] {
      assert a + b == b;
    } else {
      assert (a + b)[1..] == a[1..] + b;
      PlainConcat(a[1..], b, fragments);
    }
  }

  /** Flattening then expanding each field is the same as expanding and opening the groups. */
  lemma {:induction false} FlattenIsVisible(items: seq<Selection>, fragments: Fragments)
    requires Acyclic(fragments)
    ensures Plain(Flatten(items, fragments), fragments) == Visible(Plain(items, fragments))
    decreases Height(items, fragments), items
  {
    if items != [] {
      FlattenIsVisible(items[1..], fragments);
      FlattenIsVisibleOf(items[0], fragments);
      var first, rest := FlattenOf(items[0], fragments), Flatten(items[1..], fragments);
      PlainConcat(first, rest, fragments);
      assert Plain(items, fragments) == [PlainOf(items[0], fragments)] + Plain(items[1..], fragments);
      assert ([PlainOf(items[0], fragments)] + Plain(items[1..], fragments))[1..] == Plain(items[1..], fragments);
    }
  }

  lemma {:induction false} FlattenIsVisibleOf(s: Selection, fragments: Fragments)
    requires Acyclic(fragments)
    ensures Plain(FlattenOf(s, fragments), fragments) == VisibleOf(PlainOf(s, fragments))
    decreases HeightOf(s, fragments), s
  {
    match s
    case Field(_, _, _, _, _) =>
      assert Plain([s], fragments) == [PlainOf(s, fragments)] + Plain([s][1..], fragments);
    case InlineFragment(_, _, items) => FlattenIsVisible(items, fragments);
    case FragmentSpread(name, _) =>
      if name in fragments {
        SpreadLowersHeight(fragments, name);
        FlattenIsVisible(fragments[name].items, fragments);
      }
  }

  lemma {:induction false} NamedIsNamedNodes(fields: seq<Selection>, name: string, fragments: Fragments)
    requires Acyclic(fragments) && forall i | 0 <= i < |fields| :: fields[i].Field?
    ensures Plain(Named(fields, name), fragments) == NamedNodes(Plain(fields, fragments), name)
  {
    if fields != [] {
      var rest := fields[1..];
      NamedIsNamedNodes(rest, name, fragments);
      var node := PlainOf(fields[0], fragments);
      var nodes := Plain(fields, fragments);
      assert nodes == [node] + Plain(rest, fragments);
      assert nodes[0] == node && nodes[1..] == Plain(rest, fragments);
      if fields[0].name == name {
        assert ([fields[0]] + Named(rest, name))[1..] == Named(rest, name);
        assert Plain([fields[0]] + Named(rest, name), fragments) == [node] + Plain(Named(rest, name), fragments);
      } else {
        assert Named(fields, name) == Named(rest, name);
        assert NamedNodes(nodes, name) == NamedNodes(Plain(rest, fragments), name);
      }
    }
  }

  lemma {:induction false} FlattenAllIsChildren(fields: seq<Selection>, fragments: Fragments)
    requires Acyclic(fragments) && forall i | 0 <= i < |fields| :: fields[i].Field?
    ensures Plain(FlattenAll(fields, fragments), fragments) == Visible(Children(Plain(fields, fragments)))
  {
    if fields != [] {
      var front, last := fields[..|fields| - 1], fields[|fields| - 1];
      var node := PlainOf(last, fragments);
      calc {
        Plain(FlattenAll(fields, fragments), fragments);
        { PlainConcat(FlattenAll(front, fragments), Flatten(last.items, fragments), fragments); }
        Plain(FlattenAll(front, fragments), fragments) + Plain(Flatten(last.items, fragments), fragments);
        { FlattenAllIsChildren(front, fragments); FlattenIsVisible(last.items, fragments); }
        Visible(Children(Plain(front, fragments))) + Visible(node.children);
        { VisibleConcat(Children(Plain(front, fragments)), node.children); }
        Visible(Children(Plain(front, fragments)) + node.children);
        { ChildrenSnoc(Plain(front, fragments), node); }
        Visible(Children(Plain(front, fragments) + [node]));
        { PlainSnoc(front, last, fragments); assert fields == front + [last]; }
        Visible(Children(Plain(fields, fragments)));
      }
    }
  }

  lemma {:induction false} PlainSnoc(items: seq<Selection>, s: Selection, fragments: Fragments)
    requires Acyclic(fragments)
    ensures Plain(items + [s], fragments) == Plain(items, fragments) + [PlainOf(s, fragments)]
  {
    PlainConcat(items, [s], fragments);
    assert Plain([s], fragments) == [PlainOf(s, fragments)] + Plain([s][1..], fragments);
  }

  lemma {:induction false} ChildrenSnoc(nodes: seq<Node>, n: Node)
    requires n.FieldNode?
    ensures Children(nodes + [n]) == Children(nodes) + n.children
  {
    ChildrenConcat(nodes, [n]);
    assert Children([n]) == n.children + Children([n][1..]);
  }

  lemma {:induction false} FlattenAllFields(fields: seq<Selection>, fragments: Fragments)
    requires Acyclic(fragments)
    ensures forall i | 0 <= i < |FlattenAll(fields, fragments)| :: FlattenAll(fields, fragments)[i].Field?
  {
    if fields != [] {
      FlattenAllFields(fields[..|fields| - 1], fragments);
      if fields[|fields| - 1].Field? {
        FlattenFields(fields[|fields| - 1].items, fragments);
      }
    }
  }

  lemma {:induction false} FlattenFields(items: seq<Selection>, fragments: Fragments)
    requires Acyclic(fragments)
    ensures forall i | 0 <= i < |Flatten(items, fragments)| :: Flatten(items, fragments)[i].Field?
    decreases Height(items, fragments), items
  {
    if items != [] {
      FlattenFields(items[1..], fragments);
      assert HeightOf(items[0], fragments) <= Height(items, fragments);
      var s, head, tail := items[0], FlattenOf(items[0], fragments), Flatten(items[1..], fragments);
      if s.InlineFragment? {
        FlattenFields(s.items, fragments);
        assert head == Flatten(s.items, fragments);
      } else if s.FragmentSpread? && s.name in fragments {
        SpreadLowersHeight(fragments, s.name);
        FlattenFields(fragments[s.name].items, fragments);
        assert head == Flatten(fragments[s.name].items, fragments);
      }
      assert forall i | 0 <= i < |head| :: head[i].Field?;
      assert Flatten(items, fragments) == head + tail;
    }
  }

  /** A chain of look-ahead calls finds exactly the nodes of the expanded tree at that path. */
  lemma {:induction false} LookaheadSeesTheTree(fields: seq<Selection>, names: seq<string>, fragments: Fragments)
    requires Acyclic(fragments) && forall i | 0 <= i < |fields| :: fields[i].Field?
    ensures Plain(Descend(fields, names, fragments), fragments) == AtPath(Plain(fields, fragments), names)
    decreases names
  {
    if names != [] {
      var flat := FlattenAll(fields, fragments);
      FlattenAllIsChildren(fields, fragments);
      FlattenAllFields(fields, fragments);
      NamedIsNamedNodes(flat, names[0], fragments);
      NamedAreFields(flat, names[0]);
      LookaheadSeesTheTree(Named(flat, names[0]), names[1..], fragments);
    }
  }
}
