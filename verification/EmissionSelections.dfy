/**
 Resolving the selections that were set aside.  They are resolved against the complete tables,
 so the order in which definitions were emitted plays no part.
 */
module EmissionSelections {
  import opened Common
  import opened EmissionModel
  import opened Emission
  import opened EmissionGroups

  // ----- Arguments -----

  /** The input value at a position is the first of its name in a window. */
  predicate IsFirst(inputs: seq<string>, w: Window, name: string, p: nat) {
    && w.start <= p < w.start + w.len && p < |inputs| && inputs[p] == name
    && forall q | w.start <= q < p :: inputs[q] != name
  }

  lemma {:induction false} FindsFirst(inputs: seq<string>, w: Window, name: string)
    ensures FindInput(inputs, w, name).Some? ==> IsFirst(inputs, w, name, FindInput(inputs, w, name).value)
    ensures FindInput(inputs, w, name).None? ==> forall p: nat :: !IsFirst(inputs, w, name, p)
    decreases w.len
  {
    if w.len > 0 && w.start < |inputs| && inputs[w.start] != name {
      var rest := Window(w.start + 1, w.len - 1);
      FindsFirst(inputs, rest, name);
      if FindInput(inputs, w, name).None? {
        forall p: nat
          ensures !IsFirst(inputs, w, name, p)
        {
          assert !IsFirst(inputs, rest, name, p);
        }
      }
    }
  }

  ghost predicate KnownArgument(inputs: seq<string>, w: Window, name: string) {
    exists p: nat :: IsFirst(inputs, w, name, p)
  }

  ghost predicate KnownArguments(inputs: seq<string>, w: Window, arguments: seq<Argument>) {
    forall i | 0 <= i < |arguments| :: KnownArgument(inputs, w, arguments[i].name)
  }

  /** The resolved arguments are the first of their names, with their values. */
  predicate MeansArguments(inputs: seq<string>, w: Window, attached: seq<AttachedArgument>, arguments: seq<Argument>) {
    && |attached| == |arguments|
    && forall i | 0 <= i < |arguments| ::
         IsFirst(inputs, w, arguments[i].name, attached[i].argument) && attached[i].value == arguments[i].value
  }

  lemma {:induction false} ArgumentsExactly(inputs: seq<string>, w: Window, arguments: seq<Argument>)
    ensures AttachArguments(inputs, w, arguments).Some? <==> KnownArguments(inputs, w, arguments)
    ensures AttachArguments(inputs, w, arguments).Some? ==>
              MeansArguments(inputs, w, AttachArguments(inputs, w, arguments).value, arguments)
  {
    if arguments != [] {
      FindsFirst(inputs, w, arguments[0].name);
      ArgumentsExactly(inputs, w, arguments[1..]);
      assert forall i | 1 <= i < |arguments| :: arguments[i] == arguments[1..][i - 1];
      if AttachArguments(inputs, w, arguments).Some? {
        var all, rest := AttachArguments(inputs, w, arguments).value, AttachArguments(inputs, w, arguments[1..]).value;
        assert all[0].value == arguments[0].value && forall i | 1 <= i < |all| :: all[i] == rest[i - 1];
      }
    }
  }

  // ----- What a selection refers to -----

  /** Every field exists on the definition reached, its arguments are known, and every fragment names a
      known definition. */
  ghost predicate Resolvable(t: Lookup, emitted: seq<Emitted>, items: seq<Selection>, target: Definition) {
    forall i | 0 <= i < |items| :: ResolvableOne(t, emitted, items[i], target)
  }

  ghost predicate ResolvableOne(t: Lookup, emitted: seq<Emitted>, item: Selection, target: Definition) {
    match item
    case FieldSelection(name, arguments, items) =>
      var picked := Picked(emitted, target, name, |emitted|);
      && picked.Some? && picked.value < |emitted| && emitted[picked.value].Emitted?
      && KnownArguments(t.inputs, emitted[picked.value].ir.arguments, arguments)
      && Resolvable(t, emitted, items, emitted[picked.value].ir.output)
    case InlineFragment(on, items) => on in t.definitions && Resolvable(t, emitted, items, t.definitions[on])
  }

  /** Resolving succeeds exactly for the selections that refer to what was emitted, early or late. */
  lemma {:induction false} AttachExactly(t: Lookup, emitted: seq<Emitted>, items: seq<Selection>, target: Definition)
    requires RecordsStand(t.fields, emitted) && MapStands(t.selectionMap, emitted)
    ensures Attach(t, items, target).Some? <==> Resolvable(t, emitted, items, target)
    decreases items
  {
    if items != [] {
      AttachOneExactly(t, emitted, items[0], target);
      AttachExactly(t, emitted, items[1..], target);
      assert forall i | 1 <= i < |items| :: items[i] == items[1..][i - 1];
    }
  }

  lemma {:induction false} AttachOneExactly(t: Lookup, emitted: seq<Emitted>, item: Selection, target: Definition)
    requires RecordsStand(t.fields, emitted) && MapStands(t.selectionMap, emitted)
    ensures AttachOne(t, item, target).Some? <==> ResolvableOne(t, emitted, item, target)
    decreases item
  {
    match item
    case FieldSelection(name, arguments, items) =>
      assert MapAt(t.selectionMap, emitted, target, name);
      var picked := Picked(emitted, target, name, |emitted|);
      if picked.Some? {
        PickedField(emitted, target, name, |emitted|);
        assert RecordAt(t.fields, emitted, picked.value);
        ArgumentsExactly(t.inputs, emitted[picked.value].ir.arguments, arguments);
        AttachExactly(t, emitted, items, emitted[picked.value].ir.output);
      }
    case InlineFragment(on, items) =>
      if on in t.definitions {
        AttachExactly(t, emitted, items, t.definitions[on]);
      }
  }

  // ----- What a resolved selection means -----

  predicate Means(t: Lookup, l: Layout, attached: seq<Attached>, items: seq<Selection>, target: Definition)
    decreases items
  {
    |attached| == |items| && forall i | 0 <= i < |items| :: MeansOne(t, l, attached[i], items[i], target)
  }

  /** The field has the name that was written and lies in the range of the definition it is selected on,
      and its arguments are its own. */
  predicate MeansOne(t: Lookup, l: Layout, attached: Attached, item: Selection, target: Definition)
    decreases item
  {
    match item
    case FieldSelection(name, arguments, items) =>
      && attached.AttachedField? && attached.field < |t.fields| && t.fields[attached.field].name == name
      && Owns(l, target, attached.field)
      && MeansArguments(t.inputs, t.fields[attached.field].arguments, attached.arguments, arguments)
      && Means(t, l, attached.items, items, t.fields[attached.field].output)
    case InlineFragment(on, items) =>
      && attached.AttachedFragment? && on in t.definitions && t.definitions[on] == attached.on
      && Means(t, l, attached.items, items, attached.on)
  }

  lemma {:induction false} AttachedMeans(t: Lookup, l: Layout, items: seq<Selection>, target: Definition)
    requires RecordsStand(t.fields, l.emitted) && MapStands(t.selectionMap, l.emitted) && Exact(l)
    requires Attach(t, items, target).Some?
    ensures Means(t, l, Attach(t, items, target).value, items, target)
    decreases items
  {
    if items != [] {
      AttachedOneMeans(t, l, items[0], target);
      AttachedMeans(t, l, items[1..], target);
      var all, rest := Attach(t, items, target).value, Attach(t, items[1..], target).value;
      forall i | 0 <= i < |items|
        ensures MeansOne(t, l, all[i], items[i], target)
      {
        if i > 0 {
          assert all[i] == rest[i - 1] && items[i] == items[1..][i - 1];
        }
      }
    }
  }

  lemma {:induction false} AttachedOneMeans(t: Lookup, l: Layout, item: Selection, target: Definition)
    requires RecordsStand(t.fields, l.emitted) && MapStands(t.selectionMap, l.emitted) && Exact(l)
    requires AttachOne(t, item, target).Some?
    ensures MeansOne(t, l, AttachOne(t, item, target).value, item, target)
    decreases item
  {
    match item
    case FieldSelection(name, arguments, items) =>
      assert MapAt(t.selectionMap, l.emitted, target, name);
      PickedField(l.emitted, target, name, |l.emitted|);
      var field := t.selectionMap[(target, name)];
      assert RecordAt(t.fields, l.emitted, field);
      assert Comes(l, target, field);
      ArgumentsExactly(t.inputs, t.fields[field].arguments, arguments);
      AttachedMeans(t, l, items, t.fields[field].output);
    case InlineFragment(on, items) =>
      AttachedMeans(t, l, items, t.definitions[on]);
  }

  // ----- Later updates change nothing -----

  predicate SameAt(fields: seq<FieldRecord>, other: seq<FieldRecord>, i: nat) {
    && i < |fields| && i < |other|
    && fields[i].name == other[i].name && fields[i].output == other[i].output && fields[i].arguments == other[i].arguments
  }

  ghost predicate SameShape(fields: seq<FieldRecord>, other: seq<FieldRecord>) {
    |fields| == |other| && forall i | 0 <= i < |fields| :: SameAt(fields, other, i)
  }

  /** Attaching selections to fields does not change how selections resolve. */
  lemma {:induction false} AttachIsStable(t: Lookup, other: seq<FieldRecord>, items: seq<Selection>, target: Definition)
    requires SameShape(t.fields, other)
    ensures Attach(t, items, target) == Attach(t.(fields := other), items, target)
    decreases items
  {
    if items != [] {
      AttachIsStable(t, other, items[1..], target);
      match items[0] {
        case FieldSelection(name, _, sub) =>
          if (target, name) in t.selectionMap && t.selectionMap[(target, name)] < |t.fields| {
            var field := t.selectionMap[(target, name)];
            assert SameAt(t.fields, other, field);
            AttachIsStable(t, other, sub, t.fields[field].output);
          }
        case InlineFragment(on, sub) =>
          if on in t.definitions {
            AttachIsStable(t, other, sub, t.definitions[on]);
          }
      }
    }
  }
}
