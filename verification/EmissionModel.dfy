/**
 Emission of the composed fields.  The fields of each definition become one block of a flat
 table, sorted by name.  Selections of federation directives may refer to definitions that are
 emitted later, so they are set aside and resolved when the table is complete.
 */
module EmissionModel {
  import opened Common
  import opened StableSorting

  /** Objects and interfaces own fields; the other kinds do not. */
  datatype Definition = Object(id: nat) | Interface(id: nat) | Other(id: nat)

  /** Argument values are carried along. */
  type Value(==, !new)

  datatype Argument = Argument(name: string, value: Value)

  datatype Selection =
    | FieldSelection(name: string, arguments: seq<Argument>, items: seq<Selection>)
    | InlineFragment(on: string, items: seq<Selection>)

  /** A part of the table of input values. */
  datatype Window = Window(start: nat, len: nat)

  datatype Provision = Provision(subgraph: nat, output: string, selection: seq<Selection>)

  datatype Requirement = Requirement(subgraph: nat, selection: seq<Selection>)

  datatype FieldIr = FieldIr(
    parent: Definition, name: string, output: Definition, arguments: Window,
    provided: seq<Provision>, required: seq<Requirement>)

  datatype AttachedArgument = AttachedArgument(argument: nat, value: Value)

  datatype Attached =
    | AttachedField(field: nat, arguments: seq<AttachedArgument>, items: seq<Attached>)
    | AttachedFragment(on: Definition, items: seq<Attached>)

  datatype Attachment = Attachment(subgraph: nat, selection: seq<Attached>)

  datatype FieldRecord = FieldRecord(
    name: string, output: Definition, arguments: Window, provided: seq<Attachment>, required: seq<Attachment>)

  datatype Range = Range(start: nat, end: nat)

  const NO_FIELDS := Range(0, 0)

  /** A selection that was set aside. */
  datatype Deferred = Deferred(field: nat, subgraph: nat, target: Definition, selection: seq<Selection>)

  // ----- Sorting by name -----

  predicate ByName(s: seq<FieldIr>) {
    forall i, j | 0 <= i < j < |s| :: StringLe(s[i].name, s[j].name)
  }

  predicate NameLe(a: FieldIr, b: FieldIr) {
    StringLe(a.name, b.name)
  }

  function SortByName(s: seq<FieldIr>): seq<FieldIr> {
    StableSort(s, NameLe)
  }

  /** Sorting by name reorders the fields and nothing else. */
  lemma SortByNameSorts(s: seq<FieldIr>)
    ensures ByName(SortByName(s)) && |SortByName(s)| == |s|
    ensures multiset(SortByName(s)) == multiset(s)
  {
    forall a, b
      ensures NameLe(a, b) || NameLe(b, a)
    {
      StringLeTotal(a.name, b.name);
    }
    forall a, b, c | NameLe(a, b) && NameLe(b, c)
      ensures NameLe(a, c)
    {
      StringLeTransitive(a.name, b.name, c.name);
    }
    StableSortSorts(s, NameLe);
    assert forall i, j | 0 <= i < j < |SortByName(s)| :: NameLe(SortByName(s)[i], SortByName(s)[j]);
  }

  /** Fields of one name keep their order, so the sorted list is the only one of its kind. */
  lemma SortByNameIsStable(s: seq<FieldIr>, name: string)
    ensures Kept(SortByName(s), (ir: FieldIr) => ir.name == name) == Kept(s, (ir: FieldIr) => ir.name == name)
  {
    var keep := (ir: FieldIr) => ir.name == name;
    StringLeTotal(name, name);
    StableSortIsStable(s, NameLe, keep);
  }

  // ----- What is emitted -----

  /** An entry of the field table: a composed field, or one reserved for introspection. */
  datatype Emitted = Emitted(owner: Definition, ir: FieldIr) | Reserved(owner: Definition, name: string)

  /** The record has the name, type and arguments of the entry. */
  predicate RecordOf(r: FieldRecord, e: Emitted) {
    match e
    case Emitted(_, ir) => r.name == ir.name && r.output == ir.output && r.arguments == ir.arguments
    case Reserved(owner, name) => r.name == name && r.output == owner && r.arguments == Window(0, 0)
  }

  /** The first `n` fields as entries of one definition. */
  function EmittedAs(owner: Definition, fields: seq<FieldIr>, n: nat): seq<Emitted>
    requires n <= |fields|
  {
    if n == 0 then [] else EmittedAs(owner, fields, n - 1) + [Emitted(owner, fields[n - 1])]
  }

  lemma {:induction false} EmittedAsAt(owner: Definition, fields: seq<FieldIr>, n: nat)
    requires n <= |fields|
    ensures |EmittedAs(owner, fields, n)| == n
    ensures forall i | 0 <= i < n :: EmittedAs(owner, fields, n)[i] == Emitted(owner, fields[i])
  {
    if n > 0 {
      EmittedAsAt(owner, fields, n - 1);
    }
  }

  const INTROSPECTION: seq<string> := ["__schema", "__type"]

  function ReservedFor(owner: Definition): seq<Emitted> {
    [Reserved(owner, INTROSPECTION[0]), Reserved(owner, INTROSPECTION[1])]
  }

  /** The block of a definition: its fields by name, and two more on the root query type. */
  function Block(owner: Definition, group: seq<FieldIr>, root: nat): seq<Emitted> {
    var sorted := SortByName(group);
    EmittedAs(owner, sorted, |sorted|) + if owner == Object(root) then ReservedFor(owner) else []
  }

  // ----- Selections set aside -----

  function TargetOf(p: Provision, definitions: map<string, Definition>): Definition {
    if p.output in definitions then definitions[p.output] else Other(0)
  }

  function WithProvisions(
    before: seq<Deferred>, field: nat, provided: seq<Provision>, definitions: map<string, Definition>,
    n: nat): seq<Deferred>
    requires n <= |provided|
  {
    if n == 0 then before
    else
      var p := provided[n - 1];
      WithProvisions(before, field, provided, definitions, n - 1)
      + [Deferred(field, p.subgraph, TargetOf(p, definitions), p.selection)]
  }

  /** Requirements are resolved on the definition the field is emitted for. */
  function WithRequirements(
    before: seq<Deferred>, field: nat, required: seq<Requirement>, target: Definition, n: nat): seq<Deferred>
    requires n <= |required|
  {
    if n == 0 then before
    else
      var r := required[n - 1];
      WithRequirements(before, field, required, target, n - 1) + [Deferred(field, r.subgraph, target, r.selection)]
  }

  /** What has been set aside after the entry at a position. */
  function ProvisionsAfter(
    before: seq<Deferred>, field: nat, e: Emitted, definitions: map<string, Definition>): seq<Deferred>
  {
    match e
    case Emitted(_, ir) => WithProvisions(before, field, ir.provided, definitions, |ir.provided|)
    case Reserved(_, _) => before
  }

  function RequirementsAfter(before: seq<Deferred>, field: nat, e: Emitted): seq<Deferred> {
    match e
    case Emitted(owner, ir) => WithRequirements(before, field, ir.required, owner, |ir.required|)
    case Reserved(_, _) => before
  }

  function AllProvisions(emitted: seq<Emitted>, definitions: map<string, Definition>, n: nat): seq<Deferred>
    requires n <= |emitted|
  {
    if n == 0 then []
    else ProvisionsAfter(AllProvisions(emitted, definitions, n - 1), n - 1, emitted[n - 1], definitions)
  }

  function AllRequirements(emitted: seq<Emitted>, n: nat): seq<Deferred>
    requires n <= |emitted|
  {
    if n == 0 then [] else RequirementsAfter(AllRequirements(emitted, n - 1), n - 1, emitted[n - 1])
  }

  lemma {:induction false} DeferredPrefix(
    emitted: seq<Emitted>, more: seq<Emitted>, definitions: map<string, Definition>, n: nat)
    requires n <= |emitted| && emitted <= more
    ensures AllProvisions(emitted, definitions, n) == AllProvisions(more, definitions, n)
    ensures AllRequirements(emitted, n) == AllRequirements(more, n)
  {
    if n > 0 {
      DeferredPrefix(emitted, more, definitions, n - 1);
    }
  }

  // ----- The selection map -----

  /** The last field of a definition with a given name, among the first `n`. */
  function Picked(emitted: seq<Emitted>, owner: Definition, name: string, n: nat): Option<nat>
    requires n <= |emitted|
  {
    if n == 0 then None
    else if emitted[n - 1].Emitted? && emitted[n - 1].owner == owner && emitted[n - 1].ir.name == name then Some(n - 1)
    else Picked(emitted, owner, name, n - 1)
  }

  lemma {:induction false} PickedPrefix(
    emitted: seq<Emitted>, more: seq<Emitted>, owner: Definition, name: string, n: nat)
    requires n <= |emitted| && emitted <= more
    ensures Picked(emitted, owner, name, n) == Picked(more, owner, name, n)
  {
    if n > 0 {
      PickedPrefix(emitted, more, owner, name, n - 1);
    }
  }

  lemma {:induction false} PickedField(emitted: seq<Emitted>, owner: Definition, name: string, n: nat)
    requires n <= |emitted| && Picked(emitted, owner, name, n).Some?
    ensures var f := Picked(emitted, owner, name, n).value;
            && f < n && emitted[f].Emitted? && emitted[f].owner == owner && emitted[f].ir.name == name
            && forall g | f < g < n :: !(emitted[g].Emitted? && emitted[g].owner == owner && emitted[g].ir.name == name)
  {
    if !(emitted[n - 1].Emitted? && emitted[n - 1].owner == owner && emitted[n - 1].ir.name == name) {
      PickedField(emitted, owner, name, n - 1);
    }
  }

  predicate MapAt(
    selectionMap: map<(Definition, string), nat>, emitted: seq<Emitted>, owner: Definition, name: string)
  {
    var picked := Picked(emitted, owner, name, |emitted|);
    if picked.Some? then (owner, name) in selectionMap && selectionMap[(owner, name)] == picked.value
    else (owner, name) !in selectionMap
  }

  /** The map leads to the last field of each definition and name, and to nothing else. */
  ghost predicate MapStands(selectionMap: map<(Definition, string), nat>, emitted: seq<Emitted>) {
    forall owner, name :: MapAt(selectionMap, emitted, owner, name)
  }

  lemma MapGrows(selectionMap: map<(Definition, string), nat>, emitted: seq<Emitted>, e: Emitted)
    requires MapStands(selectionMap, emitted)
    ensures MapStands(if e.Emitted? then selectionMap[(e.owner, e.ir.name) := |emitted|] else selectionMap, emitted + [e])
  {
    var more := if e.Emitted? then selectionMap[(e.owner, e.ir.name) := |emitted|] else selectionMap;
    forall owner, name
      ensures MapAt(more, emitted + [e], owner, name)
    {
      assert MapAt(selectionMap, emitted, owner, name);
      PickedPrefix(emitted, emitted + [e], owner, name, |emitted|);
    }
  }

  // ----- Resolving selections -----

  /** The tables that selections are resolved against; input values are known by their names. */
  datatype Lookup = Lookup(
    selectionMap: map<(Definition, string), nat>, fields: seq<FieldRecord>,
    definitions: map<string, Definition>, inputs: seq<string>)

  /** The first input value of a name in a window. */
  function FindInput(inputs: seq<string>, w: Window, name: string): Option<nat>
    decreases w.len
  {
    if w.len == 0 || w.start >= |inputs| then None
    else if inputs[w.start] == name then Some(w.start)
    else FindInput(inputs, Window(w.start + 1, w.len - 1), name)
  }

  /** Resolves arguments by name; an unknown argument is a panic. */
  function AttachArguments(inputs: seq<string>, w: Window, arguments: seq<Argument>): Option<seq<AttachedArgument>> {
    if arguments == [] then Some([])
    else
      var first, rest := FindInput(inputs, w, arguments[0].name), AttachArguments(inputs, w, arguments[1..]);
      if first.None? || rest.None? then None
      else Some([AttachedArgument(first.value, arguments[0].value)] + rest.value)
  }

  /** Resolves a selection; a field or type that cannot be found is a panic. */
  function Attach(t: Lookup, items: seq<Selection>, target: Definition): Option<seq<Attached>> {
    if items == [] then Some([])
    else
      var first := AttachOne(t, items[0], target);
      if first.None? then None
      else
        var rest := Attach(t, items[1..], target);
        if rest.None? then None else Some([first.value] + rest.value)
  }

  function AttachOne(t: Lookup, item: Selection, target: Definition): Option<Attached> {
    match item
    case FieldSelection(name, arguments, items) =>
      if (target, name) !in t.selectionMap || t.selectionMap[(target, name)] >= |t.fields| then None
      else
        var field := t.selectionMap[(target, name)];
        var resolved := AttachArguments(t.inputs, t.fields[field].arguments, arguments);
        if resolved.None? then None
        else
          var sub := Attach(t, items, t.fields[field].output);
          if sub.None? then None else Some(AttachedField(field, resolved.value, sub.value))
    case InlineFragment(on, items) =>
      if on !in t.definitions then None
      else
        var sub := Attach(t, items, t.definitions[on]);
        if sub.None? then None else Some(AttachedFragment(t.definitions[on], sub.value))
  }
}
