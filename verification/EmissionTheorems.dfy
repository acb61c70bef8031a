/**
 The whole emission: every field ends up with its own selections, resolved against the
 complete tables, and the identifiers handed out while groups were emitted stay valid.
 */
module EmissionTheorems {
  import opened Common
  import opened EmissionModel
  import opened Emission
  import opened EmissionGroups
  import opened EmissionSelections

  function Resolve(t: Lookup, d: Deferred): Option<seq<Attached>> {
    Attach(t, d.selection, d.target)
  }

  predicate AllResolve(t: Lookup, deferred: seq<Deferred>, n: nat)
    requires n <= |deferred|
  {
    n == 0 || (Resolve(t, deferred[n - 1]).Some? && AllResolve(t, deferred, n - 1))
  }

  lemma {:induction false} ResolveAt(t: Lookup, deferred: seq<Deferred>, i: nat, n: nat)
    requires i < n <= |deferred| && AllResolve(t, deferred, n)
    ensures Resolve(t, deferred[i]).Some?
  {
    if i < n - 1 {
      ResolveAt(t, deferred, i, n - 1);
    }
  }

  function AttachmentOf(t: Lookup, d: Deferred): Attachment {
    var resolved := Resolve(t, d);
    Attachment(d.subgraph, if resolved.Some? then resolved.value else [])
  }

  /** The attachments of one field among the first `n` deferred selections, in order. */
  function For(t: Lookup, deferred: seq<Deferred>, field: nat, n: nat): seq<Attachment>
    requires n <= |deferred|
  {
    if n == 0 then []
    else if deferred[n - 1].field == field then For(t, deferred, field, n - 1) + [AttachmentOf(t, deferred[n - 1])]
    else For(t, deferred, field, n - 1)
  }

  lemma {:induction false} ForPrefix(t: Lookup, a: seq<Deferred>, b: seq<Deferred>, field: nat, n: nat)
    requires n <= |a| && a <= b
    ensures For(t, a, field, n) == For(t, b, field, n)
  {
    if n > 0 {
      ForPrefix(t, a, b, field, n - 1);
    }
  }

  /** One more selection counts for its own field only. */
  lemma ForSnoc(t: Lookup, s: seq<Deferred>, d: Deferred, field: nat)
    ensures d.field != field ==> For(t, s + [d], field, |s| + 1) == For(t, s, field, |s|)
    ensures d.field == field ==> For(t, s + [d], field, |s| + 1) == For(t, s, field, |s|) + [AttachmentOf(t, d)]
  {
    ForPrefix(t, s, s + [d], field, |s|);
  }

  // ----- The two loops -----

  predicate AttachedAt(t: Lookup, fields: seq<FieldRecord>, deferred: seq<Deferred>, n: nat, f: nat)
    requires n <= |deferred|
  {
    f < |fields| && fields[f].provided == For(t, deferred, f, n)
  }

  predicate RequiredAt(t: Lookup, fields: seq<FieldRecord>, deferred: seq<Deferred>, n: nat, f: nat)
    requires n <= |deferred|
  {
    f < |fields| && fields[f].required == For(t, deferred, f, n)
  }

  predicate InTable(deferred: seq<Deferred>, n: nat) {
    forall i | 0 <= i < |deferred| :: deferred[i].field < n
  }

  predicate NoneProvided(fields: seq<FieldRecord>) {
    forall f | 0 <= f < |fields| :: fields[f].provided == []
  }

  predicate NoneRequired(fields: seq<FieldRecord>) {
    forall f | 0 <= f < |fields| :: fields[f].required == []
  }

  lemma BlankFields(fields: seq<FieldRecord>)
    requires forall f | 0 <= f < |fields| :: BlankAt(fields, f)
    ensures NoneProvided(fields) && NoneRequired(fields)
  {
    forall f | 0 <= f < |fields|
      ensures fields[f].provided == [] && fields[f].required == []
    {
      assert BlankAt(fields, f);
    }
  }

  method AttachProvisions(e: Emitter) returns (ok: bool)
    requires InTable(e.provisions, |e.fields|)
    requires NoneProvided(e.fields)
    modifies e`fields
    ensures var t := Lookup(e.selectionMap, old(e.fields), e.definitions, e.inputs);
            && (ok <==> AllResolve(t, e.provisions, |e.provisions|))
            && SameShape(e.fields, t.fields)
            && (forall f | 0 <= f < |e.fields| :: e.fields[f].required == t.fields[f].required)
            && (ok ==> forall f | 0 <= f < |e.fields| :: AttachedAt(t, e.fields, e.provisions, |e.provisions|, f))
  {
    ghost var t := Lookup(e.selectionMap, e.fields, e.definitions, e.inputs);
    for i := 0 to |e.provisions|
      invariant SameShape(e.fields, t.fields) && AllResolve(t, e.provisions, i)
      invariant forall f | 0 <= f < |e.fields| :: e.fields[f].required == t.fields[f].required
      invariant forall f | 0 <= f < |e.fields| :: AttachedAt(t, e.fields, e.provisions, i, f)
    {
      var d := e.provisions[i];
      AttachIsStable(t.(fields := e.fields), t.fields, d.selection, d.target);
      var resolved := Attach(Lookup(e.selectionMap, e.fields, e.definitions, e.inputs), d.selection, d.target);
      if resolved.None? {
        if AllResolve(t, e.provisions, |e.provisions|) {
          ResolveAt(t, e.provisions, i, |e.provisions|);
        }
        return false;
      }
      ghost var before := e.fields;
      var record := e.fields[d.field];
      e.fields := e.fields[d.field := record.(provided := record.provided + [Attachment(d.subgraph, resolved.value)])];
      forall f | 0 <= f < |e.fields|
        ensures SameAt(e.fields, t.fields, f)
      {
        assert SameAt(before, t.fields, f);
      }
      ghost var next := i + 1;
      forall f | 0 <= f < |e.fields|
        ensures AttachedAt(t, e.fields, e.provisions, next, f)
      {
        assert AttachedAt(t, before, e.provisions, i, f);
      }
    }
    return true;
  }

  method AttachRequirements(e: Emitter) returns (ok: bool)
    requires InTable(e.requirements, |e.fields|)
    requires NoneRequired(e.fields)
    modifies e`fields
    ensures var t := Lookup(e.selectionMap, old(e.fields), e.definitions, e.inputs);
            && (ok <==> AllResolve(t, e.requirements, |e.requirements|))
            && SameShape(e.fields, t.fields)
            && (forall f | 0 <= f < |e.fields| :: e.fields[f].provided == t.fields[f].provided)
            && (ok ==> forall f | 0 <= f < |e.fields| :: RequiredAt(t, e.fields, e.requirements, |e.requirements|, f))
  {
    ghost var t := Lookup(e.selectionMap, e.fields, e.definitions, e.inputs);
    for i := 0 to |e.requirements|
      invariant SameShape(e.fields, t.fields) && AllResolve(t, e.requirements, i)
      invariant forall f | 0 <= f < |e.fields| :: e.fields[f].provided == t.fields[f].provided
      invariant forall f | 0 <= f < |e.fields| :: RequiredAt(t, e.fields, e.requirements, i, f)
    {
      var d := e.requirements[i];
      AttachIsStable(t.(fields := e.fields), t.fields, d.selection, d.target);
      var resolved := Attach(Lookup(e.selectionMap, e.fields, e.definitions, e.inputs), d.selection, d.target);
      if resolved.None? {
        if AllResolve(t, e.requirements, |e.requirements|) {
          ResolveAt(t, e.requirements, i, |e.requirements|);
        }
        return false;
      }
      ghost var before := e.fields;
      var record := e.fields[d.field];
      e.fields := e.fields[d.field := record.(required := record.required + [Attachment(d.subgraph, resolved.value)])];
      forall f | 0 <= f < |e.fields|
        ensures SameAt(e.fields, t.fields, f)
      {
        assert SameAt(before, t.fields, f);
      }
      ghost var next := i + 1;
      forall f | 0 <= f < |e.fields|
        ensures RequiredAt(t, e.fields, e.requirements, next, f)
      {
        assert RequiredAt(t, before, e.requirements, i, f);
      }
    }
    return true;
  }

  // ----- Each field gets its own selections -----

  /** The attachments of the provided selections of a field, in the order they were written. */
  function OwnProvided(t: Lookup, provided: seq<Provision>, n: nat): seq<Attachment>
    requires n <= |provided|
  {
    if n == 0 then []
    else
      var p := provided[n - 1];
      OwnProvided(t, provided, n - 1) + [AttachmentOf(t, Deferred(0, p.subgraph, TargetOf(p, t.definitions),
                                                                  p.selection))]
  }

  /** Requirements are resolved on the definition that the field was emitted for. */
  function OwnRequired(t: Lookup, required: seq<Requirement>, owner: Definition, n: nat): seq<Attachment>
    requires n <= |required|
  {
    if n == 0 then []
    else
      var r := required[n - 1];
      OwnRequired(t, required, owner, n - 1) + [AttachmentOf(t, Deferred(0, r.subgraph, owner, r.selection))]
  }

  /** Setting the provided selections of a field aside gives that field its own and nothing to the others. */
  lemma {:induction false} ProvisionsFor(
    t: Lookup, before: seq<Deferred>, field: nat, provided: seq<Provision>, f: nat, n: nat)
    requires n <= |provided|
    ensures var all := WithProvisions(before, field, provided, t.definitions, n);
            && (f != field ==> For(t, all, f, |all|) == For(t, before, f, |before|))
            && (f == field && For(t, before, f, |before|) == [] ==> For(t, all, f, |all|) == OwnProvided(t, provided, n))
  {
    if n > 0 {
      ProvisionsFor(t, before, field, provided, f, n - 1);
      var p := provided[n - 1];
      ForSnoc(t, WithProvisions(before, field, provided, t.definitions, n - 1),
              Deferred(field, p.subgraph, TargetOf(p, t.definitions), p.selection), f);
    }
  }

  lemma {:induction false} RequirementsFor(
    t: Lookup, before: seq<Deferred>, field: nat, required: seq<Requirement>, owner: Definition, f: nat, n: nat)
    requires n <= |required|
    ensures var all := WithRequirements(before, field, required, owner, n);
            && (f != field ==> For(t, all, f, |all|) == For(t, before, f, |before|))
            && (f == field && For(t, before, f, |before|) == [] ==>
              For(t, all, f, |all|) == OwnRequired(t, required, owner, n))
  {
    if n > 0 {
      RequirementsFor(t, before, field, required, owner, f, n - 1);
      var r := required[n - 1];
      ForSnoc(t, WithRequirements(before, field, required, owner, n - 1), Deferred(field, r.subgraph, owner,
        r.selection), f);
    }
  }

  function ProvidedTo(t: Lookup, e: Emitted): seq<Attachment> {
    if e.Emitted? then OwnProvided(t, e.ir.provided, |e.ir.provided|) else []
  }

  function RequiredOf(t: Lookup, e: Emitted): seq<Attachment> {
    if e.Emitted? then OwnRequired(t, e.ir.required, e.owner, |e.ir.required|) else []
  }

  lemma {:induction false} AllProvisionsFor(t: Lookup, emitted: seq<Emitted>, f: nat, n: nat)
    requires n <= |emitted|
    ensures var all := AllProvisions(emitted, t.definitions, n);
            For(t, all, f, |all|) == if f < n then ProvidedTo(t, emitted[f]) else []
  {
    if n > 0 {
      AllProvisionsFor(t, emitted, f, n - 1);
      var e := emitted[n - 1];
      if e.Emitted? {
        ProvisionsFor(t, AllProvisions(emitted, t.definitions, n - 1), n - 1, e.ir.provided, f, |e.ir.provided|);
      }
    }
  }

  lemma {:induction false} AllRequirementsFor(t: Lookup, emitted: seq<Emitted>, f: nat, n: nat)
    requires n <= |emitted|
    ensures var all := AllRequirements(emitted, n);
            For(t, all, f, |all|) == if f < n then RequiredOf(t, emitted[f]) else []
  {
    if n > 0 {
      AllRequirementsFor(t, emitted, f, n - 1);
      var e := emitted[n - 1];
      if e.Emitted? {
        RequirementsFor(t, AllRequirements(emitted, n - 1), n - 1, e.ir.required, e.owner, f, |e.ir.required|);
      }
    }
  }

  // ----- The whole emission -----

  lemma {:induction false} ProvisionsInTable(emitted: seq<Emitted>, definitions: map<string, Definition>, n: nat)
    requires n <= |emitted|
    ensures InTable(AllProvisions(emitted, definitions, n), n)
  {
    if n > 0 {
      ProvisionsInTable(emitted, definitions, n - 1);
      var e := emitted[n - 1];
      if e.Emitted? {
        ProvisionsStayIn(AllProvisions(emitted, definitions, n - 1), n - 1, e.ir.provided, definitions, |e.ir.provided|);
      }
    }
  }

  lemma {:induction false} RequirementsInTable(emitted: seq<Emitted>, n: nat)
    requires n <= |emitted|
    ensures InTable(AllRequirements(emitted, n), n)
  {
    if n > 0 {
      RequirementsInTable(emitted, n - 1);
      var e := emitted[n - 1];
      if e.Emitted? {
        RequirementsStayIn(AllRequirements(emitted, n - 1), n - 1, e.ir.required, e.owner, |e.ir.required|);
      }
    }
  }

  lemma {:induction false} ProvisionsStayIn(
    before: seq<Deferred>, field: nat, provided: seq<Provision>, definitions: map<string, Definition>, n: nat)
    requires n <= |provided| && InTable(before, field)
    ensures InTable(WithProvisions(before, field, provided, definitions, n), field + 1)
  {
    if n > 0 {
      ProvisionsStayIn(before, field, provided, definitions, n - 1);
    }
  }

  lemma {:induction false} RequirementsStayIn(
    before: seq<Deferred>, field: nat, required: seq<Requirement>, target: Definition, n: nat)
    requires n <= |required| && InTable(before, field)
    ensures InTable(WithRequirements(before, field, required, target, n), field + 1)
  {
    if n > 0 {
      RequirementsStayIn(before, field, required, target, n - 1);
    }
  }

  /** The record of an entry: its name, type and arguments, and its own selections resolved. */
  predicate CompleteAt(t: Lookup, fields: seq<FieldRecord>, emitted: seq<Emitted>, f: nat) {
    && f < |fields| && f < |emitted| && RecordOf(fields[f], emitted[f])
    && fields[f].provided == ProvidedTo(t, emitted[f]) && fields[f].required == RequiredOf(t, emitted[f])
  }

  /** Tables of the same shape resolve the same selections, to the same results. */
  predicate Alike(t: Lookup, u: Lookup) {
    t.selectionMap == u.selectionMap && t.definitions == u.definitions && t.inputs == u.inputs
  }

  lemma {:induction false} ResolvesAlike(t: Lookup, u: Lookup, deferred: seq<Deferred>, n: nat)
    requires Alike(t, u) && SameShape(t.fields, u.fields) && n <= |deferred|
    ensures AllResolve(t, deferred, n) <==> AllResolve(u, deferred, n)
  {
    if n > 0 {
      ResolvesAlike(t, u, deferred, n - 1);
      var d := deferred[n - 1];
      AttachIsStable(t, u.fields, d.selection, d.target);
    }
  }

  lemma {:induction false} AttachesAlike(t: Lookup, u: Lookup, deferred: seq<Deferred>, field: nat, n: nat)
    requires Alike(t, u) && SameShape(t.fields, u.fields) && n <= |deferred|
    ensures For(t, deferred, field, n) == For(u, deferred, field, n)
  {
    if n > 0 {
      AttachesAlike(t, u, deferred, field, n - 1);
      var d := deferred[n - 1];
      AttachIsStable(t, u.fields, d.selection, d.target);
    }
  }

  lemma ShapesCompose(a: seq<FieldRecord>, b: seq<FieldRecord>, c: seq<FieldRecord>)
    requires SameShape(a, b) && SameShape(b, c)
    ensures SameShape(a, c)
  {
    forall i | 0 <= i < |a|
      ensures SameAt(a, c, i)
    {
      assert SameAt(a, b, i) && SameAt(b, c, i);
    }
  }

  lemma RecordsKeep(fields: seq<FieldRecord>, other: seq<FieldRecord>, emitted: seq<Emitted>)
    requires RecordsStand(fields, emitted) && SameShape(other, fields)
    ensures RecordsStand(other, emitted)
  {
    forall i | 0 <= i < |other|
      ensures RecordAt(other, emitted, i)
    {
      assert SameAt(other, fields, i) && RecordAt(fields, emitted, i);
    }
  }

  /** The attachments of a field are its own, resolved against the complete tables. */
  lemma OwnSelections(t: Lookup, u: Lookup, emitted: seq<Emitted>, f: nat)
    requires Alike(t, u) && SameShape(t.fields, u.fields) && f < |emitted|
    ensures var provisions := AllProvisions(emitted, t.definitions, |emitted|);
            For(u, provisions, f, |provisions|) == ProvidedTo(t, emitted[f])
    ensures var requirements := AllRequirements(emitted, |emitted|);
            For(u, requirements, f, |requirements|) == RequiredOf(t, emitted[f])
  {
    var provisions, requirements := AllProvisions(emitted, t.definitions, |emitted|), AllRequirements(emitted, |emitted|);
    AttachesAlike(t, u, provisions, f, |provisions|);
    AttachesAlike(t, u, requirements, f, |requirements|);
    AllProvisionsFor(t, emitted, f, |emitted|);
    AllRequirementsFor(t, emitted, f, |emitted|);
  }

  /** The three stages of the field table: blank, with provided selections, complete. */
  lemma Completed(t: Lookup, blank: seq<FieldRecord>, provided: seq<FieldRecord>, emitted: seq<Emitted>, f: nat)
    requires RecordsStand(blank, emitted) && SameShape(provided, blank) && SameShape(t.fields, provided) && f < |emitted|
    requires var provisions := AllProvisions(emitted, t.definitions, |emitted|);
             AttachedAt(t.(fields := blank), provided, provisions, |provisions|, f)
    requires var requirements := AllRequirements(emitted, |emitted|);
             RequiredAt(t.(fields := provided), t.fields, requirements, |requirements|, f)
    requires t.fields[f].provided == provided[f].provided
    ensures CompleteAt(t, t.fields, emitted, f)
  {
    ShapesCompose(t.fields, provided, blank);
    assert RecordAt(blank, emitted, f) && SameAt(t.fields, blank, f);
    OwnSelections(t, t.(fields := blank), emitted, f);
    OwnSelections(t, t.(fields := provided), emitted, f);
  }

  /** Attaches everything that was set aside. */
  method AttachAll(e: Emitter) returns (ok: bool)
    requires e.Standing()
    modifies e`fields
    ensures SameShape(e.fields, old(e.fields))
    ensures var t := Lookup(e.selectionMap, e.fields, e.definitions, e.inputs);
            && (ok <==> AllResolve(t, e.provisions, |e.provisions|) && AllResolve(t, e.requirements, |e.requirements|))
            && (ok ==> |e.fields| == |e.emitted| && forall f | 0 <= f < |e.fields| ::
              CompleteAt(t, e.fields, e.emitted, f))
  {
    ghost var blank := e.fields;
    ProvisionsInTable(e.emitted, e.definitions, |e.emitted|);
    RequirementsInTable(e.emitted, |e.emitted|);
    BlankFields(blank);
    ok := AttachProvisions(e);
    ghost var provided := e.fields;
    ghost var t := Lookup(e.selectionMap, e.fields, e.definitions, e.inputs);
    ResolvesAlike(t, t.(fields := blank), e.provisions, |e.provisions|);
    if !ok {
      return;
    }
    ok := AttachRequirements(e);
    t := t.(fields := e.fields);
    ShapesCompose(e.fields, provided, blank);
    ResolvesAlike(t, t.(fields := blank), e.provisions, |e.provisions|);
    ResolvesAlike(t, t.(fields := provided), e.requirements, |e.requirements|);
    if !ok {
      return;
    }
    forall f | 0 <= f < |e.fields|
      ensures CompleteAt(t, e.fields, e.emitted, f)
    {
      assert AttachedAt(t.(fields := blank), provided, e.provisions, |e.provisions|, f);
      Completed(t, blank, provided, e.emitted, f);
    }
  }

  /** Every deferred selection refers to what was emitted. */
  ghost predicate AllResolvable(t: Lookup, emitted: seq<Emitted>, deferred: seq<Deferred>) {
    forall i | 0 <= i < |deferred| :: Resolvable(t, emitted, deferred[i].selection, deferred[i].target)
  }

  lemma {:induction false} ResolvesExactly(t: Lookup, emitted: seq<Emitted>, deferred: seq<Deferred>, n: nat)
    requires RecordsStand(t.fields, emitted) && MapStands(t.selectionMap, emitted) && n <= |deferred|
    ensures AllResolve(t, deferred, n) <==>
            forall i | 0 <= i < n :: Resolvable(t, emitted, deferred[i].selection, deferred[i].target)
  {
    if n > 0 {
      ResolvesExactly(t, emitted, deferred, n - 1);
      var d := deferred[n - 1];
      AttachExactly(t, emitted, d.selection, d.target);
    }
  }

  // ----- Records and composed fields -----

  predicate ProvidesAt(t: Lookup, r: FieldRecord, ir: FieldIr, k: nat) {
    && k < |r.provided| && k < |ir.provided| && r.provided[k].subgraph == ir.provided[k].subgraph
    && ir.provided[k].output in t.definitions
    && Attach(t, ir.provided[k].selection, t.definitions[ir.provided[k].output]) == Some(r.provided[k].selection)
  }

  predicate RequiresAt(t: Lookup, r: FieldRecord, ir: FieldIr, owner: Definition, k: nat) {
    && k < |r.required| && k < |ir.required| && r.required[k].subgraph == ir.required[k].subgraph
    && Attach(t, ir.required[k].selection, owner) == Some(r.required[k].selection)
  }

  /** The record has the name, type and arguments of the composed field.  What the field provides is resolved on
      its type in the subgraph, and what it requires on the definition that it is emitted for. */
  ghost predicate Renders(t: Lookup, r: FieldRecord, ir: FieldIr, owner: Definition) {
    && r.name == ir.name && r.output == ir.output && r.arguments == ir.arguments
    && |r.provided| == |ir.provided| && (forall k | 0 <= k < |ir.provided| :: ProvidesAt(t, r, ir, k))
    && |r.required| == |ir.required| && (forall k | 0 <= k < |ir.required| :: RequiresAt(t, r, ir, owner, k))
  }

  /** The range of a definition holds the records of its fields by name, and two more on the root query type. */
  ghost predicate BlockRenders(t: Lookup, l: Layout, input: Input, d: Definition, root: nat)
    requires forall i | 0 <= i < |input.entityFields| :: input.entityFields[i].1 < |input.ir|
  {
    && IsOwner(l.objects, l.interfaces, d)
    && var range, sorted := RangeOf(l.objects, l.interfaces, d), SortByName(GroupOf(input, d));
    && range.end == range.start + |sorted| + (if d == Object(root) then 2 else 0) && range.end <= |t.fields|
    && (forall i | 0 <= i < |sorted| :: Renders(t, t.fields[range.start + i], sorted[i], d))
    && (d == Object(root) ==>
          && t.fields[range.end - 2] == FieldRecord("__schema", d, Window(0, 0), [], [])
          && t.fields[range.end - 1] == FieldRecord("__type", d, Window(0, 0), [], []))
  }

  lemma {:induction false} OwnProvidedAt(t: Lookup, provided: seq<Provision>, n: nat)
    requires n <= |provided|
    ensures |OwnProvided(t, provided, n)| == n
    ensures forall k | 0 <= k < n ::
              OwnProvided(t, provided, n)[k] ==
              AttachmentOf(t, Deferred(0, provided[k].subgraph, TargetOf(provided[k], t.definitions),
                                       provided[k].selection))
  {
    hide AttachmentOf, TargetOf;
    if n > 0 {
      OwnProvidedAt(t, provided, n - 1);
    }
  }

  lemma {:induction false} OwnRequiredAt(t: Lookup, required: seq<Requirement>, owner: Definition, n: nat)
    requires n <= |required|
    ensures |OwnRequired(t, required, owner, n)| == n
    ensures forall k | 0 <= k < n ::
              OwnRequired(t, required, owner, n)[k] ==
              AttachmentOf(t, Deferred(0, required[k].subgraph, owner, required[k].selection))
  {
    hide AttachmentOf, TargetOf;
    if n > 0 {
      OwnRequiredAt(t, required, owner, n - 1);
    }
  }

  // Every selection that was set aside was resolved, so those of each field were.

  lemma {:induction false} ProvisionResolves(
    t: Lookup, before: seq<Deferred>, field: nat, provided: seq<Provision>, k: nat, n: nat)
    requires k < n <= |provided|
    requires var all := WithProvisions(before, field, provided, t.definitions, n); AllResolve(t, all, |all|)
    ensures Attach(t, provided[k].selection, TargetOf(provided[k], t.definitions)).Some?
  {
    var all, rest := WithProvisions(before, field, provided, t.definitions, n),
      WithProvisions(before, field, provided, t.definitions, n - 1);
    ResolvesBefore(t, rest, all, |rest|);
    if k < n - 1 {
      ProvisionResolves(t, before, field, provided, k, n - 1);
    }
  }

  lemma {:induction false} RequirementResolves(
    t: Lookup, before: seq<Deferred>, field: nat, required: seq<Requirement>, owner: Definition, k: nat, n: nat)
    requires k < n <= |required|
    requires var all := WithRequirements(before, field, required, owner, n); AllResolve(t, all, |all|)
    ensures Attach(t, required[k].selection, owner).Some?
  {
    var all, rest := WithRequirements(before, field, required, owner, n),
      WithRequirements(before, field, required, owner, n - 1);
    ResolvesBefore(t, rest, all, |rest|);
    if k < n - 1 {
      RequirementResolves(t, before, field, required, owner, k, n - 1);
    }
  }

  lemma {:induction false} ResolvesBefore(t: Lookup, a: seq<Deferred>, b: seq<Deferred>, n: nat)
    requires n <= |a| && a <= b && AllResolve(t, b, |b|)
    ensures AllResolve(t, a, n)
  {
    if n > 0 {
      ResolvesBefore(t, a, b, n - 1);
      ResolveAt(t, b, n - 1, |b|);
    }
  }

  lemma {:induction false} ProvisionsPrefix(
    before: seq<Deferred>, field: nat, provided: seq<Provision>, definitions: map<string, Definition>, n: nat)
    requires n <= |provided|
    ensures before <= WithProvisions(before, field, provided, definitions, n)
  {
    if n > 0 {
      ProvisionsPrefix(before, field, provided, definitions, n - 1);
    }
  }

  lemma {:induction false} RequirementsPrefix(
    before: seq<Deferred>, field: nat, required: seq<Requirement>, owner: Definition, n: nat)
    requires n <= |required|
    ensures before <= WithRequirements(before, field, required, owner, n)
  {
    if n > 0 {
      RequirementsPrefix(before, field, required, owner, n - 1);
    }
  }

  lemma {:induction false} OwnProvisionsResolve(t: Lookup, emitted: seq<Emitted>, f: nat, k: nat, n: nat)
    requires f < n <= |emitted| && emitted[f].Emitted? && k < |emitted[f].ir.provided|
    requires var all := AllProvisions(emitted, t.definitions, n); AllResolve(t, all, |all|)
    ensures var p := emitted[f].ir.provided[k]; Attach(t, p.selection, TargetOf(p, t.definitions)).Some?
  {
    var before, e := AllProvisions(emitted, t.definitions, n - 1), emitted[n - 1];
    if f == n - 1 {
      ProvisionResolves(t, before, f, e.ir.provided, k, |e.ir.provided|);
    } else {
      if e.Emitted? {
        ProvisionsPrefix(before, n - 1, e.ir.provided, t.definitions, |e.ir.provided|);
        ResolvesBefore(t, before, AllProvisions(emitted, t.definitions, n), |before|);
      }
      OwnProvisionsResolve(t, emitted, f, k, n - 1);
    }
  }

  lemma {:induction false} OwnRequirementsResolve(t: Lookup, emitted: seq<Emitted>, f: nat, k: nat, n: nat)
    requires f < n <= |emitted| && emitted[f].Emitted? && k < |emitted[f].ir.required|
    requires var all := AllRequirements(emitted, n); AllResolve(t, all, |all|)
    ensures Attach(t, emitted[f].ir.required[k].selection, emitted[f].owner).Some?
  {
    var before, e := AllRequirements(emitted, n - 1), emitted[n - 1];
    if f == n - 1 {
      RequirementResolves(t, before, f, e.ir.required, e.owner, k, |e.ir.required|);
    } else {
      if e.Emitted? {
        RequirementsPrefix(before, n - 1, e.ir.required, e.owner, |e.ir.required|);
        ResolvesBefore(t, before, AllRequirements(emitted, n), |before|);
      }
      OwnRequirementsResolve(t, emitted, f, k, n - 1);
    }
  }

  /** Everything that was set aside was resolved. */
  ghost predicate Resolved(t: Lookup, emitted: seq<Emitted>) {
    var provisions, requirements := AllProvisions(emitted, t.definitions, |emitted|), AllRequirements(emitted, |emitted|);
    AllResolve(t, provisions, |provisions|) && AllResolve(t, requirements, |requirements|)
  }

  lemma FieldRenders(t: Lookup, emitted: seq<Emitted>, f: nat)
    requires CompleteAt(t, t.fields, emitted, f) && emitted[f].Emitted? && KnownIn(emitted[f].ir, t.definitions)
    requires Resolved(t, emitted)
    ensures Renders(t, t.fields[f], emitted[f].ir, emitted[f].owner)
  {
    var r, ir, owner := t.fields[f], emitted[f].ir, emitted[f].owner;
    OwnProvidedAt(t, ir.provided, |ir.provided|);
    OwnRequiredAt(t, ir.required, owner, |ir.required|);
    forall k | 0 <= k < |ir.provided|
      ensures ProvidesAt(t, r, ir, k)
    {
      OwnProvisionsResolve(t, emitted, f, k, |emitted|);
    }
    forall k | 0 <= k < |ir.required|
      ensures RequiresAt(t, r, ir, owner, k)
    {
      OwnRequirementsResolve(t, emitted, f, k, |emitted|);
    }
  }

  lemma {:induction false} OwnFrom(ir: seq<FieldIr>, d: Definition, n: nat)
    requires n <= |ir|
    ensures forall x | x in FieldsOf(ir, d, n) :: x in ir
  {
    if n > 0 {
      OwnFrom(ir, d, n - 1);
    }
  }

  /** A group is made of composed fields, so all output types in it are known. */
  lemma SortedKnown(input: Input, d: Definition, definitions: map<string, Definition>)
    requires forall i | 0 <= i < |input.entityFields| :: input.entityFields[i].1 < |input.ir|
    requires KnownUpTo(input.ir, definitions, |input.ir|)
    ensures var sorted := SortByName(GroupOf(input, d)); forall i | 0 <= i < |sorted| :: KnownIn(sorted[i], definitions)
  {
    var group, sorted := GroupOf(input, d), SortByName(GroupOf(input, d));
    SortByNameSorts(group);
    OwnFrom(input.ir, d, |input.ir|);
    if d.Object? && d.id < |input.objectNames| {
      InheritedFrom(input, input.objectNames[d.id], |input.entityFields|);
    }
    forall i | 0 <= i < |sorted|
      ensures KnownIn(sorted[i], definitions)
    {
      assert sorted[i] in multiset(sorted);
      assert sorted[i] in group;
      assert sorted[i] in input.ir;
    }
  }

  /** The entries in the range of a definition, one by one. */
  lemma BlockEntries(l: Layout, d: Definition, group: seq<FieldIr>, root: nat)
    requires Lists(l, d, Block(d, group, root))
    ensures var range, sorted := RangeOf(l.objects, l.interfaces, d), SortByName(group);
            && range.end == range.start + |sorted| + (if d == Object(root) then 2 else 0) && range.end <= |l.emitted|
            && (forall i | 0 <= i < |sorted| :: l.emitted[range.start + i] == Emitted(d, sorted[i]))
            && (d == Object(root) ==>
                  && l.emitted[range.end - 2] == Reserved(d, "__schema")
                  && l.emitted[range.end - 1] == Reserved(d, "__type"))
  {
    hide SortByName;
    var range, sorted, block := RangeOf(l.objects, l.interfaces, d), SortByName(group), Block(d, group, root);
    EmittedAsAt(d, sorted, |sorted|);
    var own, rest := EmittedAs(d, sorted, |sorted|), if d == Object(root) then ReservedFor(d) else [];
    assert block == own + rest && |block| == range.end - range.start;
    forall i | 0 <= i < |block|
      ensures l.emitted[range.start + i] == block[i]
    {
      assert l.emitted[range.start..range.end][i] == block[i];
    }
    if d == Object(root) {
      assert l.emitted[range.start + |sorted|] == rest[0] && l.emitted[range.start + (|sorted| + 1)] == rest[1];
    }
  }

  lemma BlockIsRendered(t: Lookup, l: Layout, input: Input, d: Definition, root: nat)
    requires forall i | 0 <= i < |input.entityFields| :: input.entityFields[i].1 < |input.ir|
    requires Lists(l, d, Block(d, GroupOf(input, d), root)) && KnownUpTo(input.ir, t.definitions, |input.ir|)
    requires |t.fields| == |l.emitted| && forall f | 0 <= f < |t.fields| :: CompleteAt(t, t.fields, l.emitted, f)
    requires Resolved(t, l.emitted)
    ensures BlockRenders(t, l, input, d, root)
  {
    hide Resolved, Renders, CompleteAt, KnownIn, Block, SortByName, GroupOf;
    var range, sorted := RangeOf(l.objects, l.interfaces, d), SortByName(GroupOf(input, d));
    BlockEntries(l, d, GroupOf(input, d), root);
    SortedKnown(input, d, t.definitions);
    forall i | 0 <= i < |sorted|
      ensures Renders(t, t.fields[range.start + i], sorted[i], d)
    {
      var f := range.start + i;
      assert l.emitted[f] == Emitted(d, sorted[i]) && CompleteAt(t, t.fields, l.emitted, f);
      FieldRenders(t, l.emitted, f);
    }
    if d == Object(root) {
      ReservedRecord(t, l.emitted, range.end - 2);
      ReservedRecord(t, l.emitted, range.end - 1);
    }
  }

  lemma ReservedRecord(t: Lookup, emitted: seq<Emitted>, f: nat)
    requires CompleteAt(t, t.fields, emitted, f) && emitted[f].Reserved?
    ensures t.fields[f] == FieldRecord(emitted[f].name, emitted[f].owner, Window(0, 0), [], [])
  {
  }

  /** Emits all groups, then attaches what was set aside. */
  method EmitFields(e: Emitter, input: Input) returns (ok: bool)
    requires e.Standing() && Valid(input, |e.objects|, |e.interfaces|)
    requires e.emitted == [] && forall d :: Unowning(LayoutOf(e), d)
    modifies e
    ensures ok ==> KnownUpTo(input.ir, e.definitions, |input.ir|)
    ensures KnownUpTo(input.ir, e.definitions, |input.ir|) ==>
              && Tiled(LayoutOf(e), input, e.root, |input.ir|)
              && MapStands(e.selectionMap, e.emitted) && RecordsStand(e.fields, e.emitted)
              && e.provisions == AllProvisions(e.emitted, e.definitions, |e.emitted|)
              && e.requirements == AllRequirements(e.emitted, |e.emitted|)
              && var t := Lookup(e.selectionMap, e.fields, e.definitions, e.inputs);
              (ok <==> AllResolvable(t, e.emitted, e.provisions) && AllResolvable(t, e.emitted, e.requirements))
    ensures ok ==>
              var t := Lookup(e.selectionMap, e.fields, e.definitions, e.inputs);
              |e.fields| == |e.emitted| && forall f | 0 <= f < |e.fields| :: CompleteAt(t, e.fields, e.emitted, f)
    ensures ok ==>
              var t := Lookup(e.selectionMap, e.fields, e.definitions, e.inputs);
              forall d | Seen(input.ir, d, |input.ir|) :: BlockRenders(t, LayoutOf(e), input, d, e.root)
  {
    hide BlockRenders, Resolved;
    ok := EmitGroups(e, input);
    if !ok {
      return;
    }
    ghost var blank := e.fields;
    ok := AttachAll(e);
    RecordsKeep(blank, e.fields, e.emitted);
    ghost var t := Lookup(e.selectionMap, e.fields, e.definitions, e.inputs);
    ResolvesExactly(t, e.emitted, e.provisions, |e.provisions|);
    ResolvesExactly(t, e.emitted, e.requirements, |e.requirements|);
    if ok {
      AllRendered(t, LayoutOf(e), input, e.root);
    }
  }

  lemma AllRendered(t: Lookup, l: Layout, input: Input, root: nat)
    requires forall i | 0 <= i < |input.entityFields| :: input.entityFields[i].1 < |input.ir|
    requires Tiled(l, input, root, |input.ir|) && KnownUpTo(input.ir, t.definitions, |input.ir|)
    requires |t.fields| == |l.emitted| && forall f | 0 <= f < |t.fields| :: CompleteAt(t, t.fields, l.emitted, f)
    requires var provisions := AllProvisions(l.emitted, t.definitions, |l.emitted|);
             AllResolve(t, provisions, |provisions|)
    requires var requirements := AllRequirements(l.emitted, |l.emitted|); AllResolve(t, requirements, |requirements|)
    ensures forall d | Seen(input.ir, d, |input.ir|) :: BlockRenders(t, l, input, d, root)
  {
    forall d | Seen(input.ir, d, |input.ir|)
      ensures BlockRenders(t, l, input, d, root)
    {
      assert TileAt(l, input, root, |input.ir|, d);
      BlockIsRendered(t, l, input, d, root);
    }
  }

  /** A block holds the fields of its group by name, and on the root query type two more. */
  lemma BlockIsSorted(d: Definition, group: seq<FieldIr>, root: nat)
    ensures var block, sorted := Block(d, group, root), SortByName(group);
            && ByName(sorted) && multiset(sorted) == multiset(group) && |sorted| == |group| <= |block|
            && (forall i | 0 <= i < |group| :: block[i] == Emitted(d, sorted[i]))
            && block[|group|..] == if d == Object(root) then ReservedFor(d) else []
  {
    SortByNameSorts(group);
    EmittedAsAt(d, SortByName(group), |SortByName(group)|);
  }
}
