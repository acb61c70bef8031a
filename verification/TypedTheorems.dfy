/**
 What the analyzed tables guarantee.  The queries agree with the document, and the positions
 handed out as field ids stay valid exactly when the sort of the field table changes nothing.
 */
module TypedTheorems {
  import opened Common
  import opened TypedTypes
  import opened KeyedTables
  import opened TypedAnalysis
  import opened TypedSchema
  import Interfaces = InterfaceGroups

  // ----- Arguments are aligned with the positions of their fields -----

  lemma {:induction false} ArgumentsSorted(entries: seq<Entry>, n: nat)
    requires n <= |entries|
    ensures SortedKeys(ArgumentsOf(entries, n))
    ensures KeysBelow(ArgumentsOf(entries, n), n)
  {
    hide Tagged, Filtered;
    if n > 0 {
      ArgumentsSorted(entries, n - 1);
      var own := entries[n - 1].arguments;
      TaggedFor(n - 1, own, |own|, 0);
      AppendLarger(ArgumentsOf(entries, n - 1), Tagged(n - 1, own, |own|), n - 1);
    }
  }

  /** The arguments found for a position after one more field. */
  lemma ArgumentsStep(entries: seq<Entry>, n: nat, f: nat)
    requires n < |entries|
    ensures Filtered(ArgumentsOf(entries, n + 1), f) ==
            Filtered(ArgumentsOf(entries, n), f) + if f == n then entries[n].arguments else []
  {
    hide Tagged, Filtered;
    var own := entries[n].arguments;
    TaggedFor(n, own, |own|, f);
    FilteredConcat(ArgumentsOf(entries, n), Tagged(n, own, |own|), f);
    assert own[..|own|] == own;
  }

  lemma {:induction false} ArgumentsFor(entries: seq<Entry>, n: nat, f: nat)
    requires n <= |entries|
    ensures Filtered(ArgumentsOf(entries, n), f) == if f < n then entries[f].arguments else []
  {
    if n > 0 {
      ArgumentsFor(entries, n - 1, f);
      ArgumentsStep(entries, n - 1, f);
    }
  }

  lemma {:induction false} FieldAt(entries: seq<Entry>, n: nat)
    requires n <= |entries|
    ensures |FieldsOf(entries, n)| == n
    ensures forall i | 0 <= i < n :: FieldsOf(entries, n)[i] == (entries[i].owner, entries[i].field)
  {
    if n > 0 {
      FieldAt(entries, n - 1);
    }
  }

  function NamesOf(document: seq<DefinitionNode>): map<string, Definition> {
    FirstPass(document).names
  }

  function EntriesIn(document: seq<DefinitionNode>): seq<Entry> {
    Entries(document, NamesOf(document), |document|)
  }

  function FieldsFound(document: seq<DefinitionNode>): seq<(nat, Field)> {
    FieldsOf(EntriesIn(document), |EntriesIn(document)|)
  }

  function ArgumentsFound(document: seq<DefinitionNode>): seq<(nat, FieldArgument)> {
    ArgumentsOf(EntriesIn(document), |EntriesIn(document)|)
  }

  /** The arguments recorded for a position are those of the field that was found there, and sorting
      them changes nothing. */
  lemma ArgumentsOfPosition(document: seq<DefinitionNode>, f: nat)
    requires f < |EntriesIn(document)|
    ensures SortByKey(ArgumentsFound(document)) == ArgumentsFound(document)
    ensures Filtered(SortByKey(ArgumentsFound(document)), f) == EntriesIn(document)[f].arguments
  {
    var entries := EntriesIn(document);
    ArgumentsSorted(entries, |entries|);
    SortedIsUntouched(ArgumentsFound(document));
    ArgumentsFor(entries, |entries|, f);
  }

  // ----- Recorded and declared arguments -----

  /** The field at position `k` of an interface is entered under an object and declares an argument that
      resolves; such arguments are not recorded. */
  predicate Drops(d: DefinitionNode, names: map<string, Definition>, k: nat) {
    && Target(d, names).Some? && d.kind.InterfaceKind? && k < |d.kind.fields|
    && AnalyzeField(d.kind.fields[k], names).Some?
    && Arguments(d.kind.fields[k].arguments, names, |d.kind.fields[k].arguments|) != []
  }

  predicate DropsArguments(document: seq<DefinitionNode>, i: nat, k: nat) {
    i < |document| && Drops(document[i], NamesOf(document), k)
  }

  /** What was recorded is what the document declares. */
  predicate RecordsAll(e: Entry, names: map<string, Definition>) {
    e.arguments == Declared(e.origin, names)
  }

  predicate AllRecorded(entries: seq<Entry>, names: map<string, Definition>) {
    forall f | 0 <= f < |entries| :: RecordsAll(entries[f], names)
  }

  lemma {:induction false} ObjectsRecordAll(id: nat, nodes: seq<FieldNode>, names: map<string, Definition>, n: nat)
    requires n <= |nodes|
    ensures AllRecorded(ObjectEntries(id, nodes, names, n), names)
  {
    if n > 0 {
      ObjectsRecordAll(id, nodes, names, n - 1);
    }
  }

  lemma {:induction false} InputsRecordAll(id: nat, nodes: seq<ArgumentNode>, names: map<string, Definition>, n: nat)
    requires n <= |nodes|
    ensures AllRecorded(InputEntries(id, nodes, names, n), names)
  {
    if n > 0 {
      InputsRecordAll(id, nodes, names, n - 1);
    }
  }

  predicate NoneDropped(d: DefinitionNode, names: map<string, Definition>, n: nat) {
    forall k: nat | k < n :: !Drops(d, names, k)
  }

  lemma {:induction false} InterfacesRecordUnlessDropped(
    d: DefinitionNode, names: map<string, Definition>, n: nat)
    requires Target(d, names).Some? && d.kind.InterfaceKind? && n <= |d.kind.fields|
    ensures AllRecorded(InterfaceEntries(Target(d, names).value, d.kind.fields, names, n), names) <==>
            NoneDropped(d, names, n)
  {
    if n > 0 {
      InterfacesRecordUnlessDropped(d, names, n - 1);
      var id, nodes := Target(d, names).value, d.kind.fields;
      var before, all := InterfaceEntries(id, nodes, names, n - 1), InterfaceEntries(id, nodes, names, n);
      assert NoneDropped(d, names, n) <==> NoneDropped(d, names, n - 1) && !Drops(d, names, n - 1);
      var field := AnalyzeField(nodes[n - 1], names);
      if field.Some? {
        var e := Entry(id, WrittenField(nodes[n - 1]), field.value, []);
        RecordedAppend(before, [e], names);
        assert [e][0] == e && (AllRecorded([e], names) <==> RecordsAll(e, names));
      }
    }
  }

  lemma RecordedAppend(a: seq<Entry>, b: seq<Entry>, names: map<string, Definition>)
    ensures AllRecorded(a + b, names) <==> AllRecorded(a, names) && AllRecorded(b, names)
  {
    if AllRecorded(a + b, names) {
      assert forall f | 0 <= f < |a| :: a[f] == (a + b)[f];
      assert forall f | 0 <= f < |b| :: b[f] == (a + b)[|a| + f];
    }
  }

  /** A definition records everything its fields declare unless it is an interface that drops something. */
  lemma DefinitionRecords(d: DefinitionNode, names: map<string, Definition>)
    ensures AllRecorded(EntriesOf(d, names), names) <==> forall k: nat :: !Drops(d, names, k)
  {
    var target := Target(d, names);
    if target.Some? {
      match d.kind
      case ObjectKind(_, nodes) => ObjectsRecordAll(target.value, nodes, names, |nodes|);
      case InputObjectKind(nodes) => InputsRecordAll(target.value, nodes, names, |nodes|);
      case InterfaceKind(nodes) =>
        InterfacesRecordUnlessDropped(d, names, |nodes|);
        assert NoneDropped(d, names, |nodes|) <==> forall k: nat :: !Drops(d, names, k);
    }
  }

  lemma {:induction false} EntriesRecord(document: seq<DefinitionNode>, names: map<string, Definition>, n: nat)
    requires n <= |document|
    ensures AllRecorded(Entries(document, names, n), names) <==>
            forall i: nat, k: nat | i < n :: !Drops(document[i], names, k)
  {
    if n > 0 {
      EntriesRecord(document, names, n - 1);
      DefinitionRecords(document[n - 1], names);
      RecordedAppend(Entries(document, names, n - 1), EntriesOf(document[n - 1], names), names);
    }
  }

  /** The field of an entry is the analysis of what was written. */
  predicate Written(e: Entry, names: map<string, Definition>) {
    match e.origin
    case WrittenField(node) => AnalyzeField(node, names) == Some(e.field)
    case WrittenInput(node) => AnalyzeInputField(node, names) == Some(e.field)
  }

  predicate AllWritten(entries: seq<Entry>, names: map<string, Definition>) {
    forall f | 0 <= f < |entries| :: Written(entries[f], names)
  }

  lemma {:induction false} ObjectsWritten(id: nat, nodes: seq<FieldNode>, names: map<string, Definition>, n: nat)
    requires n <= |nodes|
    ensures AllWritten(ObjectEntries(id, nodes, names, n), names) && AllWritten(InterfaceEntries(id, nodes, names,
            n), names)
  {
    if n > 0 {
      ObjectsWritten(id, nodes, names, n - 1);
    }
  }

  lemma {:induction false} InputsWritten(id: nat, nodes: seq<ArgumentNode>, names: map<string, Definition>, n: nat)
    requires n <= |nodes|
    ensures AllWritten(InputEntries(id, nodes, names, n), names)
  {
    if n > 0 {
      InputsWritten(id, nodes, names, n - 1);
    }
  }

  lemma DefinitionWritten(d: DefinitionNode, names: map<string, Definition>)
    ensures AllWritten(EntriesOf(d, names), names)
  {
    var target := Target(d, names);
    if target.Some? {
      match d.kind
      case ObjectKind(_, nodes) => ObjectsWritten(target.value, nodes, names, |nodes|);
      case InterfaceKind(nodes) => ObjectsWritten(target.value, nodes, names, |nodes|);
      case InputObjectKind(nodes) => InputsWritten(target.value, nodes, names, |nodes|);
    }
  }

  /** Every entry is the analysis of the field or input field it was found as. */
  lemma {:induction false} EntriesAreWritten(document: seq<DefinitionNode>, names: map<string, Definition>, n: nat)
    requires n <= |document|
    ensures AllWritten(Entries(document, names, n), names)
  {
    if n > 0 {
      EntriesAreWritten(document, names, n - 1);
      DefinitionWritten(document[n - 1], names);
    }
  }

  /** The query at a position gives the arguments declared by the field that is found there. */
  predicate AnswersAt(document: seq<DefinitionNode>, f: nat)
    requires f < |EntriesIn(document)|
  {
    && f < |SortByKey(FieldsFound(document))|
    && SortByKey(FieldsFound(document))[f] == (EntriesIn(document)[f].owner, EntriesIn(document)[f].field)
    && Filtered(SortByKey(ArgumentsFound(document)), f) == Declared(EntriesIn(document)[f].origin, NamesOf(document))
  }

  /** Where sorting changes nothing, every field is found at its position with exactly the resolvable
      arguments it declares, in order, if and only if no interface field entered under an object declares
      an argument that resolves. */
  lemma {:induction false} ArgumentsStayAligned(document: seq<DefinitionNode>)
    requires SortByKey(FieldsFound(document)) == FieldsFound(document)
    ensures AllWritten(EntriesIn(document), NamesOf(document))
    ensures (forall f: nat | f < |EntriesIn(document)| :: AnswersAt(document, f)) <==>
            forall i: nat, k: nat :: !DropsArguments(document, i, k)
  {
    var entries, names := EntriesIn(document), NamesOf(document);
    EntriesAreWritten(document, names, |document|);
    FieldAt(entries, |entries|);
    forall f: nat | f < |entries|
      ensures AnswersAt(document, f) <==> RecordsAll(entries[f], names)
    {
      ArgumentsOfPosition(document, f);
    }
    EntriesRecord(document, names, |document|);
    if forall i: nat, k: nat :: !DropsArguments(document, i, k) {
      forall i: nat, k: nat | i < |document|
        ensures !Drops(document[i], names, k)
      {
        assert !DropsArguments(document, i, k);
      }
      assert AllRecorded(entries, names);
    }
    if forall f: nat | f < |entries| :: AnswersAt(document, f) {
      forall f | 0 <= f < |entries|
        ensures RecordsAll(entries[f], names)
      {
        assert AnswersAt(document, f);
      }
      assert AllRecorded(entries, names);
    }
  }

  // ----- When sorting changes nothing -----

  lemma {:induction false} OwnersOf(d: DefinitionNode, names: map<string, Definition>)
    ensures forall i | 0 <= i < |EntriesOf(d, names)| :: Target(d, names) == Some(EntriesOf(d, names)[i].owner)
  {
    var target := Target(d, names);
    if target.Some? {
      match d.kind
      case ObjectKind(_, nodes) => ObjectOwners(target.value, nodes, names, |nodes|);
      case InterfaceKind(nodes) => InterfaceOwners(target.value, nodes, names, |nodes|);
      case InputObjectKind(nodes) => InputOwners(target.value, nodes, names, |nodes|);
    }
  }

  lemma {:induction false} ObjectOwners(id: nat, nodes: seq<FieldNode>, names: map<string, Definition>, n: nat)
    requires n <= |nodes|
    ensures forall i | 0 <= i < |ObjectEntries(id, nodes, names, n)| :: ObjectEntries(id, nodes, names, n)[i].owner == id
  {
    if n > 0 {
      ObjectOwners(id, nodes, names, n - 1);
    }
  }

  lemma {:induction false} InterfaceOwners(id: nat, nodes: seq<FieldNode>, names: map<string, Definition>, n: nat)
    requires n <= |nodes|
    ensures forall i | 0 <= i < |InterfaceEntries(id, nodes, names, n)| ::
            InterfaceEntries(id, nodes, names, n)[i].owner == id
  {
    if n > 0 {
      InterfaceOwners(id, nodes, names, n - 1);
    }
  }

  lemma {:induction false} InputOwners(id: nat, nodes: seq<ArgumentNode>, names: map<string, Definition>, n: nat)
    requires n <= |nodes|
    ensures forall i | 0 <= i < |InputEntries(id, nodes, names, n)| :: InputEntries(id, nodes, names, n)[i].owner == id
  {
    if n > 0 {
      InputOwners(id, nodes, names, n - 1);
    }
  }

  /** The definition has fields that are entered under an object. */
  predicate Contributes(d: DefinitionNode, names: map<string, Definition>) {
    Target(d, names).Some? && EntriesOf(d, names) != []
  }

  /** Two definitions whose fields are found in the wrong order. */
  predicate Misplaced(document: seq<DefinitionNode>, names: map<string, Definition>, i: nat, j: nat) {
    && i < j < |document| && Contributes(document[i], names) && Contributes(document[j], names)
    && Target(document[i], names).value > Target(document[j], names).value
  }

  function FieldList(entries: seq<Entry>, n: nat): seq<Field>
    requires n <= |entries|
  {
    if n == 0 then [] else FieldList(entries, n - 1) + [entries[n - 1].field]
  }

  lemma {:induction false} FieldListLength(entries: seq<Entry>, n: nat)
    requires n <= |entries|
    ensures |FieldList(entries, n)| == n
  {
    if n > 0 {
      FieldListLength(entries, n - 1);
    }
  }

  /** The fields of a definition, entered under its object. */
  function FieldSegment(d: DefinitionNode, names: map<string, Definition>): Segment<Field> {
    var target, own := Target(d, names), EntriesOf(d, names);
    Segment(if target.Some? then target.value else 0, FieldList(own, |own|))
  }

  function FieldSegments(document: seq<DefinitionNode>, names: map<string, Definition>, n: nat): seq<Segment<Field>>
    requires n <= |document|
  {
    if n == 0 then [] else FieldSegments(document, names, n - 1) + [FieldSegment(document[n - 1], names)]
  }

  lemma {:induction false} FieldSegmentsAt(document: seq<DefinitionNode>, names: map<string, Definition>, n: nat)
    requires n <= |document|
    ensures |FieldSegments(document, names, n)| == n
    ensures forall i | 0 <= i < n :: FieldSegments(document, names, n)[i] == FieldSegment(document[i], names)
  {
    if n > 0 {
      FieldSegmentsAt(document, names, n - 1);
    }
  }

  lemma {:induction false} OwnFieldsTagged(entries: seq<Entry>, id: nat, n: nat)
    requires n <= |entries| && forall i | 0 <= i < |entries| :: entries[i].owner == id
    ensures |FieldList(entries, n)| == n && FieldsOf(entries, n) == Tagged(id, FieldList(entries, n), n)
  {
    if n > 0 {
      OwnFieldsTagged(entries, id, n - 1);
      TaggedPrefix(id, FieldList(entries, n - 1), FieldList(entries, n), n - 1);
    }
  }

  lemma DefinitionFieldsTagged(d: DefinitionNode, names: map<string, Definition>)
    ensures var own := EntriesOf(d, names); FieldsOf(own, |own|) == TaggedSegment(FieldSegment(d, names))
  {
    var own := EntriesOf(d, names);
    OwnersOf(d, names);
    OwnFieldsTagged(own, FieldSegment(d, names).key, |own|);
  }

  lemma {:induction false} FieldsConcat(a: seq<Entry>, b: seq<Entry>, n: nat)
    requires n <= |b|
    ensures FieldsOf(a + b, |a| + n) == FieldsOf(a, |a|) + FieldsOf(b, n)
  {
    if n == 0 {
      TablesPrefix(a, a + b, |a|);
    } else {
      FieldsConcat(a, b, n - 1);
    }
  }

  lemma {:induction false} JoinedPrefix<T>(a: seq<Segment<T>>, b: seq<Segment<T>>, n: nat)
    requires n <= |a| && a <= b
    ensures Joined(a, n) == Joined(b, n)
  {
    if n > 0 {
      JoinedPrefix(a, b, n - 1);
    }
  }

  /** One definition's fields come after those of the ones before it. */
  lemma EntriesStep(document: seq<DefinitionNode>, names: map<string, Definition>, n: nat)
    requires 0 < n <= |document|
    ensures var all, before := Entries(document, names, n), Entries(document, names, n - 1);
            FieldsOf(all, |all|) == FieldsOf(before, |before|) + TaggedSegment(FieldSegment(document[n - 1], names))
  {
    var own := EntriesOf(document[n - 1], names);
    FieldsConcat(Entries(document, names, n - 1), own, |own|);
    DefinitionFieldsTagged(document[n - 1], names);
  }

  lemma JoinedSnoc<T>(segments: seq<Segment<T>>, s: Segment<T>)
    ensures Joined(segments + [s], |segments| + 1) == Joined(segments, |segments|) + TaggedSegment(s)
  {
    JoinedPrefix(segments, segments + [s], |segments|);
  }

  /** The field table in the order it is found is joined from the segments of the definitions. */
  lemma {:induction false} FieldsAreJoined(document: seq<DefinitionNode>, names: map<string, Definition>, n: nat)
    requires n <= |document|
    ensures |FieldSegments(document, names, n)| == n
    ensures var all := Entries(document, names, n); FieldsOf(all, |all|) == Joined(FieldSegments(document, names, n), n)
  {
    if n > 0 {
      FieldsAreJoined(document, names, n - 1);
      EntriesStep(document, names, n);
      JoinedSnoc(FieldSegments(document, names, n - 1), FieldSegment(document[n - 1], names));
    }
  }

  /** Misplaced definitions are segments that descend. */
  lemma MisplacedDescends(document: seq<DefinitionNode>, names: map<string, Definition>, i: nat, j: nat)
    ensures Descends(FieldSegments(document, names, |document|), i, j) <==> Misplaced(document, names, i, j)
  {
    FieldSegmentsAt(document, names, |document|);
    if i < j < |document| {
      FieldListLength(EntriesOf(document[i], names), |EntriesOf(document[i], names)|);
      FieldListLength(EntriesOf(document[j], names), |EntriesOf(document[j], names)|);
    }
  }

  /** Sorting changes nothing exactly when no two definitions are misplaced. */
  lemma {:induction false} SortIsIdentity(document: seq<DefinitionNode>)
    ensures SortByKey(FieldsFound(document)) == FieldsFound(document) <==>
            forall i: nat, j: nat :: !Misplaced(document, NamesOf(document), i, j)
  {
    var names := NamesOf(document);
    var segments := FieldSegments(document, names, |document|);
    SortedIsUntouched(FieldsFound(document));
    FieldsAreJoined(document, names, |document|);
    JoinedSorted(segments);
    forall i: nat, j: nat
      ensures Descends(segments, i, j) <==> Misplaced(document, names, i, j)
    {
      MisplacedDescends(document, names, i, j);
    }
  }
}
