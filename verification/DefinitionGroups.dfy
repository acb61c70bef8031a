/**
 Grouping the definitions of all subgraphs by name.  They are kept in a map ordered by name
 and subgraph; one pass with a current key and a buffer hands out the groups.
 */
module DefinitionGroups {
  import opened Common

  datatype Entry = Entry(name: nat, subgraph: nat, definition: nat)

  predicate Before(a: Entry, b: Entry) {
    a.name < b.name || (a.name == b.name && a.subgraph < b.subgraph)
  }

  /** The order in which the map is iterated. */
  predicate Ordered(entries: seq<Entry>) {
    forall i, j | 0 <= i < j < |entries| :: Before(entries[i], entries[j])
  }

  datatype RootTypes = RootTypes(query: Option<nat>, mutation: Option<nat>, subscription: Option<nat>)

  predicate IsRootType(subgraphs: seq<RootTypes>, e: Entry)
    requires e.subgraph < |subgraphs|
  {
    var s := subgraphs[e.subgraph];
    s.query == Some(e.definition) || s.mutation == Some(e.definition) || s.subscription == Some(e.definition)
  }

  predicate InSubgraphs(entries: seq<Entry>, subgraphs: seq<RootTypes>) {
    forall i | 0 <= i < |entries| :: entries[i].subgraph < |subgraphs|
  }

  /** Root types are handled elsewhere. */
  function Kept(subgraphs: seq<RootTypes>, e: Entry): seq<nat>
    requires e.subgraph < |subgraphs|
  {
    if IsRootType(subgraphs, e) then [] else [e.definition]
  }

  // ----- The groups, name by name -----

  /** The names among the first `n` entries, each once. */
  function Names(entries: seq<Entry>, n: nat): seq<nat>
    requires n <= |entries|
  {
    if n == 0 then []
    else if n >= 2 && entries[n - 1].name == entries[n - 2].name then Names(entries, n - 1)
    else Names(entries, n - 1) + [entries[n - 1].name]
  }

  /** The definitions of one name among the first `n` entries that are not root types, in order. */
  function GroupOf(entries: seq<Entry>, subgraphs: seq<RootTypes>, name: nat, n: nat): seq<nat>
    requires n <= |entries| && InSubgraphs(entries, subgraphs)
  {
    if n == 0 then []
    else
      GroupOf(entries, subgraphs, name, n - 1) + if entries[n - 1].name == name then Kept(subgraphs,
        entries[n - 1]) else []
  }

  /** All definitions among the first `n` entries that are not root types, in order. */
  function NonRoot(entries: seq<Entry>, subgraphs: seq<RootTypes>, n: nat): seq<nat>
    requires n <= |entries| && InSubgraphs(entries, subgraphs)
  {
    if n == 0 then []
    else
      NonRoot(entries, subgraphs, n - 1) + Kept(subgraphs, entries[n - 1])
  }

  function Concat(calls: seq<seq<nat>>): seq<nat> {
    if calls == [] then [] else Concat(calls[..|calls| - 1]) + calls[|calls| - 1]
  }

  lemma ConcatSnoc(calls: seq<seq<nat>>, group: seq<nat>)
    ensures Concat(calls + [group]) == Concat(calls) + group
    ensures Concat(calls + [group]) + [] == Concat(calls) + group
  {
    assert (calls + [group])[..|calls|] == calls;
  }

  /** Names come up in ascending order, the last one being that of the last entry. */
  lemma {:induction false} NamesAscend(entries: seq<Entry>, n: nat)
    requires Ordered(entries) && n <= |entries|
    ensures forall k, l | 0 <= k < l < |Names(entries, n)| :: Names(entries, n)[k] < Names(entries, n)[l]
    ensures 0 < n ==> Names(entries, n) != [] && Names(entries, n)[|Names(entries, n)| - 1] == entries[n - 1].name
  {
    if n > 0 {
      NamesAscend(entries, n - 1);
      if n >= 2 {
        assert Before(entries[n - 2], entries[n - 1]);
      }
    }
  }

  /** A new name has no definitions yet. */
  lemma {:induction false} NoneBelow(entries: seq<Entry>, subgraphs: seq<RootTypes>, name: nat, n: nat)
    requires n <= |entries| && InSubgraphs(entries, subgraphs) && forall i | 0 <= i < n :: entries[i].name != name
    ensures GroupOf(entries, subgraphs, name, n) == []
  {
    if n > 0 {
      NoneBelow(entries, subgraphs, name, n - 1);
    }
  }

  lemma NewName(entries: seq<Entry>, subgraphs: seq<RootTypes>, i: nat)
    requires Ordered(entries) && InSubgraphs(entries, subgraphs) && i < |entries|
    requires i == 0 || entries[i - 1].name != entries[i].name
    ensures GroupOf(entries, subgraphs, entries[i].name, i) == []
  {
    forall j | 0 <= j < i
      ensures entries[j].name != entries[i].name
    {
      assert Before(entries[j], entries[i - 1]) || j == i - 1;
      assert Before(entries[i - 1], entries[i]);
    }
    NoneBelow(entries, subgraphs, entries[i].name, i);
  }

  /** What has been handed out, the current key and the buffer after the first `n` entries. */
  datatype Pass = Pass(calls: seq<seq<nat>>, key: Option<nat>, buffer: seq<nat>)

  function After(entries: seq<Entry>, subgraphs: seq<RootTypes>, n: nat): Pass
    requires n <= |entries| && InSubgraphs(entries, subgraphs)
  {
    if n == 0 then Pass([], None, [])
    else
      var p, e := After(entries, subgraphs, n - 1), entries[n - 1];
      var kept := Kept(subgraphs, e);
      if Some(e.name) != p.key then Pass(p.calls + [p.buffer], Some(e.name), kept)
      else Pass(p.calls, p.key, p.buffer + kept)
  }

  lemma StepKeepsAll(p: Pass, q: Pass, kept: seq<nat>)
    requires || (q.calls == p.calls + [p.buffer] && q.buffer == kept)
             || (q.calls == p.calls && q.buffer == p.buffer + kept)
    ensures Concat(q.calls) + q.buffer == (Concat(p.calls) + p.buffer) + kept
  {
    ConcatSnoc(p.calls, p.buffer);
    ConcatAssoc(Concat(p.calls), p.buffer, kept);
  }

  lemma NothingHanded()
    ensures Concat([]) == []
  {
  }

  /** Nothing is lost and nothing is handed out twice. */
  lemma {:induction false} PassKeepsAll(entries: seq<Entry>, subgraphs: seq<RootTypes>, n: nat)
    requires n <= |entries| && InSubgraphs(entries, subgraphs)
    ensures var p := After(entries, subgraphs, n); Concat(p.calls) + p.buffer == NonRoot(entries, subgraphs, n)
  {
    hide Kept, Concat;
    if n == 0 {
      NothingHanded();
    } else {
      PassKeepsAll(entries, subgraphs, n - 1);
      StepKeepsAll(After(entries, subgraphs, n - 1), After(entries, subgraphs, n), Kept(subgraphs, entries[n - 1]));
    }
  }

  lemma {:induction false} LastName(entries: seq<Entry>, n: nat)
    requires 0 < n <= |entries|
    ensures Names(entries, n) != [] && Names(entries, n)[|Names(entries, n)| - 1] == entries[n - 1].name
  {
    if n >= 2 {
      LastName(entries, n - 1);
    }
  }

  lemma NameBelow(entries: seq<Entry>, k: nat, n: nat)
    requires Ordered(entries) && n <= |entries| && k + 1 < |Names(entries, n)|
    ensures 0 < n && Names(entries, n)[k] != entries[n - 1].name
  {
    NamesAscend(entries, n);
  }

  lemma {:induction false} PassKey(entries: seq<Entry>, subgraphs: seq<RootTypes>, n: nat)
    requires n <= |entries| && InSubgraphs(entries, subgraphs)
    ensures var p := After(entries, subgraphs, n);
            && |p.calls| == |Names(entries, n)| && (0 < n ==> p.calls != [] && p.calls[0] == [])
            && p.key == (if n == 0 then None else Some(entries[n - 1].name))
  {
    if n > 0 {
      PassKey(entries, subgraphs, n - 1);
    }
  }

  /** The buffer holds what is known of the current name. */
  lemma {:induction false} PassBuffer(entries: seq<Entry>, subgraphs: seq<RootTypes>, n: nat)
    requires Ordered(entries) && 0 < n <= |entries| && InSubgraphs(entries, subgraphs)
    ensures After(entries, subgraphs, n).buffer == GroupOf(entries, subgraphs, entries[n - 1].name, n)
  {
    hide Kept, Names;
    PassKey(entries, subgraphs, n - 1);
    if n == 1 || entries[n - 1].name != entries[n - 2].name {
      NewName(entries, subgraphs, n - 1);
    } else {
      PassBuffer(entries, subgraphs, n - 1);
    }
  }

  lemma GroupStays(entries: seq<Entry>, subgraphs: seq<RootTypes>, name: nat, n: nat)
    requires n < |entries| && InSubgraphs(entries, subgraphs) && entries[n].name != name
    ensures GroupOf(entries, subgraphs, name, n + 1) == GroupOf(entries, subgraphs, name, n)
  {
  }

  /** One more entry hands out the buffer or nothing. */
  lemma CallsStep(entries: seq<Entry>, subgraphs: seq<RootTypes>, n: nat)
    requires n < |entries| && InSubgraphs(entries, subgraphs)
    ensures var p, q := After(entries, subgraphs, n), After(entries, subgraphs, n + 1);
            q.calls == p.calls || q.calls == p.calls + [p.buffer]
  {
  }

  lemma NamesStep(entries: seq<Entry>, n: nat)
    requires n < |entries|
    ensures Names(entries, n) <= Names(entries, n + 1)
  {
  }

  /** When a new name comes up, the group of the previous name is complete and handed out. */
  lemma HandsOut(entries: seq<Entry>, subgraphs: seq<RootTypes>, n: nat)
    requires Ordered(entries) && 0 < n < |entries| && InSubgraphs(entries, subgraphs)
    requires entries[n - 1].name != entries[n].name
    ensures var calls := After(entries, subgraphs, n + 1).calls;
            && |Names(entries, n)| + 1 == |calls|
            && calls[|Names(entries, n)|] == GroupOf(entries, subgraphs, entries[n - 1].name, n + 1)
  {
    PassKey(entries, subgraphs, n);
    PassBuffer(entries, subgraphs, n);
    GroupStays(entries, subgraphs, entries[n - 1].name, n);
  }

  /** The name of the newest complete group is the one before the current name. */
  lemma NewestGroup(entries: seq<Entry>, k: nat, n: nat)
    requires 0 < n <= |entries| && |Names(entries, n - 1)| == k + 1 < |Names(entries, n)|
    ensures 1 < n && entries[n - 2].name != entries[n - 1].name && Names(entries, n)[k] == entries[n - 2].name
  {
    LastName(entries, n - 1);
  }

  /** A group that was handed out holds all definitions of its name. */
  lemma {:induction false} PassGroup(entries: seq<Entry>, subgraphs: seq<RootTypes>, k: nat, n: nat)
    requires Ordered(entries) && n <= |entries| && InSubgraphs(entries, subgraphs)
    requires k + 1 < |Names(entries, n)|
    ensures k + 1 < |After(entries, subgraphs, n).calls|
    ensures After(entries, subgraphs, n).calls[k + 1] == GroupOf(entries, subgraphs, Names(entries, n)[k], n)
  {
    if k + 1 < |Names(entries, n - 1)| {
      PassGroup(entries, subgraphs, k, n - 1);
      StillHanded(entries, subgraphs, k, n - 1);
    } else {
      NewestGroup(entries, k, n);
      HandsOut(entries, subgraphs, n - 1);
    }
  }

  lemma StillHanded(entries: seq<Entry>, subgraphs: seq<RootTypes>, k: nat, n: nat)
    requires Ordered(entries) && n < |entries| && InSubgraphs(entries, subgraphs)
    requires k + 1 < |Names(entries, n)| && k + 1 < |After(entries, subgraphs, n).calls|
    ensures k + 1 < |After(entries, subgraphs, n + 1).calls|
    ensures After(entries, subgraphs, n + 1).calls[k + 1] == After(entries, subgraphs, n).calls[k + 1]
    ensures k + 1 < |Names(entries, n + 1)| && Names(entries, n + 1)[k] == Names(entries, n)[k]
    ensures GroupOf(entries, subgraphs, Names(entries, n)[k], n + 1) == GroupOf(entries, subgraphs, Names(entries,
            n)[k], n)
  {
    CallsStep(entries, subgraphs, n);
    NamesStep(entries, n);
    NameBelow(entries, k, n + 1);
    GroupStays(entries, subgraphs, Names(entries, n)[k], n);
  }

  /** The groups, once the last one has been handed out too. */
  function Handed(entries: seq<Entry>, subgraphs: seq<RootTypes>): seq<seq<nat>>
    requires InSubgraphs(entries, subgraphs)
  {
    var p := After(entries, subgraphs, |entries|);
    p.calls + [p.buffer]
  }

  lemma AllHandedOut(entries: seq<Entry>, subgraphs: seq<RootTypes>)
    requires Ordered(entries) && InSubgraphs(entries, subgraphs)
    ensures Concat(Handed(entries, subgraphs)) == NonRoot(entries, subgraphs, |entries|)
    ensures |Handed(entries, subgraphs)| == |Names(entries, |entries|)| + 1 && Handed(entries, subgraphs)[0] == []
    ensures forall k | 0 <= k < |Names(entries, |entries|)| ::
              Handed(entries, subgraphs)[k + 1] == GroupOf(entries, subgraphs, Names(entries, |entries|)[k], |entries|)
    ensures forall k, l | 0 <= k < l < |Names(entries, |entries|)| ::
              Names(entries, |entries|)[k] < Names(entries, |entries|)[l]
  {
    var n := |entries|;
    var p := After(entries, subgraphs, n);
    PassKeepsAll(entries, subgraphs, n);
    PassKey(entries, subgraphs, n);
    if n > 0 {
      PassBuffer(entries, subgraphs, n);
    }
    NamesAscend(entries, n);
    ConcatSnoc(p.calls, p.buffer);
    forall k | 0 <= k < |Names(entries, n)|
      ensures Handed(entries, subgraphs)[k + 1] == GroupOf(entries, subgraphs, Names(entries, n)[k], n)
    {
      if k + 1 < |Names(entries, n)| {
        PassGroup(entries, subgraphs, k, n);
      }
    }
  }

  /** The entry is a definition of a name that is no root type of its subgraph. */
  predicate BelongsTo(subgraphs: seq<RootTypes>, name: nat, e: Entry, definition: nat) {
    && e.name == name && definition == e.definition && e.subgraph < |subgraphs|
    && subgraphs[e.subgraph].query != Some(definition) && subgraphs[e.subgraph].mutation != Some(definition)
    && subgraphs[e.subgraph].subscription != Some(definition)
  }

  /** A group holds the definitions that belong to its name, in order and none left out. */
  lemma {:induction false} GroupIsWritten(entries: seq<Entry>, subgraphs: seq<RootTypes>, name: nat, n: nat)
    requires n <= |entries| && InSubgraphs(entries, subgraphs)
    ensures Sifted(entries[..n], (e, d: nat) => BelongsTo(subgraphs, name, e, d), GroupOf(entries, subgraphs, name, n))
  {
    hide Sifted;
    var makes := (e, d: nat) => BelongsTo(subgraphs, name, e, d);
    if n == 0 {
      SiftedNone(makes);
      assert entries[..0] == [];
    } else {
      var before, e := GroupOf(entries, subgraphs, name, n - 1), entries[n - 1];
      GroupIsWritten(entries, subgraphs, name, n - 1);
      assert entries[..n] == entries[..n - 1] + [e];
      if e.name == name && !IsRootType(subgraphs, e) {
        SiftedOne(entries[..n - 1], e, makes, before, e.definition);
      } else {
        SiftedSkip(entries[..n - 1], e, makes, before);
        assert before + [] == before;
      }
    }
  }

  /** The names are those of the entries. */
  lemma {:induction false} NamesAreWritten(entries: seq<Entry>, name: nat, n: nat)
    requires n <= |entries|
    ensures name in Names(entries, n) <==> exists i :: 0 <= i < n && entries[i].name == name
  {
    if n > 0 {
      NamesAreWritten(entries, name, n - 1);
      if n >= 2 {
        LastName(entries, n - 1);
      }
    }
  }

  /** Hands out the groups; the callback is first called with an empty buffer. */
  method IterDefinitionGroups(entries: seq<Entry>, subgraphs: seq<RootTypes>) returns (calls: seq<seq<nat>>)
    requires Ordered(entries) && InSubgraphs(entries, subgraphs)
    ensures Concat(calls) == NonRoot(entries, subgraphs, |entries|)
    ensures |calls| == |Names(entries, |entries|)| + 1 && calls[0] == []
    ensures forall k | 0 <= k < |Names(entries, |entries|)| ::
              calls[k + 1] == GroupOf(entries, subgraphs, Names(entries, |entries|)[k], |entries|)
    ensures forall k, l | 0 <= k < l < |Names(entries, |entries|)| ::
              Names(entries, |entries|)[k] < Names(entries, |entries|)[l]
  {
    calls := [];
    var key: Option<nat> := None;
    var buffer: seq<nat> := [];
    for i := 0 to |entries|
      invariant Pass(calls, key, buffer) == After(entries, subgraphs, i)
    {
      var e := entries[i];
      if Some(e.name) != key {
        calls := calls + [buffer];
        buffer := [];
        key := Some(e.name);
      }
      if !IsRootType(subgraphs, e) {
        buffer := buffer + [e.definition];
      }
    }
    calls := calls + [buffer];
    AllHandedOut(entries, subgraphs);
  }
}
