/**
 Type references.  The syntax tree nests lists and non-null markers; a federated graph keeps
 the name of the innermost type and a packed wrapping instead.  Nothing is lost.
 */
module TypeRefs {
  import opened Common
  import opened Wrapping

  datatype TypeRef = Named(name: string) | ListOf(inner: TypeRef) | NonNullOf(inner: TypeRef)

  datatype WrappingType = NonNull | List

  /** Section 2.11 of the GraphQL specification: a non-null type wraps a name or a list. */
  predicate WellFormed(t: TypeRef) {
    match t
    case Named(_) => true
    case ListOf(inner) => WellFormed(inner)
    case NonNullOf(inner) => !inner.NonNullOf? && WellFormed(inner)
  }

  function Name(t: TypeRef): string {
    match t
    case Named(name) => name
    case ListOf(inner) => Name(inner)
    case NonNullOf(inner) => Name(inner)
  }

  /** The wrappers from outermost to innermost. */
  function Wrappers(t: TypeRef): seq<WrappingType> {
    match t
    case Named(_) => []
    case ListOf(inner) => [List] + Wrappers(inner)
    case NonNullOf(inner) => [NonNull] + Wrappers(inner)
  }

  function Lists(t: TypeRef): nat {
    match t
    case Named(_) => 0
    case ListOf(inner) => 1 + Lists(inner)
    case NonNullOf(inner) => Lists(inner)
  }

  function Reverse<T>(s: seq<T>): seq<T> {
    if s == [] then [] else Reverse(s[1..]) + [s[0]]
  }

  // ----- Reading a wrapping back -----

  /** A type inside list wrappers given from innermost to outermost. */
  function InLists(t: TypeRef, lists: seq<ListWrapping>): TypeRef {
    if lists == [] then t
    else
      var inner := InLists(t, lists[..|lists| - 1]);
      if lists[|lists| - 1].RequiredList? then NonNullOf(ListOf(inner)) else ListOf(inner)
  }

  function Decode(name: string, w: bv32): TypeRef
    requires Valid(w)
  {
    InLists(if InnerIsRequired(w) then NonNullOf(Named(name)) else Named(name), ListWrappings(w))
  }

  // ----- The loop over the reversed wrappers -----

  /** A type inside wrappers given from innermost to outermost. */
  function InWrappers(t: TypeRef, ws: seq<WrappingType>): TypeRef {
    if ws == [] then t
    else
      var inner := InWrappers(t, ws[..|ws| - 1]);
      if ws[|ws| - 1].List? then ListOf(inner) else NonNullOf(inner)
  }

  lemma {:induction false} InReversedWrappers(t: TypeRef)
    ensures InWrappers(Named(Name(t)), Reverse(Wrappers(t))) == t
  {
    if !t.Named? {
      InReversedWrappers(t.inner);
      var ws := Wrappers(t);
      assert ws[1..] == Wrappers(t.inner);
      var rs := Reverse(ws);
      assert rs[..|rs| - 1] == Reverse(ws[1..]);
    }
  }

  predicate NoDoubleNonNull(ws: seq<WrappingType>) {
    forall i | 0 < i < |ws| :: !(ws[i - 1].NonNull? && ws[i].NonNull?)
  }

  lemma {:induction false} ReversedAlternates(t: TypeRef)
    requires WellFormed(t)
    ensures NoDoubleNonNull(Reverse(Wrappers(t)))
    ensures t.NonNullOf? <==> Wrappers(t) != [] && Reverse(Wrappers(t))[|Reverse(Wrappers(t))| - 1].NonNull?
  {
    if !t.Named? {
      ReversedAlternates(t.inner);
      var ws := Wrappers(t);
      assert ws[1..] == Wrappers(t.inner);
      var rs, inner := Reverse(ws), Reverse(ws[1..]);
      assert rs == inner + [ws[0]];
      assert |inner| == 0 <==> ws[1..] == [];
    }
  }

  function CountLists(ws: seq<WrappingType>): nat {
    if ws == [] then 0 else CountLists(ws[..|ws| - 1]) + if ws[|ws| - 1].List? then 1 else 0
  }

  lemma {:induction false} CountReversed(t: TypeRef)
    ensures CountLists(Reverse(Wrappers(t))) == Lists(t)
  {
    if !t.Named? {
      CountReversed(t.inner);
      var ws := Wrappers(t);
      assert ws[1..] == Wrappers(t.inner);
      var rs := Reverse(ws);
      assert rs[..|rs| - 1] == Reverse(ws[1..]);
    }
  }

  lemma {:induction false} CountPrefix(ws: seq<WrappingType>, i: nat)
    requires i <= |ws|
    ensures CountLists(ws[..i]) <= CountLists(ws)
    decreases |ws| - i
  {
    if i < |ws| {
      CountPrefix(ws, i + 1);
      assert ws[..i + 1][..i] == ws[..i];
    } else {
      assert ws[..i] == ws;
    }
  }

  lemma {:induction false} TakeOne(t: TypeRef, ws: seq<WrappingType>, i: nat)
    requires i < |ws|
    ensures InWrappers(t, ws[..i + 1]) ==
            (var inner := InWrappers(t, ws[..i]); if ws[i].List? then ListOf(inner) else NonNullOf(inner))
    ensures CountLists(ws[..i + 1]) == CountLists(ws[..i]) + if ws[i].List? then 1 else 0
  {
    assert ws[..i + 1][..i] == ws[..i];
  }

  /** What the loop knows about the part of the wrappers it has read. */
  predicate Represents(w: bv32, name: string, ws: seq<WrappingType>, i: nat)
    requires i <= |ws|
  {
    && Valid(w) && Start(w) == 0
    && Decode(name, w) == InWrappers(Named(name), ws[..i])
    && |ListWrappings(w)| == CountLists(ws[..i])
  }

  lemma {:induction false} FullOnlyAtCapacity(w: bv32)
    requires Valid(w) && Start(w) == 0
    ensures End(w) == MAX_LIST_WRAPPINGS <==> |ListWrappings(w)| == 21
  {
    BetweenLength(Bits(w), 0, End(w));
  }

  /** Wrapping a decoded type in one more list. */
  lemma {:induction false} DecodeWrapped(name: string, w: bv32, wrapping: ListWrapping)
    requires Valid(w) && WrappedBy(w, wrapping).Some?
    ensures var r := WrappedBy(w, wrapping).value;
            && Valid(r) && Start(r) == Start(w) && |ListWrappings(r)| == |ListWrappings(w)| + 1
            && Decode(name, r) == (if wrapping.RequiredList? then NonNullOf(ListOf(Decode(name, w)))
              else ListOf(Decode(name, w)))
  {
    WrappedByAppends(w, wrapping);
    var lists := ListWrappings(w);
    assert (lists + [wrapping])[..|lists|] == lists;
  }

  lemma {:induction false} CountWithinCapacity(w: bv32)
    requires Valid(w)
    ensures |ListWrappings(w)| <= 21
  {
    BetweenLength(Bits(w), Start(w), End(w));
  }

  lemma {:induction false} FirstTurn(name: string, ws: seq<WrappingType>)
    ensures Represents(New(false), name, ws, 0)
    ensures ws != [] && ws[0].NonNull? ==> Represents(New(true), name, ws, 1)
  {
    NewIsEmpty(false);
    NewIsEmpty(true);
    if ws != [] {
      TakeOne(Named(name), ws, 0);
    }
  }

  /** One turn of the loop reads a list marker and the non-null marker after it, if any. */
  lemma {:induction false} NextTurn(w: bv32, name: string, ws: seq<WrappingType>, i: nat)
    requires i < |ws| && ws[i].List? && Represents(w, name, ws, i)
    ensures var required := i + 1 < |ws| && ws[i + 1].NonNull?;
            var next := WrappedBy(w, if required then RequiredList else NullableList);
            if next.None? then CountLists(ws) > 21
            else Represents(next.value, name, ws, if required then i + 2 else i + 1)
  {
    var required := i + 1 < |ws| && ws[i + 1].NonNull?;
    var wrapping := if required then RequiredList else NullableList;
    TakeOne(Named(name), ws, i);
    if required {
      TakeOne(Named(name), ws, i + 1);
    }
    if WrappedBy(w, wrapping).None? {
      WrappedByAppends(w, wrapping);
      FullOnlyAtCapacity(w);
      CountPrefix(ws, i + 1);
    } else {
      DecodeWrapped(name, w, wrapping);
    }
  }

  /** The wrapping of a field type.  It fails only beyond twenty-one nested lists, and decoding
      it gives the type back. */
  method FieldType(t: TypeRef) returns (wrapping: Option<bv32>)
    requires WellFormed(t)
    ensures wrapping.Some? <==> Lists(t) <= 21
    ensures wrapping.Some? ==> Valid(wrapping.value) && Decode(Name(t), wrapping.value) == t
  {
    var wrappers := Reverse(Wrappers(t));
    ReversedAlternates(t);
    CountReversed(t);
    FirstTurn(Name(t), wrappers);
    var i := 0;
    var w := New(false);
    if 0 < |wrappers| && wrappers[0].NonNull? {
      i := 1;
      w := New(true);
    }
    while i < |wrappers|
      invariant i <= |wrappers| && Represents(w, Name(t), wrappers, i)
      invariant i < |wrappers| ==> wrappers[i].List?
      decreases |wrappers| - i
    {
      NextTurn(w, Name(t), wrappers, i);
      i := i + 1;
      var next;
      if i < |wrappers| && wrappers[i].NonNull? {
        i := i + 1;
        next := WrappedBy(w, RequiredList);
      } else {
        next := WrappedBy(w, NullableList);
      }
      if next.None? {
        return None;
      }
      w := next.value;
    }
    Finished(t, w, wrappers, i);
    return Some(w);
  }

  lemma {:induction false} Finished(t: TypeRef, w: bv32, ws: seq<WrappingType>, i: nat)
    requires ws == Reverse(Wrappers(t)) && i == |ws| && Represents(w, Name(t), ws, i)
    ensures Lists(t) <= 21 && Decode(Name(t), w) == t
  {
    assert ws[..i] == ws;
    InReversedWrappers(t);
    CountReversed(t);
    CountWithinCapacity(w);
  }
}
