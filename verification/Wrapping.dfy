/**
 The list and non-null wrappers of a type, packed into 32 bits: a flag for the innermost
 type, the two ends of a queue, and one bit for each list wrapper, innermost first.
 The packed word refines a flag and a sequence.
 */
module Wrapping {
  import opened Common

  const START_MASK: bv32 := 0x7C00_0000
  const START_SHIFT: bv32 := 26
  const END_MASK: bv32 := 0x03E0_0000
  const END_SHIFT: bv32 := 21
  const MAX_LIST_WRAPPINGS: bv32 := 21
  const INNER_IS_REQUIRED_FLAG: bv32 := 0x8000_0000

  datatype ListWrapping = RequiredList | NullableList

  function Start(w: bv32): bv32 {
    (w & START_MASK) >> START_SHIFT
  }

  function End(w: bv32): bv32 {
    (w & END_MASK) >> END_SHIFT
  }

  function Bit(w: bv32, k: bv32): bool
    requires k <= 31
  {
    (w >> k) & 1 == 1
  }

  predicate Valid(w: bv32) {
    Start(w) <= End(w) <= MAX_LIST_WRAPPINGS
  }

  function InnerIsRequired(w: bv32): bool {
    w & INNER_IS_REQUIRED_FLAG != 0
  }

  function Wrapper(required: bool): ListWrapping {
    if required then RequiredList else NullableList
  }

  /** The bits of a word. */
  function Bits(w: bv32): bv32 -> bool {
    k => k <= 31 && Bit(w, k)
  }

  function Between(bits: bv32 -> bool, s: bv32, e: bv32): seq<ListWrapping>
    requires s <= e <= 31
    decreases e - s
  {
    if s == e then [] else [Wrapper(bits(s))] + Between(bits, s + 1, e)
  }

  /** The list wrappers from innermost to outermost. */
  function ListWrappings(w: bv32): seq<ListWrapping>
    requires Valid(w)
  {
    Between(Bits(w), Start(w), End(w))
  }

  function New(required: bool): bv32 {
    if required then INNER_IS_REQUIRED_FLAG else 0
  }

  /** Adds an outermost list wrapper; there is room for twenty-one. */
  function WrappedBy(w: bv32, wrapping: ListWrapping): Option<bv32>
    requires Valid(w)
  {
    var end := End(w);
    if !(end + 1 < MAX_LIST_WRAPPINGS + 1) then None
    else Some(Longer(w, end, wrapping))
  }

  function Longer(w: bv32, end: bv32, wrapping: ListWrapping): bv32
    requires end < 21
  {
    var longer := (w & !END_MASK) | ((end + 1) << END_SHIFT);
    var mask: bv32 := 1 << end;
    if wrapping.RequiredList? then longer | mask else longer & !mask
  }

  lemma LongerStart(w: bv32, end: bv32, wrapping: ListWrapping)
    requires end < 21
    ensures Start(Longer(w, end, wrapping)) == Start(w)
  {
  }

  lemma LongerInner(w: bv32, end: bv32, wrapping: ListWrapping)
    requires end < 21
    ensures InnerIsRequired(Longer(w, end, wrapping)) == InnerIsRequired(w)
  {
  }

  lemma LongerEnd(w: bv32, end: bv32, wrapping: ListWrapping)
    requires end < 21
    ensures End(Longer(w, end, wrapping)) == end + 1
  {
  }

  lemma LongerLast(w: bv32, end: bv32, wrapping: ListWrapping)
    requires end < 21
    ensures Bit(Longer(w, end, wrapping), end) == wrapping.RequiredList?
  {
  }

  lemma LongerBit(w: bv32, end: bv32, wrapping: ListWrapping, k: bv32)
    requires k < end < 21
    ensures Bit(Longer(w, end, wrapping), k) == Bit(w, k)
  {
  }

  lemma {:induction false} BetweenSnoc(bits: bv32 -> bool, s: bv32, e: bv32)
    requires s <= e < 31
    ensures Between(bits, s, e + 1) == Between(bits, s, e) + [Wrapper(bits(e))]
    decreases e - s
  {
    if s != e {
      BetweenSnoc(bits, s + 1, e);
    }
  }

  lemma {:induction false} BetweenFrame(f: bv32 -> bool, g: bv32 -> bool, s: bv32, e: bv32)
    requires s <= e <= 31 && forall k: bv32 | s <= k < e :: f(k) == g(k)
    ensures Between(f, s, e) == Between(g, s, e)
    decreases e - s
  {
    if s != e {
      BetweenFrame(f, g, s + 1, e);
    }
  }

  lemma {:induction false} BetweenLength(bits: bv32 -> bool, s: bv32, e: bv32)
    requires s <= e <= 31
    ensures |Between(bits, s, e)| == (e - s) as int
    decreases e - s
  {
    if s != e {
      BetweenLength(bits, s + 1, e);
      assert (e - s) as int == (e - (s + 1)) as int + 1;
    }
  }

  /** Dropping the first bit, whatever happens to the bits outside the queue. */
  lemma FirstAndRest(f: bv32 -> bool, g: bv32 -> bool, s: bv32, e: bv32)
    requires s < e <= 31 && forall k: bv32 | s < k < e :: f(k) == g(k)
    ensures Between(f, s, e) == [Wrapper(f(s))] + Between(g, s + 1, e)
  {
    BetweenFrame(f, g, s + 1, e);
  }

  lemma RestAndLast(f: bv32 -> bool, g: bv32 -> bool, s: bv32, e: bv32)
    requires s <= e < 31 && forall k: bv32 | s <= k < e :: f(k) == g(k)
    ensures Between(f, s, e + 1) == Between(g, s, e) + [Wrapper(f(e))]
  {
    BetweenFrame(f, g, s, e);
    BetweenSnoc(f, s, e);
  }

  // ----- The packed word refines a flag and a sequence -----

  lemma {:induction false} NewIsEmpty(required: bool)
    ensures Valid(New(required)) && ListWrappings(New(required)) == [] && InnerIsRequired(New(required)) == required
  {
  }

  /** The wrappers before the new one are unchanged, and the new one comes last. */
  lemma {:induction false} LongerKeeps(w: bv32, s: bv32, end: bv32, wrapping: ListWrapping)
    requires s <= end < 21
    ensures Between(Bits(Longer(w, end, wrapping)), s, end + 1) == Between(Bits(w), s, end) + [wrapping]
  {
    var r := Longer(w, end, wrapping);
    forall k: bv32 | s <= k < end
      ensures Bits(r)(k) == Bits(w)(k)
    {
      LongerBit(w, end, wrapping, k);
    }
    LongerLast(w, end, wrapping);
    RestAndLast(Bits(r), Bits(w), s, end);
  }

  /** Wrapping appends to the sequence and fails exactly when the sequence is full. */
  lemma {:induction false} WrappedByAppends(w: bv32, wrapping: ListWrapping)
    requires Valid(w)
    ensures WrappedBy(w, wrapping).None? <==> End(w) == MAX_LIST_WRAPPINGS
    ensures WrappedBy(w, wrapping).Some? ==>
              var r := WrappedBy(w, wrapping).value;
              && Valid(r) && Start(r) == Start(w)
              && InnerIsRequired(r) == InnerIsRequired(w)
              && ListWrappings(r) == ListWrappings(w) + [wrapping]
  {
    var end := End(w);
    if end < MAX_LIST_WRAPPINGS {
      LongerStart(w, end, wrapping);
      LongerInner(w, end, wrapping);
      LongerEnd(w, end, wrapping);
      LongerKeeps(w, Start(w), end, wrapping);
    }
  }

  // ----- Reading from either end -----

  function WithStart(w: bv32, start: bv32): bv32 {
    (w & !START_MASK) | (start << START_SHIFT)
  }

  function WithEnd(w: bv32, end: bv32): bv32 {
    (w & !END_MASK) | (end << END_SHIFT)
  }

  /** The innermost wrapper and the word without it. */
  function Next(w: bv32): (Option<ListWrapping>, bv32)
    requires Valid(w)
  {
    var start := Start(w);
    if start == End(w) then (None, w)
    else (Some(Wrapper(Bit(w, start))), WithStart(w, start + 1))
  }

  /** The outermost wrapper and the word without it. */
  function NextBack(w: bv32): (Option<ListWrapping>, bv32)
    requires Valid(w)
  {
    var end := End(w);
    if end == Start(w) then (None, w)
    else (Some(Wrapper(Bit(w, end - 1))), WithEnd(w, end - 1))
  }

  lemma WithStartStart(w: bv32, p: bv32)
    requires p <= 21
    ensures Start(WithStart(w, p)) == p
  {
  }

  lemma WithStartEnd(w: bv32, p: bv32)
    requires p <= 21
    ensures End(WithStart(w, p)) == End(w)
  {
  }

  lemma WithStartBit(w: bv32, p: bv32, k: bv32)
    requires p <= 21 && k < 21
    ensures Bit(WithStart(w, p), k) == Bit(w, k)
  {
  }

  lemma WithEndStart(w: bv32, p: bv32)
    requires p <= 21
    ensures Start(WithEnd(w, p)) == Start(w)
  {
  }

  lemma WithEndEnd(w: bv32, p: bv32)
    requires p <= 21
    ensures End(WithEnd(w, p)) == p
  {
  }

  lemma WithEndInner(w: bv32, p: bv32)
    requires p <= 21
    ensures InnerIsRequired(WithEnd(w, p)) == InnerIsRequired(w)
  {
  }

  lemma WithEndBit(w: bv32, p: bv32, k: bv32)
    requires p <= 21 && k < 21
    ensures Bit(WithEnd(w, p), k) == Bit(w, k)
  {
  }

  lemma NextWrapper(w: bv32, s: bv32, e: bv32)
    requires s < e <= 21
    ensures Between(Bits(w), s, e) == [Wrapper(Bit(w, s))] + Between(Bits(WithStart(w, s + 1)), s + 1, e)
  {
    hide WithStart, Bit;
    var rest := WithStart(w, s + 1);
    forall k: bv32 | s < k < e
      ensures Bits(w)(k) == Bits(rest)(k)
    {
      WithStartBit(w, s + 1, k);
    }
    FirstAndRest(Bits(w), Bits(rest), s, e);
  }

  lemma LastWrapper(w: bv32, s: bv32, e: bv32)
    requires s <= e < 21
    ensures Between(Bits(w), s, e + 1) == Between(Bits(WithEnd(w, e)), s, e) + [Wrapper(Bit(w, e))]
  {
    hide WithEnd, Bit;
    var rest := WithEnd(w, e);
    forall k: bv32 | s <= k < e
      ensures Bits(w)(k) == Bits(rest)(k)
    {
      WithEndBit(w, e, k);
    }
    RestAndLast(Bits(w), Bits(rest), s, e);
  }

  lemma {:induction false} NextTakesFirst(w: bv32)
    requires Valid(w)
    ensures var (first, rest) := Next(w);
            if first.None? then ListWrappings(w) == []
            else Valid(rest) && ListWrappings(w) == [first.value] + ListWrappings(rest)
  {
    var s, e := Start(w), End(w);
    if s != e {
      WithStartStart(w, s + 1);
      WithStartEnd(w, s + 1);
      NextWrapper(w, s, e);
    }
  }

  lemma {:induction false} NextBackTakesLast(w: bv32)
    requires Valid(w)
    ensures var (last, rest) := NextBack(w);
            if last.None? then ListWrappings(w) == []
            else Valid(rest) && ListWrappings(w) == ListWrappings(rest) + [last.value]
                 && InnerIsRequired(rest) == InnerIsRequired(w)
  {
    var s, e := Start(w), End(w);
    if s != e {
      WithEndStart(w, e - 1);
      WithEndEnd(w, e - 1);
      WithEndInner(w, e - 1);
      LastWrapper(w, s, e - 1);
    }
  }
}
