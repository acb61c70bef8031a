/**
 Optional values, concatenation, positions in a sequence and the order of strings.
 */
module Common {
  datatype Option<T> = None | Some(value: T)

  lemma ConcatAssoc<T>(a: seq<T>, b: seq<T>, c: seq<T>)
    ensures (a + b) + c == a + (b + c)
  {
  }

  /** The elements of `s` at the positions `at`, in order, make the elements of `r`; no other element makes any. */
  ghost predicate MadeAt<T, U(!new)>(s: seq<T>, makes: (T, U) -> bool, at: seq<nat>, r: seq<U>) {
    && |at| == |r|
    && (forall i | 0 <= i < |at| :: at[i] < |s| && makes(s[at[i]], r[i]))
    && (forall i, j | 0 <= i < j < |at| :: at[i] < at[j])
    && (forall p, u | 0 <= p < |s| && makes(s[p], u) :: p in at)
  }

  /** `r` holds what the elements of `s` make, in order and with none left out. */
  ghost predicate Sifted<T, U(!new)>(s: seq<T>, makes: (T, U) -> bool, r: seq<U>) {
    exists at: seq<nat> :: MadeAt(s, makes, at, r)
  }

  lemma SiftedNone<T, U(!new)>(makes: (T, U) -> bool)
    ensures Sifted<T, U>([], makes, [])
  {
    assert MadeAt<T, U>([], makes, [], []);
  }

  lemma MadeOne<T, U(!new)>(s: seq<T>, x: T, makes: (T, U) -> bool, at: seq<nat>, r: seq<U>, u: U)
    requires MadeAt(s, makes, at, r) && makes(x, u)
    ensures MadeAt(s + [x], makes, at + [|s|], r + [u])
  {
    var all, more := s + [x], at + [|s|];
    forall p, v | 0 <= p < |all| && makes(all[p], v)
      ensures p in more
    {
      if p < |s| {
        assert makes(s[p], v);
      } else {
        assert more[|at|] == p;
      }
    }
  }

  /** One more element that makes something. */
  lemma SiftedOne<T, U(!new)>(s: seq<T>, x: T, makes: (T, U) -> bool, r: seq<U>, u: U)
    requires Sifted(s, makes, r) && makes(x, u)
    ensures Sifted(s + [x], makes, r + [u])
  {
    hide MadeAt;
    var at: seq<nat> :| MadeAt(s, makes, at, r);
    MadeOne(s, x, makes, at, r, u);
  }

  /** One more element that makes nothing. */
  lemma SiftedSkip<T, U(!new)>(s: seq<T>, x: T, makes: (T, U) -> bool, r: seq<U>)
    requires Sifted(s, makes, r) && forall u :: !makes(x, u)
    ensures Sifted(s + [x], makes, r)
  {
    var at: seq<nat> :| MadeAt(s, makes, at, r);
    forall p, v | 0 <= p < |s + [x]| && makes((s + [x])[p], v)
      ensures p in at
    {
      assert p < |s| && makes(s[p], v);
    }
    assert MadeAt(s + [x], makes, at, r);
  }

  lemma {:induction false} SiftedConcat<T, U(!new)>(
    a: seq<T>, b: seq<T>, makes: (T, U) -> bool, r: seq<U>, q: seq<U>)
    requires Sifted(a, makes, r) && Sifted(b, makes, q)
    ensures Sifted(a + b, makes, r + q)
  {
    var at: seq<nat> :| MadeAt(a, makes, at, r);
    var bt: seq<nat> :| MadeAt(b, makes, bt, q);
    var behind: seq<nat> := seq(|bt|, i requires 0 <= i < |bt| => |a| + bt[i]);
    MadeBoth(a, b, makes, at, r, bt, q, behind);
  }

  lemma MadeBoth<T, U(!new)>(
    a: seq<T>, b: seq<T>, makes: (T, U) -> bool, at: seq<nat>, r: seq<U>, bt: seq<nat>, q: seq<U>, behind: seq<nat>)
    requires MadeAt(a, makes, at, r) && MadeAt(b, makes, bt, q)
    requires |behind| == |bt| && forall i | 0 <= i < |bt| :: behind[i] == |a| + bt[i]
    ensures MadeAt(a + b, makes, at + behind, r + q)
  {
    var all, made := at + behind, r + q;
    forall i | 0 <= i < |all|
      ensures all[i] < |a + b| && makes((a + b)[all[i]], made[i])
    {
      if i < |at| {
        assert makes(a[at[i]], r[i]);
      } else {
        assert makes(b[bt[i - |at|]], q[i - |at|]);
      }
    }
    forall p, u | 0 <= p < |a + b| && makes((a + b)[p], u)
      ensures p in all
    {
      if p < |a| {
        assert makes(a[p], u);
        assert p in at;
      } else {
        assert makes(b[p - |a|], u);
        var i :| 0 <= i < |bt| && bt[i] == p - |a|;
        assert all[|at| + i] == p;
      }
    }
  }

  /** The lexicographic order. */
  predicate StringLe(a: string, b: string) {
    a == [] || (b != [] && (a[0] < b[0] || (a[0] == b[0] && StringLe(a[1..], b[1..]))))
  }

  lemma {:induction false} StringLeTotal(a: string, b: string)
    ensures StringLe(a, b) || StringLe(b, a)
  {
    if a != [] && b != [] && a[0] == b[0] {
      StringLeTotal(a[1..], b[1..]);
    }
  }

  lemma {:induction false} StringLeAntisymmetric(a: string, b: string)
    requires StringLe(a, b) && StringLe(b, a)
    ensures a == b
  {
    if a != [] && b != [] {
      StringLeAntisymmetric(a[1..], b[1..]);
      assert a == [a[0]] + a[1..] && b == [b[0]] + b[1..];
    }
  }

  lemma {:induction false} StringLeTransitive(a: string, b: string, c: string)
    requires StringLe(a, b) && StringLe(b, c)
    ensures StringLe(a, c)
  {
    if a != [] && a[0] == b[0] && b[0] == c[0] {
      StringLeTransitive(a[1..], b[1..], c[1..]);
    }
  }
}
