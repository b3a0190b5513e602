/**
 Comparison of fixed-width strings, which need not end in a NUL
 (libndarray/src/npy_arrayobject.c). Characters are unsigned code units.
 */
module StringCompare {

  type Text = seq<nat>

  /** A string is followed by NULs for ever. */
  function Unit(s: Text, i: nat): nat {
    if i < |s| then s[i] else 0
  }

  predicate AgreeBefore(a: Text, b: Text, n: nat) {
    forall i: nat :: i < n ==> Unit(a, i) == Unit(b, i)
  }

  /** `a` has the smaller unit at the first place where they differ. */
  ghost predicate Less(a: Text, b: Text) {
    exists n: nat :: Unit(a, n) < Unit(b, n) && AgreeBefore(a, b, n)
  }

  /** The same text up to trailing NULs. */
  ghost predicate Same(a: Text, b: Text) {
    forall i: nat :: Unit(a, i) == Unit(b, i)
  }

  /** What a comparison result says. */
  ghost predicate Says(val: int, a: Text, b: Text) {
    (val < 0 <==> Less(a, b)) && (val > 0 <==> Less(b, a)) && (val == 0 <==> Same(a, b))
  }

  // ----- The order

  lemma LessExcludes(a: Text, b: Text)
    requires Less(a, b)
    ensures !Less(b, a) && !Same(a, b)
  {
  }

  lemma FirstDifference(a: Text, b: Text, n: nat)
    requires AgreeBefore(a, b, n) && Unit(a, n) != Unit(b, n)
    ensures if Unit(a, n) < Unit(b, n) then Less(a, b) else Less(b, a)
  {
  }

  lemma LessTransitive(a: Text, b: Text, c: Text)
    requires Less(a, b) && Less(b, c)
    ensures Less(a, c)
  {
  }

  /** Equal texts are interchangeable, so results below, at and above zero make a
      total preorder. */
  lemma SameIsCongruent(a: Text, b: Text, c: Text)
    requires Same(a, b)
    ensures Less(a, c) <==> Less(b, c)
    ensures Less(c, a) <==> Less(c, b)
    ensures Same(a, c) <==> Same(b, c)
  {
  }

  /** Without trailing NULs. */
  function Trim(s: Text): (r: Text)
    ensures |r| <= |s|
  {
    if s != [] && s[|s| - 1] == 0 then Trim(s[..|s| - 1]) else s
  }

  lemma {:induction false} TrimSame(s: Text)
    ensures Same(Trim(s), s) && (Trim(s) != [] ==> Trim(s)[|Trim(s)| - 1] != 0)
    decreases |s|
  {
    if s != [] && s[|s| - 1] == 0 {
      TrimSame(s[..|s| - 1]);
      assert forall i: nat :: Unit(s[..|s| - 1], i) == Unit(s, i);
    }
  }

  /** The zero case is equality of the strings stripped of trailing NULs. */
  lemma SameIsTrimmedEqual(a: Text, b: Text)
    ensures Same(a, b) <==> Trim(a) == Trim(b)
  {
    var s, t := Trim(a), Trim(b);
    TrimSame(a);
    TrimSame(b);
    assert forall i: nat :: Unit(s, i) == Unit(a, i);
    assert forall i: nat :: Unit(t, i) == Unit(b, i);
    if Same(a, b) {
      assert forall i: nat :: Unit(s, i) == Unit(t, i);
      if t != [] {
        assert Unit(s, |t| - 1) == Unit(t, |t| - 1);
      }
      if s != [] {
        assert Unit(s, |s| - 1) == Unit(t, |s| - 1);
      }
      assert forall i :: 0 <= i < |s| ==> s[i] == Unit(s, i) == Unit(t, i) == t[i];
    }
  }

  // ----- The comparison routines

  function Min(a: nat, b: nat): nat {
    if a < b then a else b
  }

  /** The first `len` units decide, or agree. */
  ghost predicate Decides(val: int, a: Text, b: Text, len: nat) {
    && (val < 0 ==> Less(a, b)) && (val > 0 ==> Less(b, a)) && (val == 0 ==> AgreeBefore(a, b, len))
  }

  /** `NpyArray_CompareUCS4` */
  method CompareUCS4(s1: Text, s2: Text, len: nat) returns (val: int)
    requires len <= |s1| && len <= |s2|
    ensures Decides(val, s1, s2, len) && -1 <= val <= 1
  {
    hide Less;
    var i := 0;
    while i < len
      invariant i <= len && AgreeBefore(s1, s2, i)
    {
      var c1, c2 := s1[i], s2[i];
      assert Unit(s1, i) == c1 && Unit(s2, i) == c2;
      if c1 != c2 {
        FirstDifference(s1, s2, i);
        return if c1 < c2 then -1 else 1;
      }
      i := i + 1;
    }
    return 0;
  }

  /** `memcmp`: any value with the sign of the first difference. */
  method MemCmp(s1: Text, s2: Text, len: nat) returns (val: int)
    requires len <= |s1| && len <= |s2|
    ensures Decides(val, s1, s2, len)
  {
    hide Less;
    for i := 0 to len
      invariant AgreeBefore(s1, s2, i)
    {
      assert Unit(s1, i) == s1[i] && Unit(s2, i) == s2[i];
      if s1[i] != s2[i] {
        FirstDifference(s1, s2, i);
        var c1: int, c2: int := s1[i], s2[i];
        return c1 - c2;
      }
    }
    return 0;
  }

  lemma DecidedSays(val: int, a: Text, b: Text, len: nat)
    requires Decides(val, a, b, len) && (val != 0 || (|a| <= len && |b| <= len))
    ensures Says(val, a, b)
  {
  }

  /** The tail of the longer string decides by its first unit that is not NUL. */
  method CompareTail(s1: Text, s2: Text) returns (val: int)
    requires |s1| != |s2| && AgreeBefore(s1, s2, Min(|s1|, |s2|))
    ensures Says(val, s1, s2) && -1 <= val <= 1
  {
    hide Less, Same, Says;
    var start := Min(|s1|, |s2|);
    var longer, sign := if |s2| > |s1| then s2 else s1, if |s2| > |s1| then -1 else 1;
    var i := start;
    while i < |longer|
      invariant start <= i <= |longer| && AgreeBefore(s1, s2, i)
    {
      if longer[i] != 0 {
        assert Unit(longer, i) == longer[i];
        FirstDifference(s1, s2, i);
        DecidedSays(sign, s1, s2, start);
        return sign;
      }
      i := i + 1;
    }
    DecidedSays(0, s1, s2, i);
    return 0;
  }

  /** `_mystrncmp` */
  method MyStrNCmp(s1: Text, s2: Text) returns (val: int)
    ensures Says(val, s1, s2)
  {
    hide Less, Same, Says;
    val := MemCmp(s1, s2, Min(|s1|, |s2|));
    if val != 0 || |s1| == |s2| {
      DecidedSays(val, s1, s2, Min(|s1|, |s2|));
      return val;
    }
    val := CompareTail(s1, s2);
  }

  /** `_myunincmp`, which works on aligned copies of misaligned strings. */
  method MyUniNCmp(s1: Text, s2: Text) returns (val: int)
    ensures Says(val, s1, s2) && -1 <= val <= 1
  {
    hide Less, Same, Says;
    val := CompareUCS4(s1, s2, Min(|s1|, |s2|));
    if val != 0 || |s1| == |s2| {
      DecidedSays(val, s1, s2, Min(|s1|, |s2|));
      return val;
    }
    val := CompareTail(s1, s2);
  }
}
