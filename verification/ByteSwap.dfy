/**
 In-place byte reversal of strided elements (libndarray/src/npy_ctors.c), with
 the unrolled cases for two, four and eight bytes.
 */
module ByteSwap {

  type byte = bv8

  /** The buffer after reversing the `size` bytes from `p` on. */
  function Reversed(s: seq<byte>, p: int, size: int): (r: seq<byte>)
    requires 0 <= p && 0 <= size && p + size <= |s|
    ensures |r| == |s|
  {
    seq(|s|, i requires 0 <= i < |s| => if p <= i < p + size then s[2 * p + size - 1 - i] else s[i])
  }

  lemma ReversedAt(s: seq<byte>, p: int, size: int, i: int)
    requires 0 <= p && 0 <= size && p + size <= |s| && 0 <= i < |s|
    ensures Reversed(s, p, size)[i] == if p <= i < p + size then s[2 * p + size - 1 - i] else s[i]
  {
  }

  /** Where element `k` starts. */
  function Base(p: int, stride: int, k: int): int {
    p + k * stride
  }

  lemma BaseSteps(p: int, stride: int, k: int)
    ensures Base(p, stride, 0) == p && Base(p + stride, stride, k) == Base(p, stride, k + 1)
  {
  }

  /** Every element lies in the buffer. */
  predicate InBuffer(length: int, p: int, stride: int, n: int, size: int) {
    0 <= size && forall k :: 0 <= k < n ==> 0 <= Base(p, stride, k) && Base(p, stride, k) + size <= length
  }

  /** The elements reversed one after the other. */
  function SwapAll(s: seq<byte>, p: int, stride: int, n: int, size: int): (r: seq<byte>)
    requires InBuffer(|s|, p, stride, n, size)
    ensures |r| == |s|
    decreases n
  {
    if n <= 0 then s
    else
      Later(|s|, p, stride, n, size);
      SwapAll(Reversed(s, p, size), p + stride, stride, n - 1, size)
  }

  lemma Later(length: int, p: int, stride: int, n: int, size: int)
    requires InBuffer(length, p, stride, n, size) && n > 0
    ensures 0 <= p && 0 <= size && p + size <= length && InBuffer(length, p + stride, stride, n - 1, size)
  {
    hide Base;
    BaseSteps(p, stride, 0);
    var q := p + stride;
    forall k | 0 <= k < n - 1 ensures 0 <= Base(q, stride, k) && Base(q, stride, k) + size <= length {
      BaseSteps(p, stride, k);
    }
  }

  /** `c = *a; *a = *b; *b = c;` */
  method Exchange(buf: array<byte>, a: int, b: int)
    requires 0 <= a < buf.Length && 0 <= b < buf.Length
    modifies buf
    ensures buf[..] == old(buf[..])[a := old(buf[b])][b := old(buf[a])]
  {
    var c := buf[a];
    buf[a] := buf[b];
    buf[b] := c;
  }

  /** The outermost `j` pairs of an element exchanged. */
  function Half(s: seq<byte>, p: int, size: int, j: int): (r: seq<byte>)
    requires 0 <= p && 0 <= j && 2 * j <= size && p + size <= |s|
    ensures |r| == |s|
  {
    seq(|s|, i requires 0 <= i < |s| =>
      if p <= i < p + j || p + size - j <= i < p + size then s[2 * p + size - 1 - i] else s[i])
  }

  lemma HalfStarts(s: seq<byte>, p: int, size: int)
    requires 0 <= p && 0 <= size && p + size <= |s|
    ensures Half(s, p, size, 0) == s
  {
  }

  /** All pairs: the middle byte of an odd size is its own mirror. */
  lemma HalfIsWhole(s: seq<byte>, p: int, size: int)
    requires 0 <= p && 0 <= size && p + size <= |s|
    ensures Half(s, p, size, size / 2) == Reversed(s, p, size)
  {
  }

  lemma OnePair(s: seq<byte>, p: int, size: int, j: int)
    requires 0 <= p && 0 <= j && 2 * j + 2 <= size && p + size <= |s|
    ensures var a, b, r := p + j, p + size - 1 - j, Half(s, p, size, j);
            r[a := r[b]][b := r[a]] == Half(s, p, size, j + 1)
  {
  }

  /** One element of any size: `j` walks in from both ends. */
  method SwapElement(buf: array<byte>, p: int, size: int) returns (a: int)
    requires 0 <= p && 0 <= size && p + size <= buf.Length
    modifies buf
    ensures buf[..] == Reversed(old(buf[..]), p, size) && a == p + size / 2
  {
    hide Half, Reversed;
    ghost var s := buf[..];
    var m := size / 2;
    a := p;
    var b := a + (size - 1);
    var j := 0;
    HalfStarts(s, p, size);
    while j < m
      invariant 0 <= j <= m && a == p + j && b == p + size - 1 - j && buf[..] == Half(s, p, size, j)
    {
      OnePair(s, p, size, j);
      Exchange(buf, a, b);
      a, b, j := a + 1, b - 1, j + 1;
    }
    HalfIsWhole(s, p, size);
  }

  /** The unrolled bodies. */
  method SwapTwo(buf: array<byte>, a: int)
    requires 0 <= a && a + 2 <= buf.Length
    modifies buf
    ensures buf[..] == Reversed(old(buf[..]), a, 2)
  {
    Exchange(buf, a, a + 1);
  }

  method SwapFour(buf: array<byte>, p: int) returns (a: int)
    requires 0 <= p && p + 4 <= buf.Length
    modifies buf
    ensures buf[..] == Reversed(old(buf[..]), p, 4) && a == p + 1
  {
    a := p;
    var b := a + 3;
    Exchange(buf, a, b);
    a, b := a + 1, b - 1;
    Exchange(buf, a, b);
  }

  method SwapEight(buf: array<byte>, p: int) returns (a: int)
    requires 0 <= p && p + 8 <= buf.Length
    modifies buf
    ensures buf[..] == Reversed(old(buf[..]), p, 8) && a == p + 3
  {
    hide Half, Reversed;
    ghost var s := buf[..];
    HalfStarts(s, p, 8);
    a := p;
    var b := a + 7;
    OnePair(s, p, 8, 0);
    Exchange(buf, a, b);
    a, b := a + 1, b - 1;
    OnePair(s, p, 8, 1);
    Exchange(buf, a, b);
    a, b := a + 1, b - 1;
    OnePair(s, p, 8, 2);
    Exchange(buf, a, b);
    a, b := a + 1, b - 1;
    OnePair(s, p, 8, 3);
    Exchange(buf, a, b);
    HalfIsWhole(s, p, 8);
  }

  /** `_strided_byte_swap`: whatever branch the size selects, every element in
      turn is reversed. */
  method StridedByteSwap(buf: array<byte>, p: int, stride: int, n0: int, size: int)
    requires InBuffer(buf.Length, p, stride, n0, size)
    modifies buf
    ensures buf[..] == SwapAll(old(buf[..]), p, stride, n0, size)
  {
    hide Reversed, InBuffer;
    ghost var s := buf[..];
    if size == 1 {
      SwapOnes(s, p, stride, n0);
      return;
    }
    var a, n := p, n0;
    while n > 0
      invariant InBuffer(buf.Length, a, stride, n, size)
      invariant SwapAll(buf[..], a, stride, n, size) == SwapAll(s, p, stride, n0, size)
      decreases n
    {
      Later(buf.Length, a, stride, n, size);
      if size == 4 {
        a := SwapFour(buf, a);
        a := a + stride - 1;
      } else if size == 8 {
        a := SwapEight(buf, a);
        a := a + stride - 3;
      } else if size == 2 {
        SwapTwo(buf, a);
        a := a + stride;
      } else {
        a := SwapElement(buf, a, size);
        a := a + stride - size / 2;
      }
      n := n - 1;
    }
  }

  lemma {:induction false} SwapOnes(s: seq<byte>, p: int, stride: int, n: int)
    requires InBuffer(|s|, p, stride, n, 1)
    ensures SwapAll(s, p, stride, n, 1) == s
    decreases n
  {
    if n > 0 {
      Later(|s|, p, stride, n, 1);
      assert Reversed(s, p, 1) == s;
      SwapOnes(s, p + stride, stride, n - 1);
    }
  }

  // ----- Elements that do not overlap

  predicate Apart(stride: int, n: int, size: int) {
    n <= 1 || stride >= size || stride <= -size
  }

  /** Byte `j` of element `k`. */
  predicate InElement(i: int, p: int, stride: int, k: int, size: int) {
    Base(p, stride, k) <= i < Base(p, stride, k) + size
  }

  lemma ApartFromFirst(p: int, stride: int, n: int, size: int, k: int, i: int)
    requires Apart(stride, n, size) && size >= 0 && 1 <= k < n && InElement(i, p, stride, k, size)
    ensures !(p <= i < p + size)
  {
  }

  /** Bytes outside the elements stay. */
  lemma {:induction false} SwapAllOutside(s: seq<byte>, p: int, stride: int, n: int, size: int, i: int)
    requires InBuffer(|s|, p, stride, n, size) && 0 <= i < |s|
    requires forall k :: 0 <= k < n ==> !InElement(i, p, stride, k, size)
    ensures SwapAll(s, p, stride, n, size)[i] == s[i]
    decreases n
  {
    if n > 0 {
      Later(|s|, p, stride, n, size);
      ReversedAt(s, p, size, i);
      hide Base, Reversed;
      BaseSteps(p, stride, 0);
      assert !InElement(i, p, stride, 0, size);
      var q := p + stride;
      forall k | 0 <= k < n - 1 ensures !InElement(i, q, stride, k, size) {
        BaseSteps(p, stride, k);
        assert !InElement(i, p, stride, k + 1, size);
      }
      SwapAllOutside(Reversed(s, p, size), q, stride, n - 1, size, i);
    }
  }

  /** The mirror image of a byte in element `k`. */
  function Mirror(i: int, p: int, stride: int, k: int, size: int): int {
    2 * Base(p, stride, k) + size - 1 - i
  }

  lemma MirrorInElement(length: int, i: int, p: int, stride: int, n: int, k: int, size: int)
    requires InBuffer(length, p, stride, n, size) && 0 <= k < n && InElement(i, p, stride, k, size)
    ensures InElement(Mirror(i, p, stride, k, size), p, stride, k, size)
    ensures 0 <= i < length && 0 <= Mirror(i, p, stride, k, size) < length
    ensures Mirror(Mirror(i, p, stride, k, size), p, stride, k, size) == i
  {
  }

  /** In each element the bytes come out in the opposite order. */
  lemma {:induction false} SwapAllReverses(s: seq<byte>, p: int, stride: int, n: int, size: int, k: int, i: int)
    requires InBuffer(|s|, p, stride, n, size) && Apart(stride, n, size)
    requires 0 <= k < n && InElement(i, p, stride, k, size)
    ensures 0 <= i < |s| && 0 <= Mirror(i, p, stride, k, size) < |s|
    ensures SwapAll(s, p, stride, n, size)[i] == s[Mirror(i, p, stride, k, size)]
    decreases n
  {
    Later(|s|, p, stride, n, size);
    MirrorInElement(|s|, i, p, stride, n, k, size);
    hide Base, InBuffer, Apart, Reversed;
    ReversedAt(s, p, size, i);
    ReversedAt(s, p, size, Mirror(i, p, stride, k, size));
    BaseSteps(p, stride, 0);
    var r, q := Reversed(s, p, size), p + stride;
    if k == 0 {
      forall l | 0 <= l < n - 1 ensures !InElement(i, q, stride, l, size) {
        BaseSteps(p, stride, l);
        if InElement(i, p, stride, l + 1, size) {
          ApartFromFirst(p, stride, n, size, l + 1, i);
        }
      }
      SwapAllOutside(r, q, stride, n - 1, size, i);
    } else {
      BaseSteps(p, stride, k - 1);
      SwapAllReverses(r, q, stride, n - 1, size, k - 1, i);
      ApartFromFirst(p, stride, n, size, k, Mirror(i, p, stride, k, size));
    }
  }

  /** Swapping twice restores the buffer. */
  lemma SwapTwice(s: seq<byte>, p: int, stride: int, n: int, size: int)
    requires InBuffer(|s|, p, stride, n, size) && Apart(stride, n, size)
    ensures SwapAll(SwapAll(s, p, stride, n, size), p, stride, n, size) == s
  {
    hide SwapAll, InBuffer, Mirror, InElement;
    var r := SwapAll(s, p, stride, n, size);
    var t := SwapAll(r, p, stride, n, size);
    forall i | 0 <= i < |s| ensures t[i] == s[i] {
      if k :| 0 <= k < n && InElement(i, p, stride, k, size) {
        MirrorInElement(|s|, i, p, stride, n, k, size);
        SwapAllReverses(r, p, stride, n, size, k, i);
        SwapAllReverses(s, p, stride, n, size, k, Mirror(i, p, stride, k, size));
      } else {
        SwapAllOutside(s, p, stride, n, size, i);
        SwapAllOutside(r, p, stride, n, size, i);
      }
    }
  }

  /** Two overlapping elements of two bytes: the buffer comes back another. */
  lemma OverlapIsNotRestored()
    ensures InBuffer(3, 0, 1, 2, 2)
    ensures SwapAll(SwapAll([1, 2, 3], 0, 1, 2, 2), 0, 1, 2, 2) != [1, 2, 3]
  {
    assert Reversed([1, 2, 3], 0, 2) == [2, 1, 3] && Reversed([2, 1, 3], 1, 2) == [2, 3, 1];
    assert SwapAll([1, 2, 3], 0, 1, 2, 2) == SwapAll([2, 1, 3], 1, 1, 1, 2) == SwapAll([2, 3, 1], 2, 1, 0, 2);
    assert Reversed([2, 3, 1], 0, 2) == [3, 2, 1] && Reversed([3, 2, 1], 1, 2) == [3, 1, 2];
    assert SwapAll([2, 3, 1], 0, 1, 2, 2) == SwapAll([3, 2, 1], 1, 1, 1, 2) == SwapAll([3, 1, 2], 2, 1, 0, 2);
  }
}
