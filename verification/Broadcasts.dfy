/**
 Broadcasting: the common shape of two arrays, the strides with which each of them
 is walked in that shape, and which elements meet there
 (libndarray/src/npy_iterators.c).
 */
module Broadcasts {
  import opened CInt
  import opened Shape
  import opened Storage
  import opened Wrappers

  function Ones(n: nat): (r: seq<nat>)
    ensures |r| == n && forall i :: 0 <= i < n ==> r[i] == 1
  {
    seq(n, _ => 1)
  }

  function Zeros(n: nat): (r: seq<nat>)
    ensures |r| == n && forall i :: 0 <= i < n ==> r[i] == 0
  {
    seq(n, _ => 0)
  }

  /** The shape with axes of length 1 put in front. */
  function Padded(dims: seq<nat>, nd: nat): (r: seq<nat>)
    requires |dims| <= nd
    ensures |r| == nd
  {
    Ones(nd - |dims|) + dims
  }

  function Axes(d: seq<nat>, s: seq<nat>): (r: nat)
    ensures |d| <= r && |s| <= r
  {
    if |d| < |s| then |s| else |d|
  }

  /** Axes of the same length, or one of them of length 1. */
  predicate Matches(p: seq<nat>, q: seq<nat>)
    requires |p| == |q|
  {
    forall i :: 0 <= i < |p| ==> p[i] == 1 || q[i] == 1 || p[i] == q[i]
  }

  function Joined(p: seq<nat>, q: seq<nat>): (r: seq<nat>)
    requires |p| == |q|
    ensures |r| == |p|
  {
    seq(|p|, i requires 0 <= i < |p| => if p[i] == 1 then q[i] else p[i])
  }

  /** The shape in which two arrays are walked together. */
  function Broadcast(d: seq<nat>, s: seq<nat>): Option<seq<nat>> {
    var p, q := Padded(d, Axes(d, s)), Padded(s, Axes(d, s));
    if Matches(p, q) then Some(Joined(p, q)) else None
  }

  /** An array as it is walked in the shape `b`: axes that are added or stretched are
      stood still on. */
  function Stretched(l: Layout, b: seq<nat>): Layout
    requires |l.dims| <= |b|
  {
    var m := |b| - |l.dims|;
    Layout(b, seq(|b|, j requires 0 <= j < |b| => if j < m || l.dims[j - m] != b[j] then 0 else l.strides[j - m]),
           l.offset, l.aligned)
  }

  /** The common shape has as many elements as the destination. */
  predicate Fits(d: seq<nat>, s: seq<nat>) {
    Broadcast(d, s).Some? && Size(Broadcast(d, s).value) == Size(d)
  }

  // ----- Which elements meet

  /** The coordinates that the source shows at the coordinates `v`: the last axes of
      both are the same, and an axis of length 1 always shows its one element. */
  function Seen(v: seq<int>, s: seq<nat>): (r: seq<int>)
    ensures |r| == |s|
  {
    seq(|s|, k requires 0 <= k < |s| => if s[k] == 1 || k + |v| < |s| then 0 else v[k + |v| - |s|])
  }

  lemma {:induction false} ProdAtLeast(p: seq<int>, b: seq<int>)
    requires |p| == |b| && Positive(p) && forall i :: 0 <= i < |p| ==> p[i] <= b[i]
    ensures Prod(p) <= Prod(b) && (Prod(p) == Prod(b) ==> p == b)
  {
    if p != [] {
      ProdAtLeast(p[1..], b[1..]);
      ProdPositive(p[1..]);
      var x, y := Prod(p[1..]), Prod(b[1..]);
      ProductMonotone(p[0], b[0], y);
      assert p[0] * x <= p[0] * y by {
        ProductMonotone(x, y, p[0]);
      }
      if Prod(p) == Prod(b) {
        FactorsSame(p[0], x, b[0], y);
        assert p == [p[0]] + p[1..] && b == [b[0]] + b[1..];
      }
    }
  }

  lemma FactorsSame(a: int, x: int, b: int, y: int)
    requires 0 < a <= b && 0 < x <= y && a * x == b * y
    ensures a == b && x == y
  {
    if a < b || x < y {
      MoreTimes(a, x, b, y);
    }
  }

  lemma MoreTimes(a: int, x: int, b: int, y: int)
    requires 0 < a <= b && 0 < x <= y && (a < b || x < y)
    ensures a * x < b * y
  {
    ProductMonotone(x, y, a);
    ProductMonotone(a, b, y);
    if a < b {
      ProductMonotone(a + 1, b, y);
      assert (a + 1) * y == a * y + y;
    } else {
      ProductMonotone(x + 1, y, a);
      assert (x + 1) * a == x * a + a;
    }
  }

  lemma {:induction false} PaddedProd(dims: seq<nat>, m: nat)
    ensures Prod(Ones(m) + dims) == Prod(dims)
  {
    if m == 0 {
      assert Ones(0) + dims == dims;
    } else {
      PaddedProd(dims, m - 1);
      assert (Ones(m) + dims)[1..] == Ones(m - 1) + dims;
    }
  }

  /** A destination with elements is not stretched itself. */
  lemma FitsMeans(d: seq<nat>, s: seq<nat>)
    ensures Size(d) > 0 ==>
              (Fits(d, s) <==> Broadcast(d, s).Some? && Broadcast(d, s).value == Padded(d, Axes(d, s)))
    ensures Size(d) > 0 ==>
              (Fits(d, s) <==> var p, q := Padded(d, Axes(d, s)), Padded(s, Axes(d, s));
                               forall i :: 0 <= i < |p| ==> q[i] == 1 || q[i] == p[i])
  {
    var p, q := Padded(d, Axes(d, s)), Padded(s, Axes(d, s));
    PaddedProd(d, |p| - |d|);
    if Size(d) > 0 {
      SizePositive(d);
      assert Positive(p);
      if forall i :: 0 <= i < |p| ==> q[i] == 1 || q[i] == p[i] {
        assert Matches(p, q) && Joined(p, q) == p;
      }
      if Fits(d, s) {
        var b := Joined(p, q);
        SizePositive(b);
        assert forall i :: 0 <= i < |p| ==> p[i] <= b[i];
        ProdAtLeast(p, b);
        forall i | 0 <= i < |p| ensures q[i] == 1 || q[i] == p[i] {
          assert b[i] == p[i];
        }
      }
    }
  }

  /** Axes on which one stands still, or at the start, do not move the pointer. */
  lemma {:induction false} DotSkips(ix: seq<int>, strides: seq<int>, m: nat)
    requires |ix| == |strides| && m <= |ix| && forall i :: 0 <= i < m ==> ix[i] == 0 || strides[i] == 0
    ensures Dot(ix, strides) == Dot(ix[m..], strides[m..])
  {
    if m > 0 {
      DotSkips(ix[1..], strides[1..], m - 1);
      assert ix[1..][m - 1..] == ix[m..] && strides[1..][m - 1..] == strides[m..];
    } else {
      assert ix[0..] == ix && strides[0..] == strides;
    }
  }

  /** An axis moves both pointers alike, or neither. */
  predicate MovesAlike(x: int, a: int, y: int, b: int) {
    (x == y && a == b) || ((x == 0 || a == 0) && (y == 0 || b == 0))
  }

  /** Two walks move the pointer alike if they do on every axis. */
  lemma {:induction false} DotAlike(ix: seq<int>, strides: seq<int>, iy: seq<int>, tides: seq<int>)
    requires |ix| == |strides| == |iy| == |tides|
    requires forall i: nat :: i < |ix| ==> MovesAlike(ix[i], strides[i], iy[i], tides[i])
    ensures Dot(ix, strides) == Dot(iy, tides)
  {
    if ix != [] {
      DotAlike(ix[1..], strides[1..], iy[1..], tides[1..]);
    }
  }

  lemma LeadingOne(n: nat, rest: seq<nat>)
    requires Positive(rest) && n < Prod(rest)
    ensures Positive([1] + rest) && Prod([1] + rest) == Prod(rest)
    ensures Digits(n, [1] + rest) == [0] + Digits(n, rest)
  {
    assert ([1] + rest)[1..] == rest;
    QuotientUnique(n, Prod(rest), 0, n);
  }

  lemma {:induction false} PaddedDigits(n: nat, dims: seq<nat>, m: nat)
    requires Positive(dims) && n < Prod(dims)
    ensures Positive(Ones(m) + dims) && Prod(Ones(m) + dims) == Prod(dims)
    ensures Digits(n, Ones(m) + dims) == Zeros(m) + Digits(n, dims)
  {
    hide Digits, Prod;
    if m == 0 {
      assert Ones(0) + dims == dims && Zeros(0) + Digits(n, dims) == Digits(n, dims);
    } else {
      var rest := Ones(m - 1) + dims;
      PaddedDigits(n, dims, m - 1);
      LeadingOne(n, rest);
      assert Ones(m) + dims == [1] + rest;
      assert Zeros(m) + Digits(n, dims) == [0] + (Zeros(m - 1) + Digits(n, dims));
    }
  }

  /** The destination is walked as it is. */
  lemma DestPlace(l: Layout, nd: nat, n: nat)
    requires |l.dims| <= nd && n < Size(l.dims)
    ensures Size(Padded(l.dims, nd)) == Size(l.dims)
    ensures Place(Stretched(l, Padded(l.dims, nd)), n) == Place(l, n)
  {
    var m, b := nd - |l.dims|, Padded(l.dims, nd);
    assert b == Ones(m) + l.dims;
    hide *;
    SizePositive(l.dims);
    SizeIs(l.dims);
    SizeIs(b);
    PaddedDigits(n, l.dims, m);
    StretchedIs(l, b);
    PlaceIs(l, n);
    PlaceIs(Stretched(l, b), n);
    var ix, t := Zeros(m) + Digits(n, l.dims), Stretched(l, b).strides;
    forall j | m <= j < nd ensures t[j] == l.strides[j - m] {
      StretchedAt(l, b, j);
    }
    DotSkips(ix, t, m);
    assert ix[m..] == Digits(n, l.dims) && t[m..] == l.strides;
  }

  /** The source shows each element of the destination the one that is seen there. */
  lemma SourcePlace(d: seq<nat>, l: Layout, n: nat)
    requires Fits(d, l.dims) && n < Size(d)
    ensures Positive(d) && Size(Broadcast(d, l.dims).value) == Size(d)
    ensures var v := Seen(Digits(n, d), l.dims);
            && InShape(v, l.dims) && 0 <= Rank(v, l.dims) < Size(l.dims)
            && Place(Stretched(l, Broadcast(d, l.dims).value), n) == Place(l, Rank(v, l.dims))
  {
    hide Broadcast, Fits, Padded, Stretched, Seen, Dot, Digits, Rank;
    SizePositive(d);
    FitsMeans(d, l.dims);
    SourceWalk(d, l, n);
    var v := Seen(Digits(n, d), l.dims);
    SeenPositive(v, l.dims);
    RankRange(v, l.dims);
    DigitsOfRank(v, l.dims);
  }

  lemma SourceWalk(d: seq<nat>, l: Layout, n: nat)
    requires Positive(d) && Fits(d, l.dims) && n < Size(d)
    ensures var b := Padded(d, Axes(d, l.dims));
            && Positive(b) && Size(b) == Size(d)
            && InShape(Seen(Digits(n, d), l.dims), l.dims)
            && Place(Stretched(l, b), n) == l.offset + Dot(Seen(Digits(n, d), l.dims), l.strides)
  {
    var b, m := Padded(d, Axes(d, l.dims)), Axes(d, l.dims) - |d|;
    assert b == Ones(m) + d;
    hide *;
    SizeIs(d);
    PaddedDigits(n, d, m);
    SizeIs(b);
    RankOfDigits(n, b);
    SeenIs(d, l.dims, Digits(n, d));
    SourceDot(l, b, Zeros(m) + Digits(n, d), Seen(Digits(n, d), l.dims));
    StretchedIs(l, b);
    PlaceIs(Stretched(l, b), n);
  }

  lemma SizeIs(dims: seq<nat>)
    ensures Size(dims) == Prod(dims)
  {
  }

  lemma PlaceIs(l: Layout, k: nat)
    requires k < Size(l.dims)
    ensures Positive(l.dims) && Place(l, k) == l.offset + Dot(Digits(k, l.dims), l.strides)
  {
    SizePositive(l.dims);
  }

  lemma StretchedIs(l: Layout, b: seq<nat>)
    requires |l.dims| <= |b|
    ensures Stretched(l, b).dims == b
    ensures Stretched(l, b) == Layout(b, Stretched(l, b).strides, l.offset, l.aligned)
  {
  }

  lemma StretchedAt(l: Layout, b: seq<nat>, j: nat)
    requires |l.dims| <= |b| && j < |b|
    ensures |Stretched(l, b).strides| == |b|
    ensures var m := |b| - |l.dims|;
            Stretched(l, b).strides[j] == if j < m || l.dims[j - m] != b[j] then 0 else l.strides[j - m]
  {
  }

  /** Walking in the common shape moves the pointer as walking to what is seen. */
  lemma SourceDot(l: Layout, b: seq<nat>, ix: seq<int>, v: seq<int>)
    requires |l.dims| <= |b| == |ix| && |v| == |l.dims|
    requires forall k: nat :: k < |v| ==> SeenOn(v[k], l.dims[k], ix[k + (|b| - |v|)], b[k + (|b| - |v|)])
    requires InShape(ix, b)
    ensures |Stretched(l, b).strides| == |b| && Dot(ix, Stretched(l, b).strides) == Dot(v, l.strides)
  {
    hide Dot, Stretched, SeenOn;
    StretchedIs(l, b);
    var m, t := |b| - |v|, Stretched(l, b).strides;
    forall j: nat | j < m ensures t[j] == 0 {
      StretchedAt(l, b, j);
    }
    DotSkips(ix, t, m);
    forall k: nat | k < |v| ensures MovesAlike(ix[m..][k], t[m..][k], v[k], l.strides[k]) {
      AxisAlike(l, b, ix, v, k);
    }
    DotAlike(ix[m..], t[m..], v, l.strides);
  }

  lemma AxisAlike(l: Layout, b: seq<nat>, ix: seq<int>, v: seq<int>, k: nat)
    requires |l.dims| <= |b| == |ix| && |v| == |l.dims| && k < |v| && InShape(ix, b)
    requires SeenOn(v[k], l.dims[k], ix[k + (|b| - |v|)], b[k + (|b| - |v|)])
    ensures MovesAlike(ix[|b| - |v|..][k], Stretched(l, b).strides[|b| - |v|..][k], v[k], l.strides[k])
  {
    StretchedAt(l, b, k + (|b| - |v|));
    hide Stretched;
  }

  lemma SeenPositive(v: seq<int>, dims: seq<nat>)
    requires InShape(v, dims)
    ensures Positive(dims)
  {
  }

  /** On an axis of length `length`, coordinate `y` is seen where the common shape has
      length `dim` and coordinate `x`. */
  predicate SeenOn(y: int, length: int, x: int, dim: int) {
    (y == x && length == dim) || (length == 1 && y == 0)
  }

  lemma SeenAt(d: seq<nat>, s: seq<nat>, v: seq<int>, k: nat)
    requires |v| == |d| && k < |s|
    requires var nd, j := Axes(d, s), k + (Axes(d, s) - |s|);
             Padded(s, nd)[j] == 1 || Padded(s, nd)[j] == Padded(d, nd)[j]
    ensures var nd, j := Axes(d, s), k + (Axes(d, s) - |s|);
            SeenOn(Seen(v, s)[k], s[k], (Zeros(nd - |d|) + v)[j], Padded(d, nd)[j])
  {
  }

  /** The coordinates seen, from those in the common shape. */
  lemma SeenIs(d: seq<nat>, s: seq<nat>, v: seq<int>)
    requires Positive(d) && Fits(d, s) && |v| == |d|
    requires var nd := Axes(d, s); InShape(Zeros(nd - |d|) + v, Padded(d, nd))
    ensures InShape(Seen(v, s), s)
    ensures var nd, m := Axes(d, s), Axes(d, s) - |s|;
            forall k: nat :: k < |s| ==>
              SeenOn(Seen(v, s)[k], s[k], (Zeros(nd - |d|) + v)[k + m], Padded(d, nd)[k + m])
  {
    SizePositive(d);
    FitsMeans(d, s);
    hide Fits, Padded, Seen, SeenOn;
    var nd, m := Axes(d, s), Axes(d, s) - |s|;
    forall k: nat | k < |s|
      ensures SeenOn(Seen(v, s)[k], s[k], (Zeros(nd - |d|) + v)[k + m], Padded(d, nd)[k + m])
      ensures 0 <= Seen(v, s)[k] < s[k]
    {
      SeenAt(d, s, v, k);
      SeenWithin(Seen(v, s)[k], s[k], (Zeros(nd - |d|) + v)[k + m], Padded(d, nd)[k + m]);
    }
  }

  lemma SeenWithin(y: int, length: int, x: int, dim: int)
    requires SeenOn(y, length, x, dim) && 0 <= x < dim
    ensures 0 <= y < length
  {
  }

  /** The number of the source element that meets element `n` of the destination. */
  function Meeting(d: seq<nat>, s: seq<nat>, n: nat): (r: nat)
    requires Fits(d, s) && n < Size(d)
    ensures r < Size(s)
  {
    SizePositive(d);
    SeenInShape(d, s, n);
    Rank(Seen(Digits(n, d), s), s)
  }

  lemma SeenInShape(d: seq<nat>, s: seq<nat>, n: nat)
    requires Fits(d, s) && n < Size(d)
    ensures Positive(d)
    ensures InShape(Seen(Digits(n, d), s), s) && 0 <= Rank(Seen(Digits(n, d), s), s) < Size(s)
  {
    SourcePlace(d, Layout(s, seq(|s|, _ => 0), 0, false), n);
  }

  /** The elements of the source, as they meet those of the destination. */
  function Spread<T>(d: seq<nat>, s: seq<nat>, items: seq<T>): (r: seq<T>)
    requires Fits(d, s) && |items| == Size(s)
    ensures |r| == Size(d)
    ensures forall n :: 0 <= n < |r| ==> r[n] == items[Meeting(d, s, n)]
  {
    seq(Size(d), n requires 0 <= n < Size(d) => items[Meeting(d, s, n)])
  }

  /** An array meets one of its own shape element by element. */
  lemma SameShapeMeets<T>(d: seq<nat>, items: seq<T>)
    requires |items| == Size(d)
    ensures Fits(d, d) && Broadcast(d, d) == Some(d) && Spread(d, d, items) == items
  {
    assert Padded(d, |d|) == d && Joined(d, d) == d;
    forall n | 0 <= n < Size(d) ensures Meeting(d, d, n) == n {
      SizePositive(d);
      RankOfDigits(n, d);
      assert Seen(Digits(n, d), d) == Digits(n, d);
    }
  }

  /** A single element without axes meets every element. */
  lemma ScalarMeets<T>(d: seq<nat>, items: seq<T>)
    requires |items| == 1
    ensures Size([]) == 1 && Fits(d, []) && Spread(d, [], items) == seq(Size(d), _ => items[0])
  {
    assert Padded(d, |d|) == d;
    assert Joined(d, Padded([], |d|)) == d;
  }

  /** Walked in the common shape, the destination shows its elements in order and the
      source those that meet them. */
  lemma WalkedTogether(dl: Layout, sl: Layout, items: map<int, Item>)
    requires Fits(dl.dims, sl.dims) && Size(dl.dims) > 0
    ensures var b := Broadcast(dl.dims, sl.dims).value;
            && Places(Stretched(dl, b)) == Places(dl)
            && Gathered(items, Places(Stretched(sl, b)))
               == Spread(dl.dims, sl.dims, Gathered(items, Places(sl)))
  {
    var b := Broadcast(dl.dims, sl.dims).value;
    FitsMeans(dl.dims, sl.dims);
    hide Broadcast, Place, Stretched, Padded, Fits, Seen;
    forall n: nat | n < Size(dl.dims)
      ensures Place(Stretched(dl, b), n) == Place(dl, n)
      ensures Place(Stretched(sl, b), n) == Place(sl, Meeting(dl.dims, sl.dims, n))
    {
      DestPlace(dl, |b|, n);
      SourcePlace(dl.dims, sl, n);
    }
  }

  /** The places that are walked in the common shape. */
  lemma PlacesTogether(dl: Layout, sl: Layout)
    requires Fits(dl.dims, sl.dims) && Size(dl.dims) > 0
    ensures var b := Broadcast(dl.dims, sl.dims).value;
            && Places(Stretched(dl, b)) == Places(dl)
            && forall p :: p in Places(Stretched(sl, b)) ==> p in Places(sl)
  {
    hide Broadcast, Place, Stretched, Fits, Meeting;
    FitsSize(dl, sl);
    var b := Broadcast(dl.dims, sl.dims).value;
    WalkedTogether(dl, sl, map[]);
    forall p | p in Places(Stretched(sl, b)) ensures p in Places(sl) {
      var n: nat :| n < |Places(Stretched(sl, b))| && Places(Stretched(sl, b))[n] == p;
      MeetingPlace(dl.dims, sl, n);
      assert Places(sl)[Meeting(dl.dims, sl.dims, n)] == p;
    }
  }

  lemma FitsSize(dl: Layout, sl: Layout)
    requires Fits(dl.dims, sl.dims)
    ensures Broadcast(dl.dims, sl.dims).Some?
    ensures var b := Broadcast(dl.dims, sl.dims).value;
            |sl.dims| <= |b| && Size(Stretched(sl, b).dims) == Size(b) == Size(dl.dims)
  {
  }

  lemma MeetingPlace(d: seq<nat>, l: Layout, n: nat)
    requires Fits(d, l.dims) && n < Size(d)
    ensures Place(Stretched(l, Broadcast(d, l.dims).value), n) == Place(l, Meeting(d, l.dims, n))
  {
    hide Fits, Broadcast, Stretched, Seen, Place;
    SourcePlace(d, l, n);
  }

  // ----- The loops

  /** One axis of the common shape, after the axis of one more array. */
  method JoinAxis(dim: nat, dims: seq<nat>, k: int) returns (r: Option<nat>)
    requires k < |dims|
    ensures r == if k < 0 || dims[k] == 1 then Some(dim)
                 else if dim == 1 || dim == dims[k] then Some(dims[k])
                 else None
  {
    if k >= 0 {
      var tmp := dims[k];
      if tmp == 1 {
        return Some(dim);
      }
      if dim == 1 {
        return Some(tmp);
      } else if dim != tmp {
        return None;
      }
    }
    return Some(dim);
  }

  /** The first loop of `NpyArray_Broadcast`, for two arrays. */
  method BroadcastShape(d: seq<nat>, s: seq<nat>) returns (r: Option<seq<nat>>)
    ensures r == Broadcast(d, s)
  {
    var nd := Axes(d, s);
    ghost var p, q := Padded(d, nd), Padded(s, nd);
    var dims: seq<nat> := [];
    for i := 0 to nd
      invariant |dims| == i && forall j :: 0 <= j < i ==> dims[j] == Joined(p, q)[j]
      invariant forall j :: 0 <= j < i ==> p[j] == 1 || q[j] == 1 || p[j] == q[j]
    {
      var first := JoinAxis(1, d, i + |d| - nd);
      assert first == Some(p[i]);
      var both := JoinAxis(first.value, s, i + |s| - nd);
      if both.None? {
        assert !(p[i] == 1 || q[i] == 1 || p[i] == q[i]);
        return None;
      }
      dims := dims + [both.value];
    }
    assert dims == Joined(p, q);
    return Some(dims);
  }

  /** The stride loop of `NpyArray_Broadcast`. */
  method StretchedStrides(l: Layout, b: seq<nat>) returns (strides: seq<int>)
    requires |l.dims| <= |b|
    ensures strides == Stretched(l, b).strides
  {
    strides := [];
    for j := 0 to |b|
      invariant strides == Stretched(l, b).strides[..j]
    {
      var k := j + |l.dims| - |b|;
      if k < 0 || l.dims[k] != b[j] {
        strides := strides + [0];
      } else {
        strides := strides + [l.strides[k]];
      }
    }
  }
}
