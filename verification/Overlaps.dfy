/**
 Copying item by item between arrays that may share memory: the order in which the
 elements are visited, and what becomes of items that are overwritten before they are
 read (libndarray/src/npy_ctors.c, npy_iterators.c).
 */
module Overlaps {
  import opened CInt
  import opened Shape
  import opened Storage

  // ----- Item by item

  function Read(items: map<int, Item>, p: int): Item {
    if p in items then items[p] else []
  }

  /** Each item is read when the ones before it have been written. */
  function InTurn(items: map<int, Item>, to: seq<int>, from: seq<int>): map<int, Item>
    requires |to| == |from|
  {
    if to == [] then items
    else
      var n := |to| - 1;
      var before := InTurn(items, to[..n], from[..n]);
      before[to[n] := Read(before, from[n])]
  }

  /** No step reads a place that an earlier step has overwritten with another item. */
  ghost predicate Clean(to: seq<int>, from: seq<int>)
    requires |to| == |from|
  {
    forall i, j :: 0 <= i < j < |to| && to[i] == from[j] ==> from[i] == to[i]
  }

  lemma {:induction false} InTurnKeys(items: map<int, Item>, to: seq<int>, from: seq<int>)
    requires |to| == |from|
    ensures forall p :: p in InTurn(items, to, from) <==> p in items || p in to
    ensures forall p :: p in items && p !in to ==> InTurn(items, to, from)[p] == items[p]
  {
    if to != [] {
      var n := |to| - 1;
      InTurnKeys(items, to[..n], from[..n]);
      assert to == to[..n] + [to[n]];
    }
  }

  /** What is written stays: the places are different. */
  lemma {:induction false} TurnAt(items: map<int, Item>, to: seq<int>, from: seq<int>, t: nat)
    requires |to| == |from| && Distinct(to) && t < |to|
    ensures to[t] in InTurn(items, to, from)
    ensures InTurn(items, to, from)[to[t]] == Read(InTurn(items, to[..t], from[..t]), from[t])
    decreases |to|
  {
    var n := |to| - 1;
    if t < n {
      assert to[..n][..t] == to[..t] && from[..n][..t] == from[..t];
      TurnAt(items, to[..n], from[..n], t);
    }
  }

  /** If no step before `j` went wrong and the item at `from[j]` was not overwritten by
      another one, it is the original. */
  lemma {:induction false} ReadsOriginal(items: map<int, Item>, to: seq<int>, from: seq<int>, j: nat)
    requires |to| == |from| && Distinct(to) && j < |to| && Clean(to[..j], from[..j])
    requires forall i :: 0 <= i < j && to[i] == from[j] ==> from[i] == to[i]
    ensures Read(InTurn(items, to[..j], from[..j]), from[j]) == Read(items, from[j])
    decreases j
  {
    InTurnKeys(items, to[..j], from[..j]);
    if i :| 0 <= i < j && to[i] == from[j] {
      assert to[..j][..i] == to[..i] && from[..j][..i] == from[..i];
      TurnAt(items, to[..j], from[..j], i);
      CleanPrefix(to, from, j, i);
      ReadsOriginal(items, to, from, i);
    }
  }

  lemma CleanPrefix(to: seq<int>, from: seq<int>, j: nat, i: nat)
    requires |to| == |from| && i < j <= |to| && Clean(to[..j], from[..j])
    ensures Clean(to[..i], from[..i])
    ensures forall k :: 0 <= k < i && to[k] == from[i] ==> from[k] == to[k]
  {
    forall k, l | 0 <= k < l <= i && to[k] == from[l] ensures from[k] == to[k] {
      assert to[..j][k] == from[..j][l];
    }
  }

  lemma CleanDelivers(items: map<int, Item>, to: seq<int>, from: seq<int>)
    requires |to| == |from| && Distinct(to) && Clean(to, from)
    ensures Gathered(InTurn(items, to, from), to) == Gathered(items, from)
  {
    assert to[..|to|] == to && from[..|to|] == from;
    forall t: nat | t < |to| ensures Gathered(InTurn(items, to, from), to)[t] == Gathered(items, from)[t] {
      TurnAt(items, to, from, t);
      CleanPrefix(to, from, |to|, t);
      ReadsOriginal(items, to, from, t);
    }
  }

  lemma CleanMore(to: seq<int>, from: seq<int>, n: nat)
    requires |to| == |from| == n + 1 && Clean(to[..n], from[..n])
    requires forall k :: 0 <= k < n && to[k] == from[n] ==> from[k] == to[k]
    ensures Clean(to, from)
  {
    forall i, j | 0 <= i < j < |to| && to[i] == from[j] ensures from[i] == to[i] {
      if j < n {
        assert to[..n][i] == from[..n][j];
      }
    }
  }

  /** The first step that reads an item that another one has replaced. */
  lemma {:induction false} FirstWrong(to: seq<int>, from: seq<int>) returns (i: nat, j: nat)
    requires |to| == |from| && !Clean(to, from)
    ensures i < j < |to| && to[i] == from[j] && from[i] != to[i] && Clean(to[..j], from[..j])
    decreases |to|
  {
    var n := |to| - 1;
    if !Clean(to[..n], from[..n]) {
      i, j := FirstWrong(to[..n], from[..n]);
      assert to[..n][..j] == to[..j] && from[..n][..j] == from[..j];
    } else {
      if forall k :: 0 <= k < n && to[k] == from[n] ==> from[k] == to[k] {
        CleanMore(to, from, n);
      }
      i :| 0 <= i < n && to[i] == from[n] && from[i] != to[i];
      j := n;
    }
  }

  /** One item differs from all others. */
  ghost function Marked(keys: set<int>, p: int): map<int, Item> {
    map q | q in keys :: if q == p then [0] else [1]
  }

  /** What step `j` reads is what step `i` wrote there. */
  lemma ReadsWritten(items: map<int, Item>, to: seq<int>, from: seq<int>, i: nat, j: nat)
    requires |to| == |from| && Distinct(to) && i < j < |to| && to[i] == from[j] && Clean(to[..j], from[..j])
    ensures to[j] in InTurn(items, to, from) && InTurn(items, to, from)[to[j]] == Read(items, from[i])
  {
    TurnAt(items, to, from, j);
    assert to[..j][..i] == to[..i] && from[..j][..i] == from[..i];
    TurnAt(items, to[..j], from[..j], i);
    CleanPrefix(to, from, j, i);
    ReadsOriginal(items, to, from, i);
  }

  lemma DirtyFails(keys: set<int>, to: seq<int>, from: seq<int>) returns (items: map<int, Item>)
    requires |to| == |from| && Distinct(to) && !Clean(to, from)
    requires forall p :: p in from ==> p in keys
    ensures items.Keys == keys && Gathered(InTurn(items, to, from), to) != Gathered(items, from)
  {
    var i, j := FirstWrong(to, from);
    items := Marked(keys, from[j]);
    ReadsWritten(items, to, from, i, j);
    hide InTurn, Clean, Distinct;
    assert from[i] in from && from[j] in from;
    assert Gathered(InTurn(items, to, from), to)[j] == [1] != Gathered(items, from)[j];
  }

  /** Copying item by item delivers every item that memory may hold, exactly if it is
      clean. */
  lemma InTurnExact(keys: set<int>, to: seq<int>, from: seq<int>)
    requires |to| == |from| && Distinct(to) && forall p :: p in from ==> p in keys
    ensures (forall items: map<int, Item> :: items.Keys == keys ==>
               Gathered(InTurn(items, to, from), to) == Gathered(items, from))
            <==> Clean(to, from)
  {
    if Clean(to, from) {
      forall items: map<int, Item> | items.Keys == keys
        ensures Gathered(InTurn(items, to, from), to) == Gathered(items, from)
      {
        CleanDelivers(items, to, from);
      }
    } else {
      var items := DirtyFails(keys, to, from);
    }
  }

  function Along(n: nat, start: int, stride: int): (r: seq<int>)
    ensures |r| == n && forall t :: 0 <= t < n ==> r[t] == start + t * stride
  {
    seq(n, t => start + t * stride)
  }

  /** Along one axis, with the same stride, it is clean exactly unless the destination
      starts at a later one of the source's own items. */
  lemma OneAxisClean(n: nat, to: int, from: int, stride: int)
    requires stride != 0
    ensures Clean(Along(n, to, stride), Along(n, from, stride))
            <==> !exists q: nat :: 0 < q < n && Along(n, from, stride)[q] == to
  {
    var a, b := Along(n, to, stride), Along(n, from, stride);
    if q: nat :| 0 < q < n && b[q] == to {
      StepsAway(q, stride);
      assert a[0] == to + 0 * stride && b[0] == from + 0 * stride;
      assert a[0] == b[q] && b[0] != a[0];
    }
    if i, j :| 0 <= i < j < n && a[i] == b[j] && b[i] != a[i] {
      Distribute(stride, j, i);
      assert b[j - i] == to;
    }
  }

  /** Copying to the next item over and over repeats the first one. */
  lemma {:induction false} Smears(items: map<int, Item>, n: nat, start: int, stride: int)
    requires start in items
    ensures var r := InTurn(items, Along(n, start + stride, stride), Along(n, start, stride));
            forall p :: p in Along(n + 1, start, stride) ==> p in r && r[p] == items[start]
    decreases n
  {
    if n == 0 {
      AlongPrefix(0, start, stride);
    } else {
      Smears(items, n - 1, start, stride);
      var p, q := LastStep(n, start, stride);
      hide Along, InTurn;
      var to, from := Along(n - 1, start + stride, stride), Along(n - 1, start, stride);
      InTurnLast(items, to, from, p, q);
      SmearMore(InTurn(items, to, from), from + [q], p, q, items[start]);
    }
  }

  /** The last place that is written, and the last one that is read. */
  lemma LastStep(n: nat, start: int, stride: int) returns (p: int, q: int)
    requires n > 0
    ensures Along(n, start + stride, stride) == Along(n - 1, start + stride, stride) + [p]
    ensures Along(n, start, stride) == Along(n - 1, start, stride) + [q]
    ensures Along(n + 1, start, stride) == Along(n, start, stride) + [p]
  {
    AlongPrefix(n - 1, start + stride, stride);
    AlongPrefix(n - 1, start, stride);
    AlongPrefix(n, start, stride);
    NextItem(n - 1, start, stride);
    p, q := start + n * stride, start + (n - 1) * stride;
  }

  lemma SmearMore(items: map<int, Item>, places: seq<int>, p: int, q: int, first: Item)
    requires q in places && forall x :: x in places ==> x in items && items[x] == first
    ensures var r := items[p := Read(items, q)]; forall x :: x in places + [p] ==> x in r && r[x] == first
  {
  }

  lemma InTurnLast(items: map<int, Item>, to: seq<int>, from: seq<int>, p: int, q: int)
    requires |to| == |from|
    ensures InTurn(items, to + [p], from + [q])
            == InTurn(items, to, from)[p := Read(InTurn(items, to, from), q)]
  {
    assert (to + [p])[..|to|] == to && (from + [q])[..|to|] == from;
  }

  lemma AlongPrefix(n: nat, start: int, stride: int)
    ensures Along(n + 1, start, stride)[..n] == Along(n, start, stride)
    ensures Along(n + 1, start, stride) == Along(n, start, stride) + [start + n * stride]
  {
  }

  lemma NextItem(t: int, start: int, stride: int)
    ensures start + stride + t * stride == start + (t + 1) * stride
  {
  }

  lemma StepsAway(q: int, stride: int)
    requires q > 0 && stride != 0
    ensures q * stride != 0
  {
  }

  // ----- The order of the visits

  /** The number of the element that is visited as number `t`: the lines along `axis`
      in row-major order, and each line from its start. */
  function Visit(dims: seq<nat>, axis: nat, t: nat): (r: nat)
    requires axis < |dims| && t < Size(dims)
    ensures r < Size(dims)
  {
    VisitIn(dims, axis, t);
    Rank(Digits(t / dims[axis], dims[axis := 1])[axis := t % dims[axis]], dims)
  }

  lemma ProdSet(dims: seq<int>, axis: nat, d: int)
    requires axis < |dims|
    ensures Prod(dims[axis := d]) == Prod(dims[..axis]) * d * Prod(dims[axis + 1..])
  {
    var e := dims[axis := d];
    assert e == dims[..axis] + ([d] + dims[axis + 1..]);
    ProdAppend(dims[..axis], [d] + dims[axis + 1..]);
    assert ([d] + dims[axis + 1..])[1..] == dims[axis + 1..];
    assert Prod(dims[..axis]) * (d * Prod(dims[axis + 1..])) == Prod(dims[..axis]) * d * Prod(dims[axis + 1..]);
  }

  /** The lines and their length. */
  lemma ProdLines(dims: seq<nat>, axis: nat)
    requires axis < |dims|
    ensures Prod(dims) == Prod(dims[axis := 1]) * dims[axis]
  {
    ProdSet(dims, axis, dims[axis]);
    ProdSet(dims, axis, 1);
    assert dims[axis := dims[axis]] == dims;
    hide Prod;
    Reorder(Prod(dims[..axis]), dims[axis], Prod(dims[axis + 1..]));
  }

  lemma Reorder(a: int, n: int, b: int)
    ensures a * n * b == a * 1 * b * n
  {
    assert a * n * b == a * (n * b) == a * (b * n) == a * b * n;
  }

  lemma QuotientBelow(t: nat, m: nat, n: nat)
    requires t < m * n && n > 0
    ensures 0 <= t / n < m && 0 <= t % n < n && t == t / n * n + t % n
  {
    if t / n >= m {
      ProductMonotone(m, t / n, n);
    }
  }

  lemma VisitIn(dims: seq<nat>, axis: nat, t: nat)
    requires axis < |dims| && t < Size(dims)
    ensures Positive(dims) && Positive(dims[axis := 1])
    ensures 0 <= t / dims[axis] < Prod(dims[axis := 1])
    ensures var c := Digits(t / dims[axis], dims[axis := 1]);
            && InShape(c, dims[axis := 1]) && c[axis] == 0
            && InShape(c[axis := t % dims[axis]], dims)
            && 0 <= Rank(c[axis := t % dims[axis]], dims) < Size(dims)
  {
    SizePositive(dims);
    ProdLines(dims, axis);
    QuotientBelow(t, Prod(dims[axis := 1]), dims[axis]);
    RankOfDigits(t / dims[axis], dims[axis := 1]);
    RankRange(Digits(t / dims[axis], dims[axis := 1])[axis := t % dims[axis]], dims);
  }

  /** The coordinates of a visit are those of its line, and the way along it. */
  lemma VisitDigits(dims: seq<nat>, axis: nat, t: nat)
    requires axis < |dims| && t < Size(dims)
    ensures Positive(dims) && Positive(dims[axis := 1])
    ensures Digits(Visit(dims, axis, t), dims) == Digits(t / dims[axis], dims[axis := 1])[axis := t % dims[axis]]
  {
    VisitIn(dims, axis, t);
    DigitsOfRank(Digits(t / dims[axis], dims[axis := 1])[axis := t % dims[axis]], dims);
  }

  /** Coordinates with the one on `axis` put apart are told by both parts. */
  lemma PartsTell(c: seq<int>, e: seq<int>, axis: nat, x: int, y: int)
    requires |c| == |e| && axis < |c| && c[axis] == 0 == e[axis] && c[axis := x] == e[axis := y]
    ensures c == e && x == y
  {
    assert c[axis := x][axis] == x && e[axis := y][axis] == y;
    assert c == c[axis := x][axis := 0] && e == e[axis := y][axis := 0];
  }

  /** No element is visited twice. */
  lemma VisitOnce(dims: seq<nat>, axis: nat, t: nat, u: nat)
    requires axis < |dims| && t < Size(dims) && u < Size(dims) && Visit(dims, axis, t) == Visit(dims, axis, u)
    ensures t == u
  {
    hide *;
    var n, lines := dims[axis], dims[axis := 1];
    VisitDigits(dims, axis, t);
    VisitDigits(dims, axis, u);
    VisitIn(dims, axis, t);
    VisitIn(dims, axis, u);
    AxisPositive(dims, axis);
    PartsTell(Digits(t / n, lines), Digits(u / n, lines), axis, t % n, u % n);
    RankOfDigits(t / n, lines);
    RankOfDigits(u / n, lines);
    assert t == t / n * n + t % n && u == u / n * n + u % n;
  }

  lemma AxisPositive(dims: seq<int>, axis: nat)
    requires Positive(dims) && axis < |dims|
    ensures dims[axis] > 0
  {
  }

  /** Every element is visited. */
  lemma VisitBack(dims: seq<nat>, axis: nat, r: nat) returns (t: nat)
    requires axis < |dims| && r < Size(dims)
    ensures t < Size(dims) && Visit(dims, axis, t) == r
  {
    SizePositive(dims);
    RankOfDigits(r, dims);
    var n, lines, c := dims[axis], dims[axis := 1], Digits(r, dims);
    var line := c[axis := 0];
    assert InShape(line, lines) && 0 <= c[axis] < n && line[axis := c[axis]] == c;
    hide Digits, Rank, Prod;
    RankRange(line, lines);
    DigitsOfRank(line, lines);
    ProdLines(dims, axis);
    var q := Rank(line, lines);
    t := q * n + c[axis];
    LineBelow(q, Prod(lines), n, c[axis]);
    QuotientUnique(t, n, q, c[axis]);
    SizeIsProd(dims);
    hide Size;
    assert Digits(t / n, lines)[axis := t % n] == c;
  }

  lemma SizeIsProd(dims: seq<nat>)
    ensures Size(dims) == Prod(dims)
  {
  }

  lemma LineBelow(q: nat, m: nat, n: nat, x: nat)
    requires q < m && x < n
    ensures q * n + x < m * n && q * n == n * q
  {
    ProductMonotone(q + 1, m, n);
    assert (q + 1) * n == q * n + n;
  }

  lemma {:induction false} DotSet(ix: seq<int>, strides: seq<int>, i: nat, x: int)
    requires |ix| == |strides| && i < |ix| && ix[i] == 0
    ensures Dot(ix[i := x], strides) == Dot(ix, strides) + x * strides[i]
  {
    if i > 0 {
      DotSet(ix[1..], strides[1..], i - 1, x);
      assert ix[i := x][1..] == ix[1..][i - 1 := x];
    } else {
      assert ix[0 := x][1..] == ix[1..];
    }
  }

  /** Where line `o` along `axis` starts. */
  function LineStart(l: Layout, axis: nat, o: nat): int
    requires axis < |l.dims| && Positive(l.dims[axis := 1])
  {
    l.offset + Dot(Digits(o, l.dims[axis := 1]), l.strides)
  }

  /** There are as many lines as the length of each goes into the size. */
  lemma LinesFit(dims: seq<nat>, axis: nat)
    requires axis < |dims| && Size(dims) > 0
    ensures dims[axis] > 0 && Positive(dims[axis := 1])
    ensures Size(dims) == Size(dims) / dims[axis] * dims[axis]
  {
    SizePositive(dims);
    ProdLines(dims, axis);
    QuotientUnique(Size(dims), dims[axis], Prod(dims[axis := 1]), 0);
  }

  /** Along a line the pointer moves by the stride of the axis. */
  lemma LinePlace(l: Layout, axis: nat, o: nat, x: nat)
    requires axis < |l.dims| && x < l.dims[axis] && o * l.dims[axis] + x < Size(l.dims)
    ensures Positive(l.dims[axis := 1])
    ensures Place(l, Visit(l.dims, axis, o * l.dims[axis] + x)) == LineStart(l, axis, o) + x * l.strides[axis]
  {
    hide Digits, Dot;
    var n := l.dims[axis];
    var t := o * n + x;
    assert o * n == n * o;
    QuotientUnique(t, n, o, x);
    VisitIn(l.dims, axis, t);
    VisitDigits(l.dims, axis, t);
    DotSet(Digits(o, l.dims[axis := 1]), l.strides, axis, x);
  }

  /** The places of the elements in the order of the visits. */
  function VisitedPlaces(l: Layout, axis: nat): (r: seq<int>)
    requires axis < |l.dims|
    ensures |r| == Size(l.dims)
    ensures forall t :: 0 <= t < |r| ==> r[t] == Place(l, Visit(l.dims, axis, t))
  {
    seq(Size(l.dims), t requires 0 <= t < Size(l.dims) => Place(l, Visit(l.dims, axis, t)))
  }

  /** The visits reach the same places as the row-major walk, each once. */
  lemma VisitedAll(l: Layout, axis: nat)
    requires axis < |l.dims|
    ensures forall p :: p in VisitedPlaces(l, axis) <==> p in Places(l)
    ensures Distinct(Places(l)) ==> Distinct(VisitedPlaces(l, axis))
  {
    hide Place, Visit;
    var v := VisitedPlaces(l, axis);
    forall p | p in Places(l) ensures p in v {
      var r: nat :| r < |Places(l)| && Places(l)[r] == p;
      var t := VisitBack(l.dims, axis, r);
      assert v[t] == p;
    }
    forall p | p in v ensures p in Places(l) {
      var t: nat :| t < |v| && v[t] == p;
      assert Places(l)[Visit(l.dims, axis, t)] == p;
    }
    if Distinct(Places(l)) {
      forall t: nat, u: nat | t < u < |v| ensures v[t] != v[u] {
        if v[t] == v[u] {
          assert Places(l)[Visit(l.dims, axis, t)] == Places(l)[Visit(l.dims, axis, u)];
          VisitOnce(l.dims, axis, t, u);
        }
      }
    }
  }

  /** What is delivered in the order of the visits is delivered in row-major order. */
  lemma VisitedSame(dl: Layout, sl: Layout, axis: nat, items': map<int, Item>, items: map<int, Item>)
    requires dl.dims == sl.dims && axis < |dl.dims|
    ensures Gathered(items', VisitedPlaces(dl, axis)) == Gathered(items, VisitedPlaces(sl, axis))
            <==> Gathered(items', Places(dl)) == Gathered(items, Places(sl))
  {
    hide Place, Visit;
    var a, b := Gathered(items', VisitedPlaces(dl, axis)), Gathered(items, VisitedPlaces(sl, axis));
    var c, e := Gathered(items', Places(dl)), Gathered(items, Places(sl));
    forall t: nat | t < |a| ensures a[t] == c[Visit(dl.dims, axis, t)] && b[t] == e[Visit(dl.dims, axis, t)] {
    }
    if a == b {
      forall r: nat | r < |c| ensures c[r] == e[r] {
        var t := VisitBack(dl.dims, axis, r);
        assert a[t] == b[t];
      }
    }
  }

  /** One axis is one line. */
  lemma OneAxisVisited(l: Layout)
    requires |l.dims| == 1
    ensures VisitedPlaces(l, 0) == Places(l) == Along(Size(l.dims), l.offset, l.strides[0])
  {
    forall t: nat | t < Size(l.dims)
      ensures Visit(l.dims, 0, t) == t && Place(l, t) == l.offset + t * l.strides[0]
    {
      OneAxisPlace(l, t);
      OneAxisVisit(l.dims, t);
    }
  }

  lemma OneAxisPlace(l: Layout, t: nat)
    requires |l.dims| == 1 && t < Size(l.dims)
    ensures Place(l, t) == l.offset + t * l.strides[0]
  {
    FewAxes(l.dims, t);
    assert Digits(t, l.dims)[1..] == [] && l.strides[1..] == [];
    assert Dot(Digits(t, l.dims), l.strides) == t * l.strides[0];
  }

  lemma OneAxisVisit(dims: seq<nat>, t: nat)
    requires |dims| == 1 && t < Size(dims)
    ensures Visit(dims, 0, t) == t
  {
    var n := dims[0];
    assert dims == [n];
    OneAxis(1, 0);
    FewAxes(dims, t);
    OneAxis(n, t);
    QuotientUnique(t, n, 0, t);
    VisitIn(dims, 0, t);
    assert dims[0 := 1] == [1] && [0][0 := t] == [t];
    hide Rank, Digits;
  }

  // ----- The axis that is taken innermost

  function FirstStride(strides: seq<int>): int {
    if strides == [] then 0 else if strides[0] != 0 then strides[0] else FirstStride(strides[1..])
  }

  function LeastFrom(strides: seq<int>, i: nat, axis: nat, least: int): (r: nat)
    requires 0 < i && i <= |strides| && axis < i
    ensures r < |strides|
    decreases |strides| - i
  {
    if i == |strides| then axis
    else if strides[i] > 0 && strides[i] < least then LeastFrom(strides, i + 1, i, strides[i])
    else LeastFrom(strides, i + 1, axis, least)
  }

  /** `NpyArray_IterAllButAxis`: a later axis is taken for a smaller positive stride. */
  function LeastAxis(strides: seq<int>): (r: nat)
    requires strides != []
    ensures r < |strides|
  {
    LeastFrom(strides, 1, 0, FirstStride(strides))
  }

  /** The first stride that is not 0, if there is one. */
  lemma {:induction false} FirstStrideIs(strides: seq<int>)
    ensures if forall i :: 0 <= i < |strides| ==> strides[i] == 0 then FirstStride(strides) == 0
            else exists j :: 0 <= j < |strides| && strides[j] == FirstStride(strides) != 0
                             && forall i :: 0 <= i < j ==> strides[i] == 0
  {
    if strides != [] {
      var rest := strides[1..];
      FirstStrideIs(rest);
      if strides[0] == 0 {
        if !forall i :: 0 <= i < |rest| ==> rest[i] == 0 {
          var j :| 0 <= j < |rest| && rest[j] == FirstStride(rest) != 0 && forall i :: 0 <= i < j ==> rest[i] == 0;
          assert strides[j + 1] == FirstStride(strides);
        }
        assert forall i :: 0 < i < |strides| ==> strides[i] == rest[i - 1];
      }
    }
  }

  /** Among the first `n` axes `axis` is the first one with the least positive stride, if
      that is below the first stride that is not 0; otherwise it is the first axis. */
  ghost predicate IsLeast(strides: seq<int>, n: nat, axis: nat)
    requires axis < n <= |strides|
  {
    var least := if axis == 0 then FirstStride(strides) else strides[axis];
    && (axis > 0 ==> 0 < strides[axis] < FirstStride(strides))
    && (forall i :: 1 <= i < n && strides[i] > 0 ==> least <= strides[i])
    && (forall i :: 1 <= i < axis && strides[i] > 0 ==> least < strides[i])
  }

  lemma {:induction false} LeastFromIs(strides: seq<int>, i: nat, axis: nat)
    requires axis < i <= |strides| && IsLeast(strides, i, axis)
    ensures var r := LeastFrom(strides, i, axis, if axis == 0 then FirstStride(strides) else strides[axis]);
            IsLeast(strides, |strides|, r)
    decreases |strides| - i
  {
    hide FirstStride;
    if i < |strides| {
      var least := if axis == 0 then FirstStride(strides) else strides[axis];
      LeastFromIs(strides, i + 1, if strides[i] > 0 && strides[i] < least then i else axis);
    }
  }

  lemma LeastAxisIs(strides: seq<int>)
    requires strides != []
    ensures IsLeast(strides, |strides|, LeastAxis(strides))
  {
    LeastFromIs(strides, 1, 0);
  }

  method FindLeastAxis(strides: seq<int>) returns (axis: nat)
    requires strides != []
    ensures axis == LeastAxis(strides) && IsLeast(strides, |strides|, axis)
  {
    LeastAxisIs(strides);
    var least, i := 0, 0;
    assert strides[0..] == strides;
    while least == 0 && i < |strides|
      invariant 0 <= i <= |strides| && FirstStride(strides) == if least != 0 then least else FirstStride(strides[i..])
    {
      least := strides[i];
      i := i + 1;
    }
    axis := 0;
    for k := 1 to |strides|
      invariant axis < k && LeastFrom(strides, k, axis, least) == LeastAxis(strides)
    {
      if strides[k] > 0 && strides[k] < least {
        axis, least := k, strides[k];
      }
    }
  }

  /** `NpyArray_RemoveSmallest`: the first axis with the smallest sum of strides. */
  ghost predicate IsSmallest(a: seq<int>, b: seq<int>, axis: nat)
    requires |a| == |b|
  {
    && axis < |a|
    && (forall i :: 0 <= i < |a| ==> a[axis] + b[axis] <= a[i] + b[i])
    && (forall i :: 0 <= i < axis ==> a[axis] + b[axis] < a[i] + b[i])
  }

  function SmallestFrom(a: seq<int>, b: seq<int>, i: nat, axis: nat): (r: nat)
    requires |a| == |b| && axis < i <= |a|
    ensures r < |a|
    decreases |a| - i
  {
    if i == |a| then axis
    else SmallestFrom(a, b, i + 1, if a[i] + b[i] < a[axis] + b[axis] then i else axis)
  }

  function SmallestAxis(a: seq<int>, b: seq<int>): (r: nat)
    requires |a| == |b| && a != []
    ensures r < |a|
  {
    SmallestFrom(a, b, 1, 0)
  }

  lemma {:induction false} SmallestFromIs(a: seq<int>, b: seq<int>, i: nat, axis: nat)
    requires |a| == |b| && axis < i <= |a| && IsSmallest(a[..i], b[..i], axis)
    ensures IsSmallest(a, b, SmallestFrom(a, b, i, axis))
    decreases |a| - i
  {
    if i == |a| {
      assert a[..i] == a && b[..i] == b;
    } else {
      var next := if a[i] + b[i] < a[axis] + b[axis] then i else axis;
      forall k | 0 <= k < i ensures a[..i + 1][k] == a[..i][k] && b[..i + 1][k] == b[..i][k] {
      }
      SmallestFromIs(a, b, i + 1, next);
    }
  }

  method FindSmallestAxis(a: seq<int>, b: seq<int>) returns (axis: nat)
    requires |a| == |b| && a != []
    ensures axis == SmallestAxis(a, b) && IsSmallest(a, b, axis)
  {
    SmallestFromIs(a, b, 1, 0);
    axis := 0;
    var smallest := a[0] + b[0];
    for i := 1 to |a|
      invariant axis < i && smallest == a[axis] + b[axis] && SmallestFrom(a, b, i, axis) == SmallestAxis(a, b)
    {
      if a[i] + b[i] < smallest {
        axis := i;
        smallest := a[i] + b[i];
      }
    }
  }
}
