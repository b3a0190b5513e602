/**
 Where the elements of an array lie in a block of memory, one by one and as one
 run, and what reading and writing them does (libndarray/src/npy_ctors.c).
 */
module Storage {
  import opened CInt
  import opened NdArray
  import opened Shape

  type Item = seq<bv8>
  type ItemSize = n: nat | n > 0 witness 1

  datatype LayoutData = Layout(dims: seq<nat>, strides: seq<int>, offset: int, aligned: bool)

  /** Shape, strides and first byte; `aligned` is the answer of the alignment test. */
  type Layout = l: LayoutData | |l.dims| == |l.strides| witness Layout([], [], 0, false)

  lemma {:induction false} SizePositive(dims: seq<nat>)
    ensures Prod(dims) >= 0 && (Prod(dims) > 0 <==> Positive(dims))
  {
    if dims != [] {
      SizePositive(dims[1..]);
      ProductMonotone(0, dims[0], Prod(dims[1..]));
      if Positive(dims[1..]) && dims[0] > 0 {
        ProductAtLeast(Prod(dims[1..]), dims[0]);
        assert forall i :: 0 < i < |dims| ==> dims[i] == dims[1..][i - 1];
      } else if !Positive(dims[1..]) {
        assert Prod(dims[1..]) == 0;
      }
    }
  }

  /** The number of elements. */
  function Size(dims: seq<nat>): nat {
    SizePositive(dims);
    Prod(dims)
  }

  /** Where the element with the row-major number `k` lies. */
  function Place(l: Layout, k: nat): int
    requires k < Size(l.dims)
  {
    SizePositive(l.dims);
    l.offset + Dot(Digits(k, l.dims), l.strides)
  }

  function Places(l: Layout): (r: seq<int>)
    ensures |r| == Size(l.dims)
    ensures forall k :: 0 <= k < |r| ==> r[k] == Place(l, k)
  {
    seq(Size(l.dims), k requires 0 <= k < Size(l.dims) => Place(l, k))
  }

  /** As many consecutive items as the array has elements. */
  function Run(l: Layout, elsize: ItemSize): (r: seq<int>)
    ensures |r| == Size(l.dims)
    ensures forall j :: 0 <= j < |r| ==> r[j] == l.offset + j * elsize
  {
    seq(Size(l.dims), j => l.offset + j * elsize)
  }

  ghost predicate COrder(elsize: ItemSize, l: Layout) {
    CContiguous(l.dims, l.strides, elsize)
  }

  ghost predicate FOrder(elsize: ItemSize, l: Layout) {
    FContiguous(l.dims, l.strides, elsize)
  }

  // ----- Two ways to list elements

  /** The row-major number of the element with the column-major number `j`. */
  function FIndex(j: nat, dims: seq<nat>): (r: nat)
    requires j < Size(dims)
    ensures r < Size(dims)
  {
    SizePositive(dims);
    FRankOfFDigits(j, dims);
    RankRange(FDigits(j, dims), dims);
    Rank(FDigits(j, dims), dims)
  }

  /** The column-major number of the element with the row-major number `k`. */
  function FBack(k: nat, dims: seq<nat>): (r: nat)
    requires k < Size(dims)
    ensures r < Size(dims)
  {
    SizePositive(dims);
    RankOfDigits(k, dims);
    FRankRange(Digits(k, dims), dims);
    FRank(Digits(k, dims), dims)
  }

  lemma FIndexBack(k: nat, dims: seq<nat>)
    requires k < Size(dims)
    ensures FIndex(FBack(k, dims), dims) == k && FBack(FIndex(k, dims), dims) == k
  {
    SizePositive(dims);
    RankOfDigits(k, dims);
    FDigitsOfFRank(Digits(k, dims), dims);
    FRankOfFDigits(k, dims);
    DigitsOfRank(FDigits(k, dims), dims);
  }

  /** Elements given in row-major order, listed in row- or column-major order. */
  function Listed<T>(fortran: bool, dims: seq<nat>, s: seq<T>): (r: seq<T>)
    requires |s| == Size(dims)
    ensures |r| == |s|
    ensures forall j :: 0 <= j < |r| ==> r[j] == if fortran then s[FIndex(j, dims)] else s[j]
  {
    if fortran then seq(|s|, j requires 0 <= j < |s| => s[FIndex(j, dims)]) else s
  }

  /** Nothing is lost by listing in another order. */
  lemma ListedBack<T>(fortran: bool, dims: seq<nat>, s: seq<T>, k: nat)
    requires |s| == Size(dims) && k < |s|
    ensures s[k] == Listed(fortran, dims, s)[if fortran then FBack(k, dims) else k]
  {
    FIndexBack(k, dims);
  }

  lemma ListedInjective<T>(fortran: bool, dims: seq<nat>, s: seq<T>, t: seq<T>)
    requires |s| == |t| == Size(dims)
    ensures Listed(fortran, dims, s) == Listed(fortran, dims, t) <==> s == t
  {
    if Listed(fortran, dims, s) == Listed(fortran, dims, t) {
      forall k | 0 <= k < |s| ensures s[k] == t[k] {
        ListedBack(fortran, dims, s, k);
        ListedBack(fortran, dims, t, k);
      }
    }
  }

  ghost predicate Distinct<T>(s: seq<T>) {
    forall i, j :: 0 <= i < j < |s| ==> s[i] != s[j]
  }

  lemma ListedDistinct<T>(dims: seq<nat>, s: seq<T>)
    requires |s| == Size(dims) && Distinct(Listed(true, dims, s))
    ensures Distinct(s)
  {
    var t := Listed(true, dims, s);
    forall i, j | 0 <= i < j < |s| ensures s[i] != s[j] {
      ListedBack(true, dims, s, i);
      ListedBack(true, dims, s, j);
      FIndexBack(i, dims);
      FIndexBack(j, dims);
      var a, b := FBack(i, dims), FBack(j, dims);
      assert a < b || b < a;
    }
  }

  // ----- Contiguous arrays are runs

  lemma OneAxis(d: nat, k: nat)
    requires k < d
    ensures Prod([d]) == d && Digits(k, [d]) == [k] && FDigits(k, [d]) == [k]
    ensures Rank([k], [d]) == k && FRank([k], [d]) == k
  {
    var rest: seq<int> := [d][1..];
    assert rest == [] && Prod(rest) == 1 && [k][1..] == [];
    assert k / 1 == k && k % d == k;
    assert Digits(k % 1, rest) == [] && FDigits(k / d, rest) == [];
  }

  lemma FewAxes(dims: seq<nat>, k: nat)
    requires |dims| <= 1 && k < Size(dims)
    ensures dims == [] ==> Digits(k, dims) == [] && k == 0
    ensures dims != [] ==> Digits(k, dims) == [k] && Size(dims) == dims[0]
    ensures FIndex(k, dims) == k && FBack(k, dims) == k
  {
    if dims != [] {
      assert dims == [dims[0]];
      SizePositive(dims);
      assert Prod([dims[0]]) == dims[0] * Prod([]);
      OneAxis(dims[0], k);
    }
  }

  lemma FewPlaces(l: Layout, elsize: ItemSize, k: nat)
    requires |l.dims| <= 1 && COrder(elsize, l) && k < Size(l.dims)
    ensures Place(l, k) == l.offset + k * elsize
  {
    FewAxes(l.dims, k);
    if l.dims != [] {
      assert Digits(k, l.dims)[1..] == [];
      assert Dot(Digits(k, l.dims), l.strides) == k * l.strides[0];
      assert l.dims[0] == 1 ==> k == 0;
    }
  }

  lemma CPlace(l: Layout, elsize: ItemSize, k: nat)
    requires COrder(elsize, l) && k < Size(l.dims)
    ensures Place(l, k) == l.offset + k * elsize
  {
    if |l.dims| <= 1 {
      FewPlaces(l, elsize, k);
    } else {
      SizePositive(l.dims);
      ContiguousIsFilled(l.dims, l.strides, elsize);
      CStridesPlace(l, elsize, k);
    }
  }

  lemma CStridesPlace(l: Layout, elsize: ItemSize, k: nat)
    requires k < Size(l.dims) && l.strides == CStrides(l.dims, elsize)
    ensures Place(l, k) == l.offset + k * elsize
  {
    hide CStrides, Dot, Digits, Rank, Prod;
    SizePositive(l.dims);
    DotCStrides(Digits(k, l.dims), l.dims, elsize);
    RankOfDigits(k, l.dims);
  }

  lemma FPlace(l: Layout, elsize: ItemSize, j: nat)
    requires FOrder(elsize, l) && j < Size(l.dims)
    ensures Place(l, FIndex(j, l.dims)) == l.offset + j * elsize
  {
    if |l.dims| <= 1 {
      FewAxes(l.dims, j);
      FewPlaces(l, elsize, j);
    } else {
      SizePositive(l.dims);
      ContiguousIsFilled(l.dims, l.strides, elsize);
      FRankOfFDigits(j, l.dims);
      DigitsOfRank(FDigits(j, l.dims), l.dims);
      DotFStrides(FDigits(j, l.dims), l.dims, elsize);
    }
  }

  /** An array that passes the test of row-major order is one run in that order,
      and likewise for column-major order. */
  lemma ContiguousRun(l: Layout, elsize: ItemSize)
    ensures COrder(elsize, l) ==> Run(l, elsize) == Listed(false, l.dims, Places(l))
    ensures FOrder(elsize, l) ==> Run(l, elsize) == Listed(true, l.dims, Places(l))
  {
    hide COrder, FOrder, Place;
    forall j: nat | j < Size(l.dims)
      ensures COrder(elsize, l) ==> Place(l, j) == l.offset + j * elsize
      ensures FOrder(elsize, l) ==> Place(l, FIndex(j, l.dims)) == l.offset + j * elsize
    {
      if COrder(elsize, l) {
        CPlace(l, elsize, j);
      }
      if FOrder(elsize, l) {
        FPlace(l, elsize, j);
      }
    }
  }

  /** The elements of a contiguous array do not overlap. */
  lemma ContiguousDistinct(l: Layout, elsize: ItemSize)
    requires COrder(elsize, l) || FOrder(elsize, l)
    ensures Distinct(Places(l))
  {
    ContiguousRun(l, elsize);
    hide COrder, FOrder, Places;
    RunDistinct(l, elsize);
    if FOrder(elsize, l) {
      ListedDistinct(l.dims, Places(l));
    }
  }

  lemma RunDistinct(l: Layout, elsize: ItemSize)
    ensures Distinct(Run(l, elsize))
  {
    forall i, j | 0 <= i < j < Size(l.dims) ensures Run(l, elsize)[i] != Run(l, elsize)[j] {
      ProductMonotone(i + 1, j, elsize);
      assert (i + 1) * elsize == i * elsize + elsize;
    }
  }

  // ----- When both orders are the same

  /** At most one axis is longer than one, or there are no elements. */
  predicate OneOrder(dims: seq<nat>) {
    || (exists i :: 0 <= i < |dims| && dims[i] == 0)
    || (forall i, j :: 0 <= i < j < |dims| ==> dims[i] == 1 || dims[j] == 1)
  }

  lemma {:induction false} OnesRank(ix: seq<int>, dims: seq<int>)
    requires InShape(ix, dims) && forall i :: 0 <= i < |dims| ==> dims[i] == 1
    ensures Rank(ix, dims) == 0 && FRank(ix, dims) == 0 && Prod(dims) == 1
  {
    if ix != [] {
      OnesRank(ix[1..], dims[1..]);
    }
  }

  lemma {:induction false} OneLongRank(ix: seq<int>, dims: seq<int>)
    requires InShape(ix, dims) && forall i, j :: 0 <= i < j < |dims| ==> dims[i] == 1 || dims[j] == 1
    ensures Rank(ix, dims) == FRank(ix, dims)
  {
    if ix != [] {
      if dims[0] == 1 {
        OneLongRank(ix[1..], dims[1..]);
      } else {
        OnesRank(ix[1..], dims[1..]);
      }
    }
  }

  /** The step to the next element of the first long axis, in both orders. */
  lemma {:induction false} FirstStep(dims: seq<int>, i: nat, j: nat) returns (ix: seq<int>)
    requires Positive(dims) && i < j < |dims| && dims[i] > 1 && dims[j] > 1
    ensures InShape(ix, dims) && Rank(ix, dims) > 1 && FRank(ix, dims) == 1
  {
    if dims[0] > 1 {
      var zeros := seq(|dims| - 1, _ => 0);
      ix := [1] + zeros;
      assert ix[1..] == zeros;
      ZerosRank(zeros, dims[1..]);
      ManyAfter(dims[1..], if i > 0 then i - 1 else j - 1);
    } else {
      var rest := FirstStep(dims[1..], i - 1, j - 1);
      ix := [0] + rest;
      assert ix[1..] == rest && dims[0] == 1;
    }
  }

  lemma {:induction false} ZerosRank(ix: seq<int>, dims: seq<int>)
    requires |ix| == |dims| && forall i :: 0 <= i < |ix| ==> ix[i] == 0
    ensures Rank(ix, dims) == 0 && FRank(ix, dims) == 0
  {
    if ix != [] {
      ZerosRank(ix[1..], dims[1..]);
    }
  }

  lemma {:induction false} ManyAfter(dims: seq<int>, i: nat)
    requires Positive(dims) && i < |dims| && dims[i] > 1
    ensures Prod(dims) > 1
  {
    ProdPositive(dims[1..]);
    if i == 0 {
      ProductMonotone(2, dims[0], Prod(dims[1..]));
    } else {
      ManyAfter(dims[1..], i - 1);
      ProductAtLeast(Prod(dims[1..]), dims[0]);
    }
  }

  lemma OneOrderIndex(dims: seq<nat>, j: nat)
    requires j < Size(dims) && OneOrder(dims)
    ensures FIndex(j, dims) == j
  {
    SizePositive(dims);
    FRankOfFDigits(j, dims);
    OneLongRank(FDigits(j, dims), dims);
  }

  lemma TwoOrders(dims: seq<nat>) returns (j: nat)
    requires !OneOrder(dims)
    ensures j < Size(dims) && FIndex(j, dims) != j
  {
    SizePositive(dims);
    var a, b :| 0 <= a < b < |dims| && dims[a] != 1 && dims[b] != 1;
    var ix := FirstStep(dims, a, b);
    FRankRange(ix, dims);
    FDigitsOfFRank(ix, dims);
    j := 1;
  }

  /** Listing in column-major order changes no sequence exactly if the shape has
      only one order. */
  lemma ListedSame(dims: seq<nat>)
    ensures (forall s: seq<Item> :: |s| == Size(dims) ==> Listed(true, dims, s) == s) <==> OneOrder(dims)
  {
    if OneOrder(dims) {
      forall s: seq<Item> | |s| == Size(dims) ensures Listed(true, dims, s) == s {
        forall j | 0 <= j < |s| ensures FIndex(j, dims) == j {
          OneOrderIndex(dims, j);
        }
      }
    } else {
      var j := TwoOrders(dims);
      var s: seq<Item> := seq(Size(dims), i => if i == j then [0] else []);
      assert Listed(true, dims, s)[j] == s[FIndex(j, dims)];
    }
  }

  // ----- Reading and writing

  /** The items at the given places; in use they are all there. */
  function Gathered(items: map<int, Item>, places: seq<int>): (r: seq<Item>)
    ensures |r| == |places|
    ensures forall i :: 0 <= i < |r| ==> r[i] == if places[i] in items then items[places[i]] else []
  {
    seq(|places|, i requires 0 <= i < |places| => if places[i] in items then items[places[i]] else [])
  }

  /** The items after the values are written to the places, one after the other. */
  function Scattered(items: map<int, Item>, places: seq<int>, values: seq<Item>): map<int, Item>
    requires |places| == |values|
  {
    if places == [] then items
    else
      var n := |places| - 1;
      Scattered(items, places[..n], values[..n])[places[n] := values[n]]
  }

  lemma {:induction false} ScatteredKeys(items: map<int, Item>, places: seq<int>, values: seq<Item>)
    requires |places| == |values|
    ensures forall p :: p in Scattered(items, places, values) <==> p in items || p in places
    ensures forall p :: p in items && p !in places ==> Scattered(items, places, values)[p] == items[p]
  {
    if places != [] {
      var n := |places| - 1;
      ScatteredKeys(items, places[..n], values[..n]);
      assert places == places[..n] + [places[n]];
    }
  }

  lemma {:induction false} ScatteredAt(items: map<int, Item>, places: seq<int>, values: seq<Item>, i: nat)
    requires |places| == |values| && Distinct(places) && i < |places|
    ensures places[i] in Scattered(items, places, values) && Scattered(items, places, values)[places[i]] == values[i]
  {
    var n := |places| - 1;
    if i < n {
      ScatteredAt(items, places[..n], values[..n], i);
    }
  }

  lemma OneMore(items: map<int, Item>, places: seq<int>, values: seq<Item>, i: nat)
    requires |places| == |values| && i < |places|
    ensures Scattered(items, places[..i + 1], values[..i + 1])
            == Scattered(items, places[..i], values[..i])[places[i] := values[i]]
  {
    assert places[..i + 1][..i] == places[..i] && values[..i + 1][..i] == values[..i];
  }

  /** What is written to different places can be read there. */
  lemma WrittenIsRead(items: map<int, Item>, places: seq<int>, values: seq<Item>)
    requires |places| == |values| && Distinct(places)
    ensures Gathered(Scattered(items, places, values), places) == values
  {
    hide Scattered;
    forall i | 0 <= i < |places| ensures Gathered(Scattered(items, places, values), places)[i] == values[i] {
      ScatteredAt(items, places, values, i);
    }
  }

  lemma GatheredListed(items: map<int, Item>, fortran: bool, dims: seq<nat>, places: seq<int>)
    requires |places| == Size(dims)
    ensures Gathered(items, Listed(fortran, dims, places)) == Listed(fortran, dims, Gathered(items, places))
  {
    hide FIndex;
  }

  lemma ListedMembers(fortran: bool, dims: seq<nat>, places: seq<int>, p: int)
    requires |places| == Size(dims)
    ensures p in Listed(fortran, dims, places) <==> p in places
  {
    if p in places {
      var k: nat :| k < |places| && places[k] == p;
      ListedBack(fortran, dims, places, k);
    }
  }
}
