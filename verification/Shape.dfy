/**
 Mixed-radix arithmetic over array shapes: products, index tuples, byte offsets
 and the strides of the two memory orders. Shapes have any length.
 */
module Shape {
  import opened CInt

  function Prod(dims: seq<int>): int {
    if dims == [] then 1 else dims[0] * Prod(dims[1..])
  }

  /** The byte offset of an index tuple. */
  function Dot(ix: seq<int>, strides: seq<int>): int
    requires |ix| == |strides|
  {
    if ix == [] then 0 else ix[0] * strides[0] + Dot(ix[1..], strides[1..])
  }

  predicate Positive(dims: seq<int>) {
    forall i :: 0 <= i < |dims| ==> dims[i] > 0
  }

  predicate InShape(ix: seq<int>, dims: seq<int>) {
    |ix| == |dims| && forall i :: 0 <= i < |dims| ==> 0 <= ix[i] < dims[i]
  }

  /** Zero dimensions count as one where strides are made. */
  function NonZero(dims: seq<int>): (r: seq<int>)
    ensures |r| == |dims| && forall i :: 0 <= i < |r| ==> r[i] == if dims[i] == 0 then 1 else dims[i]
  {
    seq(|dims|, i requires 0 <= i < |dims| => if dims[i] == 0 then 1 else dims[i])
  }

  /** Row-major strides: the last axis is the densest. */
  function CStrides(dims: seq<int>, itemsize: int): (r: seq<int>)
    ensures |r| == |dims|
  {
    if dims == [] then [] else [itemsize * Prod(dims[1..])] + CStrides(dims[1..], itemsize)
  }

  /** Column-major strides: the first axis is the densest. */
  function FStrides(dims: seq<int>, itemsize: int): (r: seq<int>)
    ensures |r| == |dims|
  {
    if dims == [] then [] else [itemsize] + FStrides(dims[1..], itemsize * dims[0])
  }

  /** Row-major digits of `k`, and the number they stand for. */
  function Digits(k: int, dims: seq<int>): (r: seq<int>)
    requires Positive(dims)
    ensures |r| == |dims|
    decreases |dims|
  {
    if dims == [] then []
    else
      ProdPositive(dims[1..]);
      [k / Prod(dims[1..])] + Digits(k % Prod(dims[1..]), dims[1..])
  }

  function Rank(ix: seq<int>, dims: seq<int>): int
    requires |ix| == |dims|
  {
    if ix == [] then 0 else ix[0] * Prod(dims[1..]) + Rank(ix[1..], dims[1..])
  }

  /** Column-major digits of `k`, and the number they stand for. */
  function FDigits(k: int, dims: seq<int>): (r: seq<int>)
    requires Positive(dims)
    ensures |r| == |dims|
    decreases |dims|
  {
    if dims == [] then [] else [k % dims[0]] + FDigits(k / dims[0], dims[1..])
  }

  function FRank(ix: seq<int>, dims: seq<int>): int
    requires |ix| == |dims|
  {
    if ix == [] then 0 else ix[0] + dims[0] * FRank(ix[1..], dims[1..])
  }

  // ----- Products

  lemma {:induction false} ProdPositive(dims: seq<int>)
    requires Positive(dims)
    ensures Prod(dims) > 0
  {
    if dims != [] {
      ProdPositive(dims[1..]);
      ProductAtLeast(Prod(dims[1..]), dims[0]);
    }
  }

  lemma {:induction false} ProdAppend(a: seq<int>, b: seq<int>)
    ensures Prod(a + b) == Prod(a) * Prod(b)
  {
    if a == [] {
      assert a + b == b;
    } else {
      ProdAppend(a[1..], b);
      assert (a + b)[1..] == a[1..] + b;
      assert a[0] * (Prod(a[1..]) * Prod(b)) == a[0] * Prod(a[1..]) * Prod(b);
    }
  }

  lemma ProdSnoc(a: seq<int>, d: int)
    ensures Prod(a + [d]) == Prod(a) * d
  {
    ProdAppend(a, [d]);
    assert Prod([d]) == d * Prod([]);
  }

  lemma ProdSuffix(dims: seq<int>, i: nat)
    requires i < |dims|
    ensures Prod(dims[i..]) == dims[i] * Prod(dims[i + 1..])
  {
  }

  lemma ProdPrefix(dims: seq<int>, i: nat)
    requires i < |dims|
    ensures Prod(dims[..i + 1]) == Prod(dims[..i]) * dims[i]
  {
    assert dims[..i + 1] == dims[..i] + [dims[i]];
    ProdSnoc(dims[..i], dims[i]);
  }

  // ----- Strides, axis by axis

  lemma {:induction false} CStridesAt(dims: seq<int>, itemsize: int, i: nat)
    requires i < |dims|
    ensures CStrides(dims, itemsize)[i] == itemsize * Prod(dims[i + 1..])
  {
    if i > 0 {
      CStridesAt(dims[1..], itemsize, i - 1);
      assert dims[1..][i..] == dims[i + 1..];
    }
  }

  lemma {:induction false} FStridesAt(dims: seq<int>, itemsize: int, i: nat)
    requires i < |dims|
    ensures FStrides(dims, itemsize)[i] == itemsize * Prod(dims[..i])
  {
    if i > 0 {
      FStridesAt(dims[1..], itemsize * dims[0], i - 1);
      assert dims[..i][1..] == dims[1..][..i - 1];
      assert itemsize * dims[0] * Prod(dims[1..][..i - 1]) == itemsize * (dims[0] * Prod(dims[1..][..i - 1]));
    }
  }

  // ----- Row-major numbering

  lemma {:induction false} RankRange(ix: seq<int>, dims: seq<int>)
    requires InShape(ix, dims)
    ensures 0 <= Rank(ix, dims) < Prod(dims)
  {
    if ix != [] {
      RankRange(ix[1..], dims[1..]);
      var p := Prod(dims[1..]);
      ProductMonotone(0, ix[0], p);
      ProductMonotone(ix[0], dims[0] - 1, p);
      assert (dims[0] - 1) * p == dims[0] * p - p;
    }
  }

  lemma {:induction false} DigitsOfRank(ix: seq<int>, dims: seq<int>)
    requires InShape(ix, dims) && Positive(dims)
    ensures Digits(Rank(ix, dims), dims) == ix
  {
    if ix != [] {
      RankRange(ix[1..], dims[1..]);
      QuotientUnique(Rank(ix, dims), Prod(dims[1..]), ix[0], Rank(ix[1..], dims[1..]));
      DigitsOfRank(ix[1..], dims[1..]);
    }
  }

  lemma {:induction false} RankOfDigits(k: int, dims: seq<int>)
    requires Positive(dims) && 0 <= k < Prod(dims)
    ensures InShape(Digits(k, dims), dims) && Rank(Digits(k, dims), dims) == k
    decreases |dims|
  {
    if dims != [] {
      var p := Prod(dims[1..]);
      ProdPositive(dims[1..]);
      var q := k / p;
      assert k == p * q + k % p;
      RankOfDigits(k % p, dims[1..]);
      if q >= dims[0] {
        ProductMonotone(dims[0], q, p);
        assert false;
      }
      if q < 0 {
        ProductMonotone(q, -1, p);
        assert false;
      }
    }
  }

  lemma {:induction false} DotCStrides(ix: seq<int>, dims: seq<int>, itemsize: int)
    requires |ix| == |dims|
    ensures Dot(ix, CStrides(dims, itemsize)) == itemsize * Rank(ix, dims)
  {
    if ix != [] {
      DotCStrides(ix[1..], dims[1..], itemsize);
      var p := Prod(dims[1..]);
      assert ix[0] * (itemsize * p) == itemsize * (ix[0] * p);
    }
  }

  // ----- Column-major numbering

  lemma {:induction false} FRankRange(ix: seq<int>, dims: seq<int>)
    requires InShape(ix, dims)
    ensures 0 <= FRank(ix, dims) < Prod(dims)
  {
    if ix != [] {
      FRankRange(ix[1..], dims[1..]);
      var r, p := FRank(ix[1..], dims[1..]), Prod(dims[1..]);
      ProductMonotone(0, r, dims[0]);
      ProductMonotone(r, p - 1, dims[0]);
      assert (p - 1) * dims[0] == dims[0] * p - dims[0];
      assert dims[0] * r == r * dims[0];
    }
  }

  lemma {:induction false} FDigitsOfFRank(ix: seq<int>, dims: seq<int>)
    requires InShape(ix, dims) && Positive(dims)
    ensures FDigits(FRank(ix, dims), dims) == ix
  {
    if ix != [] {
      QuotientUnique(FRank(ix, dims), dims[0], FRank(ix[1..], dims[1..]), ix[0]);
      FDigitsOfFRank(ix[1..], dims[1..]);
    }
  }

  lemma {:induction false} FRankOfFDigits(k: int, dims: seq<int>)
    requires Positive(dims) && 0 <= k < Prod(dims)
    ensures InShape(FDigits(k, dims), dims) && FRank(FDigits(k, dims), dims) == k
    decreases |dims|
  {
    if dims != [] {
      var p, q := Prod(dims[1..]), k / dims[0];
      assert k == dims[0] * q + k % dims[0];
      ProdPositive(dims[1..]);
      if q >= p {
        ProductMonotone(p, q, dims[0]);
        assert false;
      }
      FRankOfFDigits(q, dims[1..]);
    }
  }

  lemma {:induction false} DotFStrides(ix: seq<int>, dims: seq<int>, itemsize: int)
    requires |ix| == |dims|
    ensures Dot(ix, FStrides(dims, itemsize)) == itemsize * FRank(ix, dims)
  {
    if ix != [] {
      var r := FRank(ix[1..], dims[1..]);
      DotFStrides(ix[1..], dims[1..], itemsize * dims[0]);
      assert itemsize * (ix[0] + dims[0] * r) == itemsize * ix[0] + itemsize * dims[0] * r;
    }
  }

  // ----- The address map is a bijection

  /** Index tuples and the multiples of `itemsize` below `total` correspond one
      to one through their byte offsets. */
  ghost predicate Tiles(dims: seq<int>, strides: seq<int>, itemsize: int, total: int)
    requires |dims| == |strides| && itemsize > 0
  {
    && (forall ix :: InShape(ix, dims) ==> 0 <= Dot(ix, strides) < total && Dot(ix, strides) % itemsize == 0)
    && (forall ix, jx :: InShape(ix, dims) && InShape(jx, dims) && Dot(ix, strides) == Dot(jx, strides) ==> ix == jx)
    && (forall k :: 0 <= k * itemsize < total ==> exists ix :: InShape(ix, dims) && Dot(ix, strides) == k * itemsize)
  }

  lemma ScaledRange(k: int, n: int, itemsize: int)
    requires itemsize > 0
    ensures 0 <= k < n <==> 0 <= itemsize * k < itemsize * n
    ensures itemsize * k % itemsize == 0
  {
    ProductMonotone(0, k, itemsize);
    ProductMonotone(k, -1, itemsize);
    ProductMonotone(k, n - 1, itemsize);
    ProductMonotone(n, k, itemsize);
    QuotientUnique(itemsize * k, itemsize, k, 0);
  }

  lemma ScaleInjective(a: int, b: int, itemsize: int)
    requires itemsize > 0 && itemsize * a == itemsize * b
    ensures a == b
  {
  }

  lemma CStridesTile(dims: seq<int>, itemsize: int)
    requires Positive(dims) && itemsize > 0
    ensures Tiles(dims, CStrides(dims, itemsize), itemsize, itemsize * Prod(dims))
  {
    var strides, n := CStrides(dims, itemsize), Prod(dims);
    forall ix | InShape(ix, dims)
      ensures Dot(ix, strides) == itemsize * Rank(ix, dims)
      ensures 0 <= Dot(ix, strides) < itemsize * n && Dot(ix, strides) % itemsize == 0
    {
      DotCStrides(ix, dims, itemsize);
      RankRange(ix, dims);
      ScaledRange(Rank(ix, dims), n, itemsize);
    }
    forall ix, jx | InShape(ix, dims) && InShape(jx, dims) && Dot(ix, strides) == Dot(jx, strides) ensures ix == jx {
      ScaleInjective(Rank(ix, dims), Rank(jx, dims), itemsize);
      DigitsOfRank(ix, dims);
      DigitsOfRank(jx, dims);
    }
    forall k | 0 <= k * itemsize < itemsize * n
      ensures exists ix :: InShape(ix, dims) && Dot(ix, strides) == k * itemsize
    {
      ScaledRange(k, n, itemsize);
      RankOfDigits(k, dims);
      assert Dot(Digits(k, dims), strides) == itemsize * k;
    }
  }

  lemma FStridesTile(dims: seq<int>, itemsize: int)
    requires Positive(dims) && itemsize > 0
    ensures Tiles(dims, FStrides(dims, itemsize), itemsize, itemsize * Prod(dims))
  {
    var strides, n := FStrides(dims, itemsize), Prod(dims);
    forall ix | InShape(ix, dims)
      ensures Dot(ix, strides) == itemsize * FRank(ix, dims)
      ensures 0 <= Dot(ix, strides) < itemsize * n && Dot(ix, strides) % itemsize == 0
    {
      DotFStrides(ix, dims, itemsize);
      FRankRange(ix, dims);
      ScaledRange(FRank(ix, dims), n, itemsize);
    }
    forall ix, jx | InShape(ix, dims) && InShape(jx, dims) && Dot(ix, strides) == Dot(jx, strides) ensures ix == jx {
      ScaleInjective(FRank(ix, dims), FRank(jx, dims), itemsize);
      FDigitsOfFRank(ix, dims);
      FDigitsOfFRank(jx, dims);
    }
    forall k | 0 <= k * itemsize < itemsize * n
      ensures exists ix :: InShape(ix, dims) && Dot(ix, strides) == k * itemsize
    {
      ScaledRange(k, n, itemsize);
      FRankOfFDigits(k, dims);
      assert Dot(FDigits(k, dims), strides) == itemsize * k;
    }
  }
}
