/**
 The size check of array creation (libndarray/src/npy_ctors.c): it divides the
 largest representable size down instead of multiplying up, so that the check
 itself cannot overflow.
 */
module SizeGuard {
  import opened CInt
  import opened Shape

  const MAXDIMS := 32

  datatype ItemKind = StringItem | UnicodeItem | OtherItem

  datatype Outcome =
    | Accepted(elsize: int, size: int)
    | TooManyDims
    | EmptyType
    | NegativeDim
    | TooBig

  /** Strings without a size get room for one character. */
  function ItemSize(elsize: int, kind: ItemKind): int {
    if elsize != 0 || kind.OtherItem? then elsize else if kind.StringItem? then 1 else 4
  }

  /** No dimension is negative and the bytes, zero dimensions counting as one,
      are representable. */
  ghost predicate Fits(dims: seq<int>, elsize: int, max: int) {
    (forall i :: 0 <= i < |dims| ==> dims[i] >= 0) && elsize * Prod(NonZero(dims)) <= max
  }

  lemma NonZeroSlices(dims: seq<int>, i: nat)
    requires i <= |dims|
    ensures NonZero(dims[..i]) == NonZero(dims)[..i] && NonZero(dims[i..]) == NonZero(dims)[i..]
  {
  }

  /** A part of a fitting shape fits: products only grow. */
  lemma PartsFit(dims: seq<int>, i: nat, elsize: int, max: int)
    requires Fits(dims, elsize, max) && i <= |dims| && elsize > 0
    ensures Fits(dims[..i], elsize, max) && Fits(dims[i..], elsize, max)
    ensures Prod(NonZero(dims[..i])) >= 1 && Prod(NonZero(dims[i..])) >= 1
  {
    var a, b := NonZero(dims)[..i], NonZero(dims)[i..];
    NonZeroSlices(dims, i);
    assert NonZero(dims) == a + b;
    ProdAppend(a, b);
    ProdPositive(a);
    ProdPositive(b);
    var p, q := Prod(a), Prod(b);
    ProductMonotone(1, q, p);
    ProductMonotone(1, p, q);
    ProductMonotone(p, p * q, elsize);
    ProductMonotone(q, p * q, elsize);
    assert q * p == p * q;
  }

  /** `d > max / n` is `n * d > max`, and dividing twice is dividing once. */
  lemma DivideDown(max: int, n: int, d: int)
    requires max >= 0 && n > 0 && d > 0
    ensures d > max / n <==> n * d > max
    ensures max / n / d == max / (n * d)
  {
    var q, r := max / n, max % n;
    assert max == n * q + r;
    ProductMonotone(d, q, n);
    ProductMonotone(q + 1, d, n);
    var q', r' := q / d, q % d;
    assert q == d * q' + r';
    ProductMonotone(r', d - 1, n);
    ProductMonotone(0, r', n);
    calc {
      max;
      n * (d * q' + r') + r;
      (n * d) * q' + (n * r' + r);
    }
    assert n * (d - 1) == n * d - n;
    ProductAtLeast(n, d);
    QuotientUnique(max, n * d, q', n * r' + r);
  }

  /** Exactly the shapes that fit are accepted; the error names the first
      dimension that does not. `max` is the largest value of the index type. */
  method CheckNewArray(elsize: int, kind: ItemKind, dims: seq<int>, max: int) returns (r: Outcome)
    requires 0 <= elsize <= max && max >= 4
    ensures r.Accepted? <==> |dims| <= MAXDIMS && ItemSize(elsize, kind) > 0 && Fits(dims, ItemSize(elsize, kind), max)
    ensures r.Accepted? ==> r.elsize == (if elsize > 0 then elsize else if kind.StringItem? then 1 else 4)
                            && r.size == Prod(NonZero(dims))
    ensures r.TooManyDims? <==> |dims| > 32
    ensures r.EmptyType? <==> |dims| <= 32 && elsize == 0 && kind.OtherItem?
    ensures r.NegativeDim? ==>
              exists i :: 0 <= i < |dims| && dims[i] < 0 && Fits(dims[..i], ItemSize(elsize, kind), max)
    ensures r.TooBig? ==> exists i :: 0 <= i < |dims| && dims[i] > 0 && Fits(dims[..i], ItemSize(elsize, kind), max)
                                      && !Fits(dims[..i + 1], ItemSize(elsize, kind), max)
  {
    if |dims| > MAXDIMS {
      return TooManyDims;
    }
    var sd := elsize;
    if sd == 0 {
      if kind.OtherItem? {
        return EmptyType;
      }
      sd := if kind.StringItem? then 1 else 4;
    }
    var size := 1;
    var largest := max / sd;
    assert Prod(NonZero(dims[..0])) == 1 && Fits(dims[..0], sd, max);
    hide Prod, NonZero;
    var i := 0;
    while i < |dims|
      invariant 0 <= i <= |dims| && size == Prod(NonZero(dims[..i])) && size >= 1
      invariant Fits(dims[..i], sd, max) && sd * size > 0 && largest == max / (sd * size)
    {
      var dim := dims[i];
      Extend(dims, i, sd, max, size);
      if dim == 0 {
        i := i + 1;
        continue;
      }
      if dim < 0 {
        return NegativeDim;
      }
      DivideDown(max, sd * size, dim);
      if dim > largest {
        NotWithPrefix(dims, i + 1, sd, max);
        return TooBig;
      }
      size := size * dim;
      largest := largest / dim;
      i := i + 1;
    }
    assert dims[..i] == dims;
    return Accepted(sd, size);
  }

  /** One more dimension. */
  lemma Extend(dims: seq<int>, i: nat, sd: int, max: int, size: int)
    requires i < |dims| && sd > 0 && size == Prod(NonZero(dims[..i])) >= 1 && Fits(dims[..i], sd, max)
    ensures dims[i] == 0 ==> Prod(NonZero(dims[..i + 1])) == size && Fits(dims[..i + 1], sd, max)
    ensures dims[i] > 0 ==> Prod(NonZero(dims[..i + 1])) == size * dims[i] && size * dims[i] >= 1
    ensures dims[i] > 0 ==> (Fits(dims[..i + 1], sd, max) <==> sd * size * dims[i] <= max)
                            && sd * (size * dims[i]) == sd * size * dims[i]
  {
    hide Prod;
    var d := if dims[i] == 0 then 1 else dims[i];
    assert NonZero(dims[..i + 1]) == NonZero(dims[..i]) + [d];
    ProdSnoc(NonZero(dims[..i]), d);
    if dims[i] > 0 {
      ProductAtLeast(size, dims[i]);
    }
    assert sd * (size * d) == sd * size * d;
  }

  lemma NotWithPrefix(dims: seq<int>, i: nat, sd: int, max: int)
    requires i <= |dims| && sd > 0 && !Fits(dims[..i], sd, max)
    ensures !Fits(dims, sd, max)
  {
    if Fits(dims, sd, max) {
      PartsFit(dims, i, sd, max);
    }
  }

  /** Behind the guard nothing overflows: the running size and the strides of
      either memory order stay between the item size and `max`. */
  lemma StridesFit(dims: seq<int>, elsize: int, max: int, i: nat)
    requires elsize > 0 && Fits(dims, elsize, max) && i < |dims|
    ensures elsize <= CStrides(NonZero(dims), elsize)[i] <= max
    ensures elsize <= FStrides(NonZero(dims), elsize)[i] <= max
    ensures elsize <= elsize * Prod(NonZero(dims)) <= max
  {
    hide Prod, CStrides, FStrides;
    var nz := NonZero(dims);
    CStridesAt(nz, elsize, i);
    FStridesAt(nz, elsize, i);
    NonZeroSlices(dims, i);
    NonZeroSlices(dims, i + 1);
    PartsFit(dims, i, elsize, max);
    PartsFit(dims, i + 1, elsize, max);
    ProductMonotone(1, Prod(nz[..i]), elsize);
    ProductMonotone(1, Prod(nz[i + 1..]), elsize);
    ProdPositive(nz);
    ProductMonotone(1, Prod(nz), elsize);
  }
}
