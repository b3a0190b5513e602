/**
 Strides, contiguity flags and the change of item type
 (libndarray/src/npy_ctors.c, npy_flagsobject.c, npy_convert.c).
 */
module NdArray {
  import opened CInt
  import opened Shape

  /** The bits of `flags`; the last three only occur in requests. */
  datatype Flag = Contiguous | Fortran | Aligned | Writeable | OwnData | UpdateIfCopy
                | ForceCast | EnsureCopy | EnsureArray

  /** Strides for new memory. The running item size ends as the size in bytes. */
  method FillStrides(strides: array<int>, dims: seq<int>, size: int, inflag: set<Flag>, flags: set<Flag>)
    returns (itemsize: int, objflags: set<Flag>)
    requires strides.Length == |dims|
    modifies strides
    ensures Fortran in inflag && Contiguous !in inflag ==>
              strides[..] == FStrides(NonZero(dims), size) && Fortran in objflags
              && (Contiguous in objflags <==> |dims| <= 1)
    ensures !(Fortran in inflag && Contiguous !in inflag) ==>
              strides[..] == CStrides(NonZero(dims), size) && Contiguous in objflags
              && (Fortran in objflags <==> |dims| <= 1)
    ensures objflags - {Contiguous, Fortran} == flags - {Contiguous, Fortran}
    ensures itemsize == size * Prod(NonZero(dims))
  {
    if Fortran in inflag && Contiguous !in inflag {
      itemsize := FillForward(strides, dims, size);
      objflags := flags + {Fortran};
      objflags := if |dims| > 1 then objflags - {Contiguous} else objflags + {Contiguous};
    } else {
      itemsize := FillBackward(strides, dims, size);
      objflags := flags + {Contiguous};
      objflags := if |dims| > 1 then objflags - {Fortran} else objflags + {Fortran};
    }
  }

  method FillForward(strides: array<int>, dims: seq<int>, size: int) returns (itemsize: int)
    requires strides.Length == |dims|
    modifies strides
    ensures strides[..] == FStrides(NonZero(dims), size) && itemsize == size * Prod(NonZero(dims))
  {
    hide Prod, FStrides;
    ghost var nz := NonZero(dims);
    itemsize := size;
    FStart(nz, nz, size);
    var i := 0;
    while i < |dims|
      invariant 0 <= i <= |dims| && itemsize == size * Prod(nz[..i])
      invariant forall j :: 0 <= j < i ==> strides[j] == size * Prod(nz[..j])
    {
      strides[i] := itemsize;
      itemsize := NextSize(itemsize, dims[i]);
      ProdPrefix(nz, i);
      MulAssoc(size, Prod(nz[..i]), nz[i]);
      i := i + 1;
    }
    assert nz[..i] == nz;
    StridesFromAxes(nz, size, strides[..]);
  }

  method FillBackward(strides: array<int>, dims: seq<int>, size: int) returns (itemsize: int)
    requires strides.Length == |dims|
    modifies strides
    ensures strides[..] == CStrides(NonZero(dims), size) && itemsize == size * Prod(NonZero(dims))
  {
    hide Prod, CStrides;
    ghost var nz := NonZero(dims);
    itemsize := size;
    CStart(nz, nz, size);
    var i := |dims| - 1;
    while i >= 0
      invariant -1 <= i < |dims| && itemsize == size * Prod(nz[i + 1..])
      invariant forall j :: i < j < |dims| ==> strides[j] == size * Prod(nz[j + 1..])
    {
      strides[i] := itemsize;
      itemsize := NextSize(itemsize, dims[i]);
      ProdSuffix(nz, i);
      MulSwap(size, Prod(nz[i + 1..]), nz[i]);
      i := i - 1;
    }
    assert nz[0..] == nz;
    StridesFromAxes(nz, size, strides[..]);
  }

  /** `itemsize *= dim ? dim : 1` */
  function NextSize(itemsize: int, dim: int): int {
    itemsize * (if dim != 0 then dim else 1)
  }

  lemma MulAssoc(a: int, b: int, c: int)
    ensures a * b * c == a * (b * c)
  {
  }

  lemma MulSwap(a: int, b: int, c: int)
    ensures a * b * c == a * (c * b)
  {
  }

  /** Strides are known by their axes. */
  lemma StridesFromAxes(dims: seq<int>, size: int, strides: seq<int>)
    requires |strides| == |dims|
    ensures (forall i :: 0 <= i < |dims| ==> strides[i] == size * Prod(dims[..i])) ==> strides == FStrides(dims, size)
    ensures (forall i :: 0 <= i < |dims| ==> strides[i] == size * Prod(dims[i + 1..])) ==>
              strides == CStrides(dims, size)
  {
    forall i | 0 <= i < |dims|
      ensures FStrides(dims, size)[i] == size * Prod(dims[..i])
      ensures CStrides(dims, size)[i] == size * Prod(dims[i + 1..])
    {
      FStridesAt(dims, size, i);
      CStridesAt(dims, size, i);
    }
  }

  // ----- Contiguity

  predicate NoZero(dims: seq<int>) {
    forall j :: 0 <= j < |dims| ==> dims[j] != 0
  }

  /** In row-major order every axis without a zero dimension at or after it has
      the stride of its suffix; a single axis of one item may have any stride. */
  ghost predicate CContiguous(dims: seq<int>, strides: seq<int>, elsize: int)
    requires |dims| == |strides|
  {
    if |dims| == 1 then dims[0] == 1 || strides[0] == elsize
    else forall i :: 0 <= i < |dims| && NoZero(dims[i..]) ==> strides[i] == elsize * Prod(dims[i + 1..])
  }

  ghost predicate FContiguous(dims: seq<int>, strides: seq<int>, elsize: int)
    requires |dims| == |strides|
  {
    if |dims| == 1 then dims[0] == 1 || strides[0] == elsize
    else forall i :: 0 <= i < |dims| && NoZero(dims[..i + 1]) ==> strides[i] == elsize * Prod(dims[..i])
  }

  lemma ProdNoZero(dims: seq<int>)
    requires NoZero(dims)
    ensures NonZero(dims) == dims
  {
  }

  /** The strides made for a shape pass the test of their order, zeros or not. */
  lemma FilledIsContiguous(dims: seq<int>, size: int)
    ensures CContiguous(dims, CStrides(NonZero(dims), size), size)
    ensures FContiguous(dims, FStrides(NonZero(dims), size), size)
  {
    var nz := NonZero(dims);
    forall i | 0 <= i < |dims|
      ensures NoZero(dims[i..]) ==> CStrides(nz, size)[i] == size * Prod(dims[i + 1..])
      ensures NoZero(dims[..i + 1]) ==> FStrides(nz, size)[i] == size * Prod(dims[..i])
    {
      CStridesAt(nz, size, i);
      FStridesAt(nz, size, i);
      if NoZero(dims[i..]) {
        assert forall j :: i < j < |dims| ==> dims[j] == dims[i..][j - i];
        assert nz[i + 1..] == dims[i + 1..];
      }
      if NoZero(dims[..i + 1]) {
        assert forall j :: 0 <= j < i ==> dims[j] == dims[..i + 1][j];
        assert nz[..i] == dims[..i];
      }
    }
    if |dims| == 1 {
      assert nz[1..] == [] && nz[..0] == [];
    }
  }

  /** With two axes or more and no zero dimension, only those strides pass. */
  lemma ContiguousIsFilled(dims: seq<int>, strides: seq<int>, size: int)
    requires |dims| == |strides| && |dims| >= 2 && NoZero(dims)
    ensures CContiguous(dims, strides, size) <==> strides == CStrides(dims, size)
    ensures FContiguous(dims, strides, size) <==> strides == FStrides(dims, size)
  {
    ProdNoZero(dims);
    FilledIsContiguous(dims, size);
    forall i | 0 <= i < |dims| ensures NoZero(dims[i..]) && NoZero(dims[..i + 1]) {
    }
    StridesFromAxes(dims, size, strides);
  }

  /** One axis that has items passes either test exactly if its items are one run. */
  lemma OneAxisIsRun(dims: seq<int>, strides: seq<int>, elsize: int)
    requires |dims| == |strides| == 1
    ensures CContiguous(dims, strides, elsize) <==> FContiguous(dims, strides, elsize)
    ensures dims[0] > 0 ==>
              (CContiguous(dims, strides, elsize) <==> forall k :: 0 <= k < dims[0] ==> RunItem(k, strides[0], elsize))
    ensures dims[0] == 0 ==> (CContiguous(dims, strides, elsize) <==> strides[0] == elsize)
  {
    if dims[0] > 1 && strides[0] != elsize {
      assert !RunItem(1, strides[0], elsize);
    }
  }

  /** Item `k` lies where it lies in one run. */
  predicate RunItem(k: int, stride: int, elsize: int) {
    k * stride == k * elsize
  }

  /** The axes from `i` on (up to `i`) passed the test of the loop. */
  ghost predicate CPassed(dims: seq<int>, strides: seq<int>, elsize: int, i: int)
    requires |dims| == |strides| && 0 <= i <= |dims|
  {
    forall j :: i <= j < |dims| ==> dims[j] != 0 && strides[j] == elsize * Prod(dims[j + 1..])
  }

  ghost predicate FPassed(dims: seq<int>, strides: seq<int>, elsize: int, i: int)
    requires |dims| == |strides| && 0 <= i <= |dims|
  {
    forall j :: 0 <= j < i ==> dims[j] != 0 && strides[j] == elsize * Prod(dims[..j])
  }

  lemma CStart(dims: seq<int>, strides: seq<int>, elsize: int)
    requires |dims| == |strides|
    ensures CPassed(dims, strides, elsize, |dims|) && elsize == elsize * Prod(dims[|dims|..])
  {
  }

  lemma CStep(dims: seq<int>, strides: seq<int>, elsize: int, i: int)
    requires |dims| == |strides| && 0 <= i < |dims| && CPassed(dims, strides, elsize, i + 1)
    requires dims[i] != 0 && strides[i] == elsize * Prod(dims[i + 1..])
    ensures CPassed(dims, strides, elsize, i) && strides[i] * dims[i] == elsize * Prod(dims[i..])
  {
    ProdSuffix(dims, i);
    MulSwap(elsize, Prod(dims[i + 1..]), dims[i]);
  }

  lemma FStart(dims: seq<int>, strides: seq<int>, elsize: int)
    requires |dims| == |strides|
    ensures FPassed(dims, strides, elsize, 0) && elsize == elsize * Prod(dims[..0])
  {
  }

  lemma FStep(dims: seq<int>, strides: seq<int>, elsize: int, i: int)
    requires |dims| == |strides| && 0 <= i < |dims| && FPassed(dims, strides, elsize, i)
    requires dims[i] != 0 && strides[i] == elsize * Prod(dims[..i])
    ensures FPassed(dims, strides, elsize, i + 1) && strides[i] * dims[i] == elsize * Prod(dims[..i + 1])
  {
    ProdPrefix(dims, i);
    MulAssoc(elsize, Prod(dims[..i]), dims[i]);
  }

  /** What each exit of the row-major loop decides. */
  lemma CDecided(dims: seq<int>, strides: seq<int>, elsize: int, i: int)
    requires |dims| == |strides| && |dims| != 1 && 0 <= i <= |dims| && CPassed(dims, strides, elsize, i)
    ensures i == 0 ==> CContiguous(dims, strides, elsize)
    ensures i > 0 && dims[i - 1] == 0 ==> CContiguous(dims, strides, elsize)
    ensures i > 0 && dims[i - 1] != 0 && strides[i - 1] != elsize * Prod(dims[i..]) ==>
              !CContiguous(dims, strides, elsize)
  {
  }

  lemma FDecided(dims: seq<int>, strides: seq<int>, elsize: int, i: int)
    requires |dims| == |strides| && |dims| != 1 && 0 <= i <= |dims| && FPassed(dims, strides, elsize, i)
    ensures i == |dims| ==> FContiguous(dims, strides, elsize)
    ensures i < |dims| && dims[i] == 0 ==> FContiguous(dims, strides, elsize)
    ensures i < |dims| && dims[i] != 0 && strides[i] != elsize * Prod(dims[..i]) ==> !FContiguous(dims, strides, elsize)
  {
    if i < |dims| && dims[i] == 0 {
      forall k | i < k <= |dims| ensures !NoZero(dims[..k]) {
        assert dims[..k][i] == 0;
      }
    }
    if i < |dims| && dims[i] != 0 {
      assert NoZero(dims[..i + 1]);
    }
  }

  // ----- Another item size

  /** Trading item size against one dimension keeps the size in bytes. */
  lemma ReplaceDim(dims: seq<int>, i: nat, x: int, e: int, e': int)
    requires i < |dims| && e' * x == e * dims[i]
    ensures e' * Prod(dims[i := x]) == e * Prod(dims)
  {
    var a, b := dims[..i], dims[i + 1..];
    ProdAppend(a, [x] + b);
    ProdAppend(a, [dims[i]] + b);
    assert dims[i := x] == a + ([x] + b) && dims == a + ([dims[i]] + b);
    assert ([x] + b)[1..] == b && ([dims[i]] + b)[1..] == b;
    Trade(Prod(a), Prod(b), x, dims[i], e, e');
  }

  lemma Trade(p: int, q: int, x: int, d: int, e: int, e': int)
    requires e' * x == e * d
    ensures e' * (p * (x * q)) == e * (p * (d * q))
  {
  }

  lemma NotZero(x: int, d: int, e: int, e': int)
    requires e' * x == e * d && e' > 0 && x != 0
    ensures d != 0
  {
  }

  lemma CRetyped(dims: seq<int>, strides: seq<int>, x: int, e: int, e': int)
    requires |dims| == |strides| >= 1 && CContiguous(dims, strides, e)
    requires e' * x == e * dims[|dims| - 1] && e' > 0
    ensures CContiguous(dims[|dims| - 1 := x], strides[|dims| - 1 := e'], e')
  {
    var n := |dims| - 1;
    var dims', strides' := dims[n := x], strides[n := e'];
    forall i | 0 <= i <= n && NoZero(dims'[i..]) ensures strides'[i] == e' * Prod(dims'[i + 1..]) {
      assert dims'[i..][n - i] == x;
      if i < n {
        NotZero(x, dims[n], e, e');
        forall j | 0 <= j < |dims[i..]| ensures dims[i..][j] != 0 {
          assert j < n - i ==> dims[i..][j] == dims'[i..][j];
        }
        assert dims'[i + 1..] == dims[i + 1..][n - i - 1 := x];
        ReplaceDim(dims[i + 1..], n - i - 1, x, e, e');
      } else {
        assert dims'[i + 1..] == [];
      }
    }
  }

  lemma FRetyped(dims: seq<int>, strides: seq<int>, x: int, e: int, e': int)
    requires |dims| == |strides| >= 1 && FContiguous(dims, strides, e)
    requires e' * x == e * dims[0] && e' > 0
    ensures FContiguous(dims[0 := x], strides[0 := e'], e')
  {
    var dims', strides' := dims[0 := x], strides[0 := e'];
    forall i | 0 <= i < |dims| && NoZero(dims'[..i + 1]) ensures strides'[i] == e' * Prod(dims'[..i]) {
      assert dims'[..i + 1][0] == x;
      if i > 0 {
        NotZero(x, dims[0], e, e');
        var prefix, prefix' := dims[..i + 1], dims'[..i + 1];
        forall j | 0 <= j < |prefix| ensures prefix[j] != 0 {
          assert j > 0 ==> prefix[j] == prefix'[j];
        }
        assert dims'[..i] == dims[..i][0 := x];
        ReplaceDim(dims[..i], 0, x, e, e');
      }
    }
  }

  /** The new dimension, for a smaller and for a larger item. */
  lemma NewDim(dim: int, e: int, e': int)
    requires e' > 0
    ensures e % e' == 0 ==> e' * (dim * (e / e')) == e * dim
    ensures dim * e % e' == 0 ==> e' * (dim * e / e') == e * dim
    ensures dim >= 0 && e >= 0 ==> dim * (e / e') >= 0 && dim * e / e' >= 0
  {
    Quotients(dim, e, e');
    if dim >= 0 && e >= 0 {
      ProductMonotone(0, dim, e / e');
      ProductMonotone(0, dim, e);
    }
  }

  lemma Quotients(dim: int, e: int, e': int)
    requires e' > 0
    ensures e % e' == 0 ==> e' * (dim * (e / e')) == e * dim
    ensures dim * e % e' == 0 ==> e' * (dim * e / e') == e * dim
  {
    var q, r := e / e', e % e';
    var p, s := dim * e / e', dim * e % e';
    assert e == e' * q + r && dim * e == e' * p + s;
    if r == 0 {
      assert e' * (dim * q) == (e' * q) * dim;
    }
  }

  /** The part of an array header that the routines below read and change. */
  class ArrayObject {
    const dims: array<int>
    const strides: array<int>
    var elsize: int
    var flags: set<Flag>

    ghost predicate Valid()
      reads this`elsize, dims
    {
      && dims != strides && dims.Length == strides.Length && elsize >= 0
      && forall i :: 0 <= i < dims.Length ==> dims[i] >= 0
    }

    ghost predicate C()
      requires dims.Length == strides.Length
      reads this`elsize, dims, strides
    {
      CContiguous(dims[..], strides[..], elsize)
    }

    ghost predicate F()
      requires dims.Length == strides.Length
      reads this`elsize, dims, strides
    {
      FContiguous(dims[..], strides[..], elsize)
    }

    /** A contiguity flag is only set when it is true. */
    ghost predicate Truthful()
      requires dims.Length == strides.Length
      reads this, dims, strides
    {
      (Contiguous in flags ==> C()) && (Fortran in flags ==> F())
    }

    constructor (dims: array<int>, strides: array<int>, elsize: int, flags: set<Flag>)
      ensures this.dims == dims && this.strides == strides && this.elsize == elsize && this.flags == flags
    {
      this.dims, this.strides, this.elsize, this.flags := dims, strides, elsize, flags;
    }

    method IsContiguous() returns (r: bool)
      requires Valid()
      ensures r <==> C()
    {
      if dims.Length == 0 {
        return true;
      }
      if dims.Length == 1 {
        return dims[0] == 1 || elsize == strides[0];
      }
      r := CheckBackward(dims[..], strides[..]);
    }

    method IsFortranContiguous() returns (r: bool)
      requires Valid()
      ensures r <==> F()
    {
      if dims.Length == 0 {
        return true;
      }
      if dims.Length == 1 {
        return dims[0] == 1 || elsize == strides[0];
      }
      r := CheckForward(dims[..], strides[..]);
    }

    /** The loop of `_IsContiguous`; `ds` and `ss` are what the arrays hold. */
    method CheckBackward(ghost ds: seq<int>, ghost ss: seq<int>) returns (r: bool)
      requires |ds| == |ss| == dims.Length == strides.Length != 1 && ds == dims[..] && ss == strides[..]
      ensures r <==> CContiguous(ds, ss, elsize)
    {
      hide CContiguous, CPassed, Prod;
      var nd := dims.Length;
      var sd := elsize;
      CStart(ds, ss, elsize);
      var i := nd - 1;
      while i >= 0
        invariant -1 <= i < nd && sd == elsize * Prod(ds[i + 1..])
        invariant CPassed(ds, ss, elsize, i + 1)
      {
        CDecided(ds, ss, elsize, i + 1);
        var dim := dims[i];
        if dim == 0 {
          return true;
        }
        if strides[i] != sd {
          return false;
        }
        CStep(ds, ss, elsize, i);
        sd := sd * dim;
        i := i - 1;
      }
      CDecided(ds, ss, elsize, 0);
      return true;
    }

    method CheckForward(ghost ds: seq<int>, ghost ss: seq<int>) returns (r: bool)
      requires |ds| == |ss| == dims.Length == strides.Length != 1 && ds == dims[..] && ss == strides[..]
      ensures r <==> FContiguous(ds, ss, elsize)
    {
      hide FContiguous, FPassed, Prod;
      var nd := dims.Length;
      var sd := elsize;
      FStart(ds, ss, elsize);
      var i := 0;
      while i < nd
        invariant 0 <= i <= nd && sd == elsize * Prod(ds[..i])
        invariant FPassed(ds, ss, elsize, i)
      {
        FDecided(ds, ss, elsize, i);
        var dim := dims[i];
        if dim == 0 {
          return true;
        }
        if strides[i] != sd {
          return false;
        }
        FStep(ds, ss, elsize, i);
        sd := sd * dim;
        i := i + 1;
      }
      FDecided(ds, ss, elsize, nd);
      return true;
    }

    /** Recompute the flags in `flagmask`; `aligned` and `writeable` are the
        answers of the two tests that look at the data pointer and the owner. */
    method UpdateFlags(flagmask: set<Flag>, aligned: bool, writeable: bool)
      requires Valid()
      modifies this`flags
      ensures Contiguous in flags <==>
                if Contiguous in flagmask then C()
                else Contiguous in old(flags) && !(Fortran in flagmask && F() && dims.Length > 1)
      ensures Fortran in flags <==>
                (if Fortran in flagmask then F() else Fortran in old(flags))
                && !(Contiguous in flagmask && C() && dims.Length > 1)
      ensures Aligned in flags <==> if Aligned in flagmask then aligned else Aligned in old(flags)
      ensures Writeable in flags <==> if Writeable in flagmask then writeable else Writeable in old(flags)
      ensures forall x :: x !in {Contiguous, Fortran, Aligned, Writeable} ==> (x in flags <==> x in old(flags))
      ensures old(Truthful()) ==> Truthful()
    {
      hide ArrayObject.C, ArrayObject.F, ArrayObject.Valid;
      UpdateOrderFlags(flagmask);
      if Aligned in flagmask {
        flags := SetFlag(flags, Aligned, aligned);
      }
      if Writeable in flagmask {
        flags := SetFlag(flags, Writeable, writeable);
      }
    }

    /** The two branches of `UpdateFlags` that test contiguity. */
    method UpdateOrderFlags(flagmask: set<Flag>)
      requires Valid()
      modifies this`flags
      ensures Contiguous in flags <==>
                if Contiguous in flagmask then C()
                else Contiguous in old(flags) && !(Fortran in flagmask && F() && dims.Length > 1)
      ensures Fortran in flags <==>
                (if Fortran in flagmask then F() else Fortran in old(flags))
                && !(Contiguous in flagmask && C() && dims.Length > 1)
      ensures forall x :: x != Contiguous && x != Fortran ==> (x in flags <==> x in old(flags))
    {
      hide ArrayObject.C, ArrayObject.F, ArrayObject.Valid;
      if Fortran in flagmask {
        var f := IsFortranContiguous();
        flags := SetFlag(flags, Fortran, f);
        if f && dims.Length > 1 {
          flags := SetFlag(flags, Contiguous, false);
        }
      }
      if Contiguous in flagmask {
        var c := IsContiguous();
        flags := SetFlag(flags, Contiguous, c);
        if c && dims.Length > 1 {
          flags := SetFlag(flags, Fortran, false);
        }
      }
    }

    /** Change the item type in place. `hasObject` says that either type holds
        object references. */
    method SetDescr(newsize: int, hasObject: bool, aligned: bool) returns (ok: bool)
      requires Valid() && newsize >= 0
      modifies this, dims, strides
      ensures Valid()
      ensures ok <==>
                && !hasObject && newsize > 0
                && (newsize != old(elsize) ==>
                      && dims.Length > 0 && (Contiguous in old(flags) || Fortran in old(flags))
                      && if newsize < old(elsize) then old(elsize) % newsize == 0
                         else old(dims[if Contiguous in flags then dims.Length - 1 else 0] * elsize) % newsize == 0)
      ensures !ok ==> dims[..] == old(dims[..]) && strides[..] == old(strides[..])
                      && elsize == old(elsize) && flags == old(flags)
      ensures ok ==> elsize == newsize && newsize * Prod(dims[..]) == old(elsize * Prod(dims[..]))
      ensures ok && newsize != old(elsize) ==>
                var i := if Contiguous in old(flags) then dims.Length - 1 else 0;
                && dims[..] == old(dims[..])[i := dims[i]] && newsize * dims[i] == old(elsize) * old(dims[..])[i]
                && strides[..] == old(strides[..])[i := newsize]
      ensures ok && newsize == old(elsize) ==> dims[..] == old(dims[..]) && strides[..] == old(strides[..])
      ensures ok ==> (Aligned in flags <==> aligned) && (Contiguous in flags <==> C())
                     && (Fortran in flags <==> F() && !(C() && dims.Length > 1))
      ensures ok ==> forall x :: x !in {Contiguous, Fortran, Aligned} ==> (x in flags <==> x in old(flags))
      ensures ok && old(Truthful()) ==> Truthful()
      ensures ok && old(Truthful()) && Contiguous in old(flags) ==> C() && Contiguous in flags
      ensures ok && old(Truthful()) && Contiguous !in old(flags) && Fortran in old(flags) ==>
                F() && (Fortran in flags || Contiguous in flags)
    {
      if hasObject || newsize == 0 {
        return false;
      }
      if newsize != elsize && (dims.Length == 0 || !(Contiguous in flags || Fortran in flags)) {
        return false;
      }
      var index := if Contiguous in flags then dims.Length - 1 else 0;
      if newsize < elsize {
        if elsize % newsize != 0 {
          return false;
        }
        NewDim(dims[index], elsize, newsize);
        var newdim := elsize / newsize;
        Resize(index, dims[index] * newdim, newsize);
      } else if newsize > elsize {
        var newdim := dims[index] * elsize;
        if newdim % newsize != 0 {
          return false;
        }
        NewDim(dims[index], elsize, newsize);
        Resize(index, newdim / newsize, newsize);
      }
      UpdateFlags({Contiguous, Fortran, Aligned}, aligned, false);
      return true;
    }

    /** Overwrite one dimension, its stride and the item size. */
    method Resize(index: int, newdim: int, newsize: int)
      requires Valid() && 0 <= index < dims.Length && newdim >= 0 && newsize > 0
      requires newsize * newdim == elsize * dims[index]
      modifies this`elsize, dims, strides
      ensures Valid() && elsize == newsize
      ensures dims[..] == old(dims[..])[index := newdim] && strides[..] == old(strides[..])[index := newsize]
      ensures newsize * Prod(dims[..]) == old(elsize * Prod(dims[..]))
      ensures index == dims.Length - 1 && old(C()) ==> C()
      ensures index == 0 && old(F()) ==> F()
    {
      ghost var ds, ss, e := dims[..], strides[..], elsize;
      ReplaceDim(ds, index, newdim, e, newsize);
      if index == dims.Length - 1 && C() {
        CRetyped(ds, ss, newdim, e, newsize);
      }
      if index == 0 && F() {
        FRetyped(ds, ss, newdim, e, newsize);
      }
      hide CContiguous, FContiguous, Prod;
      dims[index] := newdim;
      strides[index] := newsize;
      elsize := newsize;
      assert dims[..] == ds[index := newdim] && strides[..] == ss[index := newsize];
    }
  }

  /** `flags |= x` or `flags &= ~x` */
  function SetFlag(flags: set<Flag>, x: Flag, on: bool): (r: set<Flag>)
    ensures forall y :: y in r <==> if y == x then on else y in flags
  {
    if on then flags + {x} else flags - {x}
  }
}
