/**
 The flat array iterator (libndarray/src/npy_iterators.h, npy_iterators.c):
 reset, step, and the two jumps, with their one-axis, two-axis and contiguous
 shortcuts.
 */
module ArrayIter {
  import opened CInt
  import opened Shape
  import opened Odometer
  import opened NdArray

  class ArrayIterObject {
    const nd: nat
    const size: int
    const dims_m1: array<int>
    const strides: array<int>
    const backstrides: array<int>
    const factors: array<int>
    const coordinates: array<int>
    const contiguous: bool
    /** `ao->data` and `ao->descr->elsize`. */
    const data: int
    const elsize: int
    var index: int
    var dataptr: int

    /** The shape and strides being walked. */
    ghost const dims: seq<int>
    ghost const steps: seq<int>

    ghost predicate Valid()
      reads dims_m1, strides, backstrides, factors
    {
      && nd == |dims| == |steps|
      && dims_m1.Length == strides.Length == backstrides.Length == factors.Length == coordinates.Length == nd
      && coordinates !in {dims_m1, strides, backstrides, factors}
      && size == Prod(dims)
      && (forall i :: 0 <= i < nd ==> dims[i] >= 0)
      && (forall i :: 0 <= i < nd ==> dims_m1[i] == dims[i] - 1)
      && strides[..] == steps
      && (forall i :: 0 <= i < nd ==> backstrides[i] == Times(steps[i], dims[i] - 1))
      && (forall i :: 0 <= i < nd ==> factors[i] == Prod(dims[i + 1..]))
      && (nd == 0 ==> contiguous)
      && (contiguous && nd != 1 && NoZero(dims) ==> steps == CStrides(dims, elsize))
    }

    /** The offset of item `k` in row-major order. */
    ghost function Offset(k: int): int
      requires |steps| == |dims| && Positive(dims)
    {
      Dot(Digits(k, dims), steps)
    }

    /** The iterator points at item `k`. */
    ghost predicate Points(k: int)
      requires |steps| == |dims|
      reads this
    {
      Positive(dims) && 0 <= k < size && index == k && dataptr == data + Offset(k)
    }

    /** The coordinates that the walk over several axes relies on are those of
        item `k`. The shortcuts do not use them. */
    ghost predicate InStep(k: int)
      requires |steps| == |dims|
      reads this, coordinates
    {
      Points(k) && (nd > 1 && !contiguous ==> coordinates[..] == Digits(k, dims))
    }

    /** The walk over several axes is at item `k`, whatever `index` says. */
    ghost predicate AtDigits(k: int)
      requires |steps| == |dims|
      reads this`dataptr, coordinates
    {
      Positive(dims) && 0 <= k < size && dataptr == data + Offset(k) && coordinates[..] == Digits(k, dims)
    }

    /** `NpyArray_ITER_RESET` */
    method Reset()
      requires Valid()
      modifies this, coordinates
      ensures Valid() && (size > 0 ==> InStep(0))
      ensures index == 0 && dataptr == data && coordinates[..] == Zeros(nd)
    {
      index := 0;
      dataptr := data;
      forall i | 0 <= i < nd {
        coordinates[i] := 0;
      }
      NonNegativeProdPositive(dims);
      if size > 0 {
        FirstDigits(dims, steps);
        assert coordinates[..] == Zeros(nd);
      }
    }

    /** `_NpyArray_ITER_NEXT1` */
    method Next1()
      requires Valid() && nd == 1
      modifies this`dataptr, coordinates
      ensures Valid() && dataptr == old(dataptr) + steps[0]
      ensures coordinates[0] == old(coordinates[0]) + 1
    {
      dataptr := dataptr + strides[0];
      coordinates[0] := coordinates[0] + 1;
    }

    /** `_NpyArray_ITER_NEXT2` */
    method Next2(ghost k: int)
      requires Valid() && nd == 2 && AtDigits(k)
      modifies this`dataptr, coordinates
      ensures Valid()
      ensures k + 1 < size ==> AtDigits(k + 1)
    {
      hide Prod, Digits, Dot, Back, Times;
      ghost var d := Digits(k, dims);
      WoundEnds(d);
      WoundStep(d, 1);
      WoundStep(d, 0);
      BackStep(dims, steps, 1);
      CarryEnds(k, dims, steps, 1);
      if coordinates[1] < dims_m1[1] {
        coordinates[1] := coordinates[1] + 1;
        dataptr := dataptr + strides[1];
        assert coordinates[..] == Wound(d, 1)[1 := d[1] + 1];
      } else {
        CarryEnds(k, dims, steps, 0);
        if d[0] >= dims[0] - 1 {
          CarryEnds(k, dims, steps, -1);
        }
        coordinates[1] := 0;
        coordinates[0] := coordinates[0] + 1;
        dataptr := dataptr + (strides[0] - backstrides[1]);
        assert coordinates[..] == Wound(d, 0)[0 := d[0] + 1];
      }
    }

    /** Carrying on from item `k` has reached axis `i`. */
    ghost predicate Carrying(k: int, i: int)
      requires |steps| == |dims| == nd == coordinates.Length && Positive(dims)
      reads this`dataptr, coordinates
    {
      && -1 <= i < nd && 0 <= k < size == Prod(dims) && FullAfter(Digits(k, dims), dims, i)
      && coordinates[..] == Wound(Digits(k, dims), i)
      && dataptr == data + Offset(k) - Back(dims, steps, i + 1)
    }

    /** One round of the carry loop; `done` says that it ends there. */
    method CarryAxis(i: nat, ghost k: int) returns (done: bool)
      requires Valid() && nd > 1 && Positive(dims) && Carrying(k, i)
      modifies this`dataptr, coordinates
      ensures Valid()
      ensures done ==> k + 1 < size && AtDigits(k + 1)
      ensures !done ==> Carrying(k, i - 1)
    {
      hide Prod, Digits, Dot, Back, Times, FullAfter;
      ghost var d := Digits(k, dims);
      CarryEnds(k, dims, steps, i);
      WoundStep(d, i);
      BackStep(dims, steps, i);
      done := coordinates[i] < dims_m1[i];
      if done {
        coordinates[i] := coordinates[i] + 1;
        dataptr := dataptr + strides[i];
        assert coordinates[..] == Wound(d, i)[i := d[i] + 1];
      } else {
        coordinates[i] := 0;
        dataptr := dataptr - backstrides[i];
        assert coordinates[..] == Wound(d, i)[i := 0];
      }
    }

    /** The carry loop over any number of axes. */
    method NextN(ghost k: int)
      requires Valid() && nd > 1 && AtDigits(k)
      modifies this`dataptr, coordinates
      ensures Valid()
      ensures k + 1 < size ==> AtDigits(k + 1)
      ensures k + 1 == size ==> dataptr == data && coordinates[..] == Zeros(nd)
    {
      hide Prod, Digits, Dot, Back, Times;
      WoundEnds(Digits(k, dims));
      BackStep(dims, steps, nd - 1);
      var i := nd - 1;
      while i >= 0
        invariant -1 <= i < nd && Valid() && Carrying(k, i)
      {
        var done := CarryAxis(i, k);
        if done {
          return;
        }
        i := i - 1;
      }
      CarryEnds(k, dims, steps, -1);
    }

    /** `NpyArray_ITER_NEXT` */
    method Next(ghost k: int)
      requires Valid() && InStep(k)
      modifies this, coordinates
      ensures Valid() && index == k + 1
      ensures k + 1 < size ==> InStep(k + 1)
      ensures nd == 1 ==> coordinates[0] == old(coordinates[0]) + 1
      ensures nd != 1 && contiguous ==> coordinates[..] == old(coordinates[..])
    {
      hide Prod, Digits, Dot, CStrides;
      index := index + 1;
      if nd == 1 {
        OneAxis(k, dims, steps);
        OneAxis(k + 1, dims, steps);
        Next1();
      } else if contiguous {
        ContiguousOffset(k, dims, elsize);
        if k + 1 < size {
          ContiguousOffset(k + 1, dims, elsize);
        }
        dataptr := dataptr + elsize;
      } else if nd == 2 {
        Next2(k);
      } else {
        NextN(k);
      }
    }

    /** `NpyArray_ITER_GOTO1D`: the coordinates are left as they were. */
    method Goto1D(ind: int)
      requires Valid() && -size <= ind < size
      modifies this
      ensures Valid() && Points(if ind < 0 then ind + size else ind)
      ensures coordinates[..] == old(coordinates[..])
    {
      hide Prod, Digits, Dot, CStrides;
      NonNegativeProdPositive(dims);
      var k := ind;
      if k < 0 {
        k := k + size;
      }
      index := k;
      if nd == 1 {
        OneAxis(k, dims, steps);
        dataptr := data + k * strides[0];
      } else if contiguous {
        ContiguousOffset(k, dims, elsize);
        dataptr := data + k * elsize;
      } else {
        dataptr := data;
        var rest, i := k, 0;
        assert dims[0..] == dims && steps[0..] == steps;
        while i < nd
          invariant i <= nd && index == k && 0 <= rest < Prod(dims[i..])
          invariant dataptr + Dot(Digits(rest, dims[i..]), steps[i..]) == data + Offset(k)
        {
          JumpStep(rest, dims, steps, i);
          dataptr := dataptr + rest / factors[i] * strides[i];
          rest := rest % factors[i];
          i := i + 1;
        }
        DotNothing(rest, dims, steps);
      }
    }

    lemma DotNothing(k: int, dims: seq<int>, steps: seq<int>)
      requires |dims| == |steps| && Positive(dims)
      ensures Dot(Digits(k, dims[|dims|..]), steps[|dims|..]) == 0
    {
    }

    /** `k` steps from a reset land where the jump to `k` lands. The coordinates are
        then those of item `k`, but stay 0 beyond one axis of a contiguous array. */
    method WalkTo(k: int) returns (walked: int, jumped: int)
      requires Valid() && 0 <= k < size
      modifies this, coordinates
      ensures Valid() && Positive(dims) && walked == jumped == data + Offset(k)
      ensures coordinates[..] == if contiguous && nd != 1 then Zeros(nd) else Digits(k, dims)
    {
      Reset();
      var i := 0;
      while i < k
        invariant 0 <= i <= k && Valid() && InStep(i)
        invariant nd == 1 ==> coordinates[0] == i
        invariant contiguous && nd != 1 ==> coordinates[..] == Zeros(nd)
      {
        Next(i);
        i := i + 1;
      }
      walked := dataptr;
      Goto1D(k);
      jumped := dataptr;
    }

    static function FromEnd(to: seq<int>, dims: seq<int>): (r: seq<int>)
      requires |to| == |dims|
      ensures |r| == |to| && forall i :: 0 <= i < |r| ==> r[i] == if to[i] < 0 then to[i] + dims[i] else to[i]
    {
      seq(|to|, i requires 0 <= i < |to| => if to[i] < 0 then to[i] + dims[i] else to[i])
    }

    /** `NpyArray_ITER_GOTO`: negative coordinates count from the end, in place.
        Pointer and coordinates are those of the item; the index is only right
        as far as `ShortIndexExact` says. */
    method Goto(destination: array<int>)
      requires Valid() && destination.Length == nd && destination != coordinates
      requires destination !in {dims_m1, strides, backstrides, factors}
      requires forall i :: 0 <= i < nd ==> -dims[i] <= destination[i] < dims[i]
      modifies this, coordinates, destination
      ensures Valid() && InShape(destination[..], dims)
      ensures destination[..] == FromEnd(old(destination[..]), dims)
      ensures AtDigits(Rank(destination[..], dims)) && coordinates[..] == destination[..]
      ensures index == ShortIndex(destination[..], dims)
    {
      hide Prod, Digits, Dot, ShortIndex, Rank;
      ghost var to := FromEnd(destination[..], dims);
      assert InShape(to, dims);
      index, dataptr := JumpTo(destination, coordinates, dims_m1, strides, data, dims, steps);
      RankRange(to, dims);
      DigitsOfRank(to, dims);
    }

    /** The loop of `NpyArray_ITER_GOTO` on the arrays it reads and writes. */
    static method JumpTo(destination: array<int>, coordinates: array<int>, dims_m1: array<int>, strides: array<int>,
                         data: int, ghost dims: seq<int>, ghost steps: seq<int>) returns (index: int, dataptr: int)
      requires destination !in {dims_m1, strides, coordinates} && coordinates !in {dims_m1, strides}
      requires destination.Length == coordinates.Length == dims_m1.Length == strides.Length == |dims| == |steps|
      requires (forall j :: 0 <= j < |dims| ==> dims_m1[j] == dims[j] - 1) && strides[..] == steps
      modifies destination, coordinates
      ensures destination[..] == coordinates[..] == FromEnd(old(destination[..]), dims)
      ensures index == ShortIndex(destination[..], dims) && dataptr == data + Dot(destination[..], steps)
    {
      hide Dot, ShortIndex, Times, DotFrom, IndexFrom;
      ghost var from := destination[..];
      ghost var to := FromEnd(from, dims);
      index := 0;
      dataptr := data;
      var nd := destination.Length;
      GotoEnds(to, dims, steps);
      var i := nd - 1;
      while i >= 0
        invariant -1 <= i < nd
        invariant forall j :: 0 <= j <= i ==> destination[j] == from[j]
        invariant forall j :: i < j < nd ==> destination[j] == to[j] == coordinates[j]
        invariant index == IndexFrom(to, dims, i + 1) && dataptr == data + DotFrom(to, steps, i + 1)
      {
        if destination[i] < 0 {
          destination[i] := destination[i] + (dims_m1[i] + 1);
        }
        GotoStep(to, dims, steps, i);
        var weight := if i == nd - 1 then 1 else dims_m1[i + 1] + 1;
        TimesIs(to[i], steps[i]);
        TimesIs(to[i], weight);
        dataptr := dataptr + destination[i] * strides[i];
        coordinates[i] := destination[i];
        index := index + destination[i] * weight;
        i := i - 1;
      }
    }

    static ghost function DotFrom(to: seq<int>, steps: seq<int>, i: nat): int
      requires |to| == |steps| && i <= |to|
    {
      Dot(to[i..], steps[i..])
    }

    static ghost function IndexFrom(to: seq<int>, dims: seq<int>, i: nat): int
      requires |to| == |dims| && i <= |to|
    {
      ShortIndex(to[i..], dims[i..])
    }

    static lemma GotoEnds(to: seq<int>, dims: seq<int>, steps: seq<int>)
      requires |to| == |dims| == |steps|
      ensures IndexFrom(to, dims, |to|) == 0 && DotFrom(to, steps, |to|) == 0
      ensures IndexFrom(to, dims, 0) == ShortIndex(to, dims) && DotFrom(to, steps, 0) == Dot(to, steps)
    {
    }

    static lemma GotoStep(to: seq<int>, dims: seq<int>, steps: seq<int>, i: nat)
      requires |to| == |dims| == |steps| && i < |to|
      ensures DotFrom(to, steps, i) == Times(to[i], steps[i]) + DotFrom(to, steps, i + 1)
      ensures IndexFrom(to, dims, i)
              == Times(to[i], if i == |to| - 1 then 1 else dims[i + 1]) + IndexFrom(to, dims, i + 1)
    {
    }

    /** `array_iter_base_init` */
    constructor IterNew(ao: ArrayObject, data: int)
      requires ao.Valid()
      modifies ao`flags
      ensures Valid() && fresh(coordinates)
      ensures dims == ao.dims[..] && steps == ao.strides[..] && this.data == data && elsize == ao.elsize
      ensures contiguous <==> ao.C()
      ensures index == 0 && dataptr == data && coordinates[..] == Zeros(nd)
      ensures size > 0 ==> InStep(0)
    {
      hide Prod, CStrides, Digits, Dot, Times;
      var n := ao.dims.Length;
      ghost var ds, ss := ao.dims[..], ao.strides[..];
      var m1, st, back, fact, total := Tables(ao);
      nd, size, contiguous := n, total, Contiguous in ao.flags;
      dims_m1, strides, backstrides, factors := m1, st, back, fact;
      coordinates := new int[n];
      this.data, elsize, dims, steps := data, ao.elsize, ds, ss;
      index, dataptr := 0, data;
      new;
      Reset();
    }
  }

  method MultiplyList(dims: array<int>) returns (total: int)
    ensures total == Prod(dims[..])
  {
    ghost var ds := dims[..];
    total := 1;
    for i := 0 to dims.Length
      invariant total == Prod(ds[..i])
    {
      ProdPrefix(ds, i);
      total := total * dims[i];
    }
    assert ds[..dims.Length] == ds;
  }

  /** The tables of an array, and its row-major flag brought up to date. */
  method Tables(ao: ArrayObject)
    returns (m1: array<int>, st: array<int>, back: array<int>, fact: array<int>, total: int)
    requires ao.Valid()
    modifies ao`flags
    ensures fresh({m1, st, back, fact})
    ensures m1.Length == st.Length == back.Length == fact.Length == ao.dims.Length == ao.strides.Length
    ensures forall j :: 0 <= j < m1.Length ==> m1[j] == ao.dims[j] - 1
    ensures forall j :: 0 <= j < m1.Length ==> back[j] == Times(ao.strides[j], ao.dims[j] - 1)
    ensures forall j :: 0 <= j < m1.Length ==> fact[j] == Prod(ao.dims[..][j + 1..])
    ensures st[..] == ao.strides[..] && total == Prod(ao.dims[..])
    ensures Contiguous in ao.flags <==> ao.C()
    ensures ao.dims.Length == 0 ==> Contiguous in ao.flags
    ensures Contiguous in ao.flags && ao.dims.Length != 1 && NoZero(ao.dims[..]) ==>
              ao.strides[..] == CStrides(ao.dims[..], ao.elsize)
  {
    hide Prod, CStrides, FStrides, Times;
    ao.UpdateFlags({Contiguous}, false, false);
    if ao.dims.Length == 0 {
      NoAxes(ao.dims[..], ao.strides[..], ao.elsize);
    } else if ao.dims.Length > 1 && NoZero(ao.dims[..]) {
      ContiguousIsFilled(ao.dims[..], ao.strides[..], ao.elsize);
    }
    m1, st, back := FillSteps(ao.dims, ao.strides);
    fact := FillFactors(ao.dims);
    total := MultiplyList(ao.dims);
  }

  /** The three tables that the axis loop fills from the front. */
  method FillSteps(dims: array<int>, strides: array<int>) returns (m1: array<int>, st: array<int>, back: array<int>)
    requires dims.Length == strides.Length
    ensures fresh({m1, st, back}) && m1.Length == st.Length == back.Length == dims.Length
    ensures forall j :: 0 <= j < dims.Length ==>
              m1[j] == dims[j] - 1 && st[j] == strides[j] && back[j] == Times(strides[j], dims[j] - 1)
  {
    hide Times;
    var n := dims.Length;
    m1, st, back := new int[n], new int[n], new int[n];
    for i := 0 to n
      invariant forall j :: 0 <= j < i ==>
                  m1[j] == dims[j] - 1 && st[j] == strides[j] && back[j] == Times(strides[j], dims[j] - 1)
    {
      m1[i] := dims[i] - 1;
      st[i] := strides[i];
      back[i] := st[i] * m1[i];
      TimesIs(strides[i], dims[i] - 1);
    }
  }

  /** An array without axes is contiguous. */
  lemma NoAxes(dims: seq<int>, strides: seq<int>, elsize: int)
    requires |dims| == |strides| == 0
    ensures CContiguous(dims, strides, elsize) && strides == CStrides(dims, elsize)
  {
  }

  /** The factors, which the same loop fills from the last axis. Without axes the
      source writes one, that it never reads, before the table. */
  method FillFactors(dims: array<int>) returns (fact: array<int>)
    ensures fresh(fact) && fact.Length == dims.Length
    ensures forall j :: 0 <= j < dims.Length ==> fact[j] == Prod(dims[..][j + 1..])
  {
    hide Prod;
    var n := dims.Length;
    ghost var ds := dims[..];
    fact := new int[n];
    if n == 0 {
      return;
    }
    fact[n - 1] := 1;
    LastFactor(ds);
    for i := 1 to n
      invariant forall j :: n - i <= j < n ==> fact[j] == Prod(ds[j + 1..])
    {
      ProdSuffix(ds, n - i);
      fact[n - i - 1] := fact[n - i] * dims[n - i];
    }
  }

  lemma LastFactor(dims: seq<int>)
    ensures Prod(dims[|dims|..]) == 1
  {
  }
}
