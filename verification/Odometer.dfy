/**
 Carrying in mixed-radix digits: what one step of the odometer does to the
 digits, to the number they stand for, and to the byte offset.
 */
module Odometer {
  import opened CInt
  import opened Shape

  function Zeros(n: nat): (r: seq<int>)
    ensures |r| == n && forall i :: 0 <= i < n ==> r[i] == 0
  {
    seq(n, _ => 0)
  }

  /** The last index of every axis. */
  function LastIndex(dims: seq<int>): (r: seq<int>)
    ensures |r| == |dims| && forall i :: 0 <= i < |r| ==> r[i] == dims[i] - 1
  {
    seq(|dims|, i requires 0 <= i < |dims| => dims[i] - 1)
  }

  /** Digit `p` goes up by one and all later digits start over. */
  function Carry(d: seq<int>, p: nat): (r: seq<int>)
    requires p < |d|
    ensures |r| == |d|
  {
    d[..p] + [d[p] + 1] + Zeros(|d| - p - 1)
  }

  /** The digits after `p` are at their last index. */
  predicate FullAfter(d: seq<int>, dims: seq<int>, p: int)
    requires |d| == |dims| && -1 <= p < |d|
  {
    forall j :: p < j < |d| ==> d[j] == dims[j] - 1
  }

  lemma {:induction false} RankZeros(dims: seq<int>)
    ensures Rank(Zeros(|dims|), dims) == 0
  {
    if dims != [] {
      RankZeros(dims[1..]);
      assert Zeros(|dims|)[1..] == Zeros(|dims[1..]|);
    }
  }

  lemma {:induction false} DotZeros(strides: seq<int>)
    ensures Dot(Zeros(|strides|), strides) == 0
  {
    if strides != [] {
      DotZeros(strides[1..]);
      assert Zeros(|strides|)[1..] == Zeros(|strides[1..]|);
    }
  }

  lemma {:induction false} RankLast(dims: seq<int>)
    ensures Rank(LastIndex(dims), dims) == Prod(dims) - 1
  {
    if dims != [] {
      RankLast(dims[1..]);
      assert LastIndex(dims)[1..] == LastIndex(dims[1..]);
      assert (dims[0] - 1) * Prod(dims[1..]) == dims[0] * Prod(dims[1..]) - Prod(dims[1..]);
    }
  }

  /** A carry adds one to the number. */
  lemma {:induction false} RankCarry(d: seq<int>, dims: seq<int>, p: nat)
    requires |d| == |dims| && p < |d| && FullAfter(d, dims, p)
    ensures Rank(Carry(d, p), dims) == Rank(d, dims) + 1
  {
    var c := Carry(d, p);
    if p == 0 {
      assert c[1..] == Zeros(|dims[1..]|) && d[1..] == LastIndex(dims[1..]);
      RankZeros(dims[1..]);
      RankLast(dims[1..]);
      assert (d[0] + 1) * Prod(dims[1..]) == d[0] * Prod(dims[1..]) + Prod(dims[1..]);
    } else {
      RankCarry(d[1..], dims[1..], p - 1);
      assert c[1..] == Carry(d[1..], p - 1);
    }
  }

  /** A carry moves by the stride of its axis and back over the later axes. */
  lemma {:induction false} DotCarry(d: seq<int>, dims: seq<int>, strides: seq<int>, p: nat)
    requires |d| == |dims| == |strides| && p < |d| && FullAfter(d, dims, p)
    ensures Dot(Carry(d, p), strides) == Dot(d, strides) + strides[p] - Dot(LastIndex(dims[p + 1..]), strides[p + 1..])
  {
    var c := Carry(d, p);
    if p == 0 {
      assert c[1..] == Zeros(|strides[1..]|) && d[1..] == LastIndex(dims[1..]);
      DotZeros(strides[1..]);
      assert (d[0] + 1) * strides[0] == d[0] * strides[0] + strides[0];
    } else {
      DotCarry(d[1..], dims[1..], strides[1..], p - 1);
      assert c[1..] == Carry(d[1..], p - 1);
      assert dims[1..][p..] == dims[p + 1..] && strides[1..][p..] == strides[p + 1..];
    }
  }

  lemma CarryInShape(d: seq<int>, dims: seq<int>, p: nat)
    requires InShape(d, dims) && Positive(dims) && p < |dims| && d[p] < dims[p] - 1
    ensures InShape(Carry(d, p), dims)
  {
  }

  /** The digits of the next number, with its offset. */
  lemma NextDigits(k: int, dims: seq<int>, strides: seq<int>, p: nat)
    requires Positive(dims) && |strides| == |dims| && 0 <= k < Prod(dims) && p < |dims|
    requires FullAfter(Digits(k, dims), dims, p) && Digits(k, dims)[p] < dims[p] - 1
    ensures k + 1 < Prod(dims) && Digits(k + 1, dims) == Carry(Digits(k, dims), p)
    ensures Dot(Digits(k + 1, dims), strides)
            == Dot(Digits(k, dims), strides) + strides[p] - Dot(LastIndex(dims[p + 1..]), strides[p + 1..])
  {
    hide *;
    var d := Digits(k, dims);
    RankOfDigits(k, dims);
    CarryInShape(d, dims, p);
    RankCarry(d, dims, p);
    RankRange(Carry(d, p), dims);
    DigitsOfRank(Carry(d, p), dims);
    DotCarry(d, dims, strides, p);
  }

  /** All digits are full at the last number only. */
  lemma LastDigits(k: int, dims: seq<int>)
    requires Positive(dims) && 0 <= k < Prod(dims) && dims != []
    requires FullAfter(Digits(k, dims), dims, -1)
    ensures k == Prod(dims) - 1
  {
    RankOfDigits(k, dims);
    RankLast(dims);
    assert Digits(k, dims) == LastIndex(dims);
  }

  lemma FirstDigits(dims: seq<int>, strides: seq<int>)
    requires Positive(dims) && |strides| == |dims|
    ensures Digits(0, dims) == Zeros(|dims|) && Dot(Digits(0, dims), strides) == 0
  {
    RankZeros(dims);
    DotZeros(strides);
    DigitsOfRank(Zeros(|dims|), dims);
  }

  lemma NonNegativeProdPositive(dims: seq<int>)
    requires forall i :: 0 <= i < |dims| ==> dims[i] >= 0
    ensures Prod(dims) >= 0 && (Prod(dims) > 0 <==> Positive(dims))
  {
  }

  /** The digits when the carry loop reaches axis `i`: later ones are zero. */
  function Wound(d: seq<int>, i: int): (r: seq<int>)
    requires -1 <= i < |d|
    ensures |r| == |d|
  {
    d[..i + 1] + Zeros(|d| - i - 1)
  }

  lemma WoundEnds(d: seq<int>)
    requires d != []
    ensures Wound(d, |d| - 1) == d && Wound(d, -1) == Zeros(|d|)
  {
  }

  lemma WoundStep(d: seq<int>, i: nat)
    requires i < |d|
    ensures Wound(d, i)[i] == d[i] && Wound(d, i)[i := 0] == Wound(d, i - 1)
    ensures Wound(d, i)[i := d[i] + 1] == Carry(d, i)
  {
  }

  /** Going back over the axes from `i` on. */
  function Back(dims: seq<int>, steps: seq<int>, i: nat): int
    requires |dims| == |steps| && i <= |dims|
  {
    Dot(LastIndex(dims[i..]), steps[i..])
  }

  lemma BackStep(dims: seq<int>, steps: seq<int>, i: nat)
    requires |dims| == |steps| && i < |dims|
    ensures Back(dims, steps, i) == Times(steps[i], dims[i] - 1) + Back(dims, steps, i + 1)
    ensures Back(dims, steps, |dims|) == 0
  {
    assert dims[i..][1..] == dims[i + 1..] && steps[i..][1..] == steps[i + 1..];
    assert LastIndex(dims[i..])[1..] == LastIndex(dims[i + 1..]);
  }

  /** What the carry loop ends with, on axis `i` or past all axes. */
  lemma CarryEnds(k: int, dims: seq<int>, steps: seq<int>, i: int)
    requires Positive(dims) && |steps| == |dims| && 0 <= k < Prod(dims) && -1 <= i < |dims| && dims != []
    requires FullAfter(Digits(k, dims), dims, i)
    ensures i >= 0 && Digits(k, dims)[i] < dims[i] - 1 ==>
              k + 1 < Prod(dims) && Digits(k + 1, dims) == Carry(Digits(k, dims), i)
              && Dot(Digits(k + 1, dims), steps) == Dot(Digits(k, dims), steps) - Back(dims, steps, i + 1) + steps[i]
    ensures i == -1 ==> k + 1 == Prod(dims) && Dot(Digits(k, dims), steps) == Back(dims, steps, 0)
    ensures i >= 0 && Digits(k, dims)[i] >= dims[i] - 1 ==> FullAfter(Digits(k, dims), dims, i - 1)
  {
    RankOfDigits(k, dims);
    if i == -1 {
      LastDigits(k, dims);
      assert Digits(k, dims) == LastIndex(dims) && dims[0..] == dims && steps[0..] == steps;
    } else if Digits(k, dims)[i] < dims[i] - 1 {
      NextDigits(k, dims, steps, i);
    }
  }

  /** One axis: the offset of item `k` is `k` strides. */
  lemma OneAxis(k: int, dims: seq<int>, steps: seq<int>)
    requires |dims| == |steps| == 1 && Positive(dims)
    ensures Digits(k, dims) == [k] && Dot(Digits(k, dims), steps) == k * steps[0]
  {
  }

  /** C strides: the offset of item `k` is `k` items. */
  lemma ContiguousOffset(k: int, dims: seq<int>, elsize: int)
    requires Positive(dims) && 0 <= k < Prod(dims)
    ensures Dot(Digits(k, dims), CStrides(dims, elsize)) == k * elsize
  {
    RankOfDigits(k, dims);
    DotCStrides(Digits(k, dims), dims, elsize);
  }

  /** Peeling off the leading digit. */
  lemma JumpStep(k: int, dims: seq<int>, steps: seq<int>, i: nat)
    requires Positive(dims) && |dims| == |steps| && i < |dims| && 0 <= k < Prod(dims[i..])
    ensures Prod(dims[i + 1..]) > 0 && 0 <= k % Prod(dims[i + 1..]) < Prod(dims[i + 1..])
    ensures Dot(Digits(k, dims[i..]), steps[i..])
            == k / Prod(dims[i + 1..]) * steps[i] + Dot(Digits(k % Prod(dims[i + 1..]), dims[i + 1..]), steps[i + 1..])
  {
  }

  // ----- The index computed by a jump to coordinates

  /** Each coordinate is weighted by the next dimension only. */
  function ShortIndex(ix: seq<int>, dims: seq<int>): int
    requires |ix| == |dims|
  {
    if |ix| == 0 then 0
    else if |ix| == 1 then ix[0]
    else ix[0] * dims[1] + ShortIndex(ix[1..], dims[1..])
  }

  /** That is the row-major index exactly when every coordinate with two axes or
      more after the next one is zero, or those axes have one item. */
  lemma {:induction false} ShortIndexExact(ix: seq<int>, dims: seq<int>)
    requires InShape(ix, dims)
    ensures ShortIndex(ix, dims) <= Rank(ix, dims)
    ensures ShortIndex(ix, dims) == Rank(ix, dims)
            <==> forall i :: 0 <= i < |ix| - 2 ==> ix[i] == 0 || Prod(dims[i + 2..]) == 1
  {
    if |ix| == 1 {
      assert dims[1..] == [];
    } else if |ix| >= 2 {
      ShortIndexExact(ix[1..], dims[1..]);
      var p := Prod(dims[2..]);
      assert dims[1..][1..] == dims[2..];
      ProdPositive(dims[2..]);
      WeightGap(ix[0], dims[1], p);
      if |ix| == 2 {
        assert dims[2..] == [];
      } else {
        forall i | 0 <= i < |ix| - 3
          ensures ix[1..][i] == ix[i + 1] && dims[1..][i + 2..] == dims[i + 1 + 2..]
        {
        }
      }
    }
  }

  /** The first of two items along the last axis of shape (2, 1, 2), in the second
      row: item 2, but the jump says 1. */
  lemma ShortIndexWrong()
    ensures InShape([1, 0, 0], [2, 1, 2])
    ensures ShortIndex([1, 0, 0], [2, 1, 2]) == 1 && Rank([1, 0, 0], [2, 1, 2]) == 2
  {
    assert [1, 0, 0][1..] == [0, 0] && [0, 0][1..] == [0];
    assert [2, 1, 2][1..] == [1, 2] && [1, 2][1..] == [2] && [2][1..] == [];
  }

  lemma WeightGap(x: int, d: int, p: int)
    requires x >= 0 && d > 0 && p > 0
    ensures x * d <= x * (d * p)
    ensures x * d == x * (d * p) <==> x == 0 || p == 1
  {
    var w := x * d;
    assert x * (d * p) == w * p;
    ProductMonotone(0, x, d);
    if x > 0 {
      ProductAtLeast(d, x);
    }
    GapOf(w, p);
  }

  lemma GapOf(w: int, p: int)
    requires w >= 0 && p > 0
    ensures w <= w * p && (w == w * p <==> w == 0 || p == 1)
  {
    ProductMonotone(1, p, w);
    if p > 1 {
      ProductMonotone(2, p, w);
    }
  }
}
