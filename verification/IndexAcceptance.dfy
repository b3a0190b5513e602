/**
 Which index expressions an array accepts and what becomes of arrays among the indices
 (libndarray/src/npy_index.c), told from the expression and the shape alone.
 */
module IndexAcceptance {
  import opened Indexing

  /** A Boolean array stands for as many axes as it has, a new axis for none. */
  function Takes(ix: Index): nat {
    match ix
    case NewAxis => 0
    case BoolArray(nd) => nd
    case _ => 1
  }

  function Taken(indexes: seq<Index>): nat {
    if indexes == [] then 0 else Takes(indexes[0]) + Taken(indexes[1..])
  }

  predicate HasEllipsis(indexes: seq<Index>) {
    exists i :: 0 <= i < |indexes| && indexes[i].Ellipsis?
  }

  /** The axes that the expression needs: the first ellipsis can do without, another
      one takes an axis. */
  function Needed(indexes: seq<Index>): int {
    Taken(indexes) - if HasEllipsis(indexes) then 1 else 0
  }

  /** The axis that index `i` is for: counted from the front up to the first ellipsis,
      and from the back after it. */
  function AxisFor(indexes: seq<Index>, i: nat, nd: nat): int
    requires i < |indexes|
  {
    if HasEllipsis(indexes[..i]) then nd - Taken(indexes[i..]) else Taken(indexes[..i])
  }

  function IntegerOf(ix: Index): int {
    match ix
    case Intp(v) => v
    case Boolean(b) => if b then 1 else 0
    case _ => 0
  }

  /** An integer, or a Boolean, which counts as one, is in range for its axis. A Boolean
      array has to leave an axis to others. A string never fits. */
  predicate InRange(ix: Index, dims: seq<int>, axis: int) {
    && !ix.Str?
    && (ix.Intp? || ix.Boolean? ==> 0 <= axis < |dims| && -dims[axis] <= IntegerOf(ix) < dims[axis])
    && (ix.BoolArray? ==> axis + ix.nd < |dims|)
  }

  predicate OneInRange(indexes: seq<Index>, dims: seq<int>, i: nat)
    requires i < |indexes|
  {
    InRange(indexes[i], dims, AxisFor(indexes, i, |dims|))
  }

  ghost predicate AllInRange(indexes: seq<Index>, dims: seq<int>) {
    forall i: nat :: i < |indexes| ==> OneInRange(indexes, dims, i)
  }

  // ----- The head of the list

  lemma HeadAccepted(ix: Index, later: nat, dims: seq<int>)
    ensures var h := BindHead(ix, later, dims);
            match ix
            case Ellipsis => (h.Ok? <==> later <= |dims|) && (h.Ok? ==> h.value.used == |dims| - later)
            case _ =>
              (h.Ok? <==> Takes(ix) <= |dims| && InRange(ix, dims, 0)) && (h.Ok? ==> h.value.used == Takes(ix))
  {
  }

  lemma {:induction false} CountIsTaken(indexes: seq<Index>)
    ensures CountNonNew(indexes) == Taken(indexes)
  {
    if indexes != [] {
      CountIsTaken(indexes[1..]);
    }
  }

  lemma BindOf(indexes: seq<Index>, dims: seq<int>)
    requires indexes != []
    ensures var h := BindHead(indexes[0], CountNonNew(indexes[1..]), dims);
            Bind(indexes, dims).Ok? <==> h.Ok? && Bind(indexes[1..], dims[h.value.used..]).Ok?
  {
  }

  // ----- After the ellipsis

  predicate OneAfter(indexes: seq<Index>, dims: seq<int>, i: nat)
    requires i < |indexes|
  {
    InRange(indexes[i], dims, |dims| - Taken(indexes[i..]))
  }

  ghost predicate AllAfter(indexes: seq<Index>, dims: seq<int>) {
    forall i: nat :: i < |indexes| ==> OneAfter(indexes, dims, i)
  }

  lemma {:induction false} TakenLess(indexes: seq<Index>, i: nat)
    requires i <= |indexes|
    ensures Taken(indexes[i..]) <= Taken(indexes)
    decreases i
  {
    if i == 0 {
      assert indexes[0..] == indexes;
    } else {
      assert indexes[1..][i - 1..] == indexes[i..];
      TakenLess(indexes[1..], i - 1);
    }
  }

  /** Dropping the head, and the axes it took, moves nothing else. */
  lemma AfterTail(indexes: seq<Index>, dims: seq<int>, used: nat, i: nat)
    requires i < |indexes| - 1 && used <= |dims| && Taken(indexes[1..]) <= |dims| - used
    ensures OneAfter(indexes, dims, i + 1) <==> OneAfter(indexes[1..], dims[used..], i)
  {
    assert indexes[1..][i..] == indexes[i + 1..];
    TakenLess(indexes[1..], i);
    hide Taken;
  }

  lemma AllAfterSplits(indexes: seq<Index>, dims: seq<int>, used: nat)
    requires indexes != [] && used <= |dims| && Taken(indexes[1..]) <= |dims| - used
    ensures AllAfter(indexes, dims) <==> OneAfter(indexes, dims, 0) && AllAfter(indexes[1..], dims[used..])
  {
    hide OneAfter, Taken;
    forall i: nat | i < |indexes| - 1
      ensures OneAfter(indexes, dims, i + 1) <==> OneAfter(indexes[1..], dims[used..], i)
    {
      AfterTail(indexes, dims, used, i);
    }
    if OneAfter(indexes, dims, 0) && AllAfter(indexes[1..], dims[used..]) {
      forall i: nat | i < |indexes| ensures OneAfter(indexes, dims, i) {
        if i > 0 {
          assert OneAfter(indexes[1..], dims[used..], i - 1);
        }
      }
    }
    if AllAfter(indexes, dims) {
      forall i: nat | i < |indexes| - 1 ensures OneAfter(indexes[1..], dims[used..], i) {
        assert OneAfter(indexes, dims, i + 1);
      }
    }
  }

  /** After the ellipsis, every index that takes an axis has just one left for it. */
  lemma {:induction false} AcceptedAfter(indexes: seq<Index>, dims: seq<int>)
    requires |dims| == Taken(indexes)
    ensures Bind(indexes, dims).Ok? <==> AllAfter(indexes, dims)
    decreases |indexes|
  {
    if indexes != [] {
      var ix, rest := indexes[0], indexes[1..];
      var used := Takes(ix);
      CountIsTaken(rest);
      HeadAccepted(ix, CountNonNew(rest), dims);
      BindOf(indexes, dims);
      assert indexes[0..] == indexes;
      hide BindHead, Bind, Taken, AllAfter;
      AcceptedAfter(rest, dims[used..]);
      AllAfterSplits(indexes, dims, used);
    }
  }

  // ----- The whole list

  lemma EllipsisHead(indexes: seq<Index>)
    requires indexes != []
    ensures HasEllipsis(indexes) <==> indexes[0].Ellipsis? || HasEllipsis(indexes[1..])
  {
    if i :| 0 <= i < |indexes| && indexes[i].Ellipsis? {
      assert i > 0 ==> indexes[1..][i - 1].Ellipsis?;
    }
    if i :| 0 <= i < |indexes| - 1 && indexes[1..][i].Ellipsis? {
      assert indexes[i + 1].Ellipsis?;
    }
  }

  /** The axis of a later index, after a head that is no ellipsis. */
  lemma AxisTail(indexes: seq<Index>, used: nat, i: nat, nd: nat)
    requires i < |indexes| - 1 && !indexes[0].Ellipsis? && used == Takes(indexes[0]) && used <= nd
    ensures AxisFor(indexes, i + 1, nd) == used + AxisFor(indexes[1..], i, nd - used)
  {
    var pre := indexes[..i + 1];
    assert pre[0] == indexes[0] && pre[1..] == indexes[1..][..i] && indexes[1..][i..] == indexes[i + 1..];
    EllipsisHead(pre);
    hide HasEllipsis, Taken;
  }

  /** The axis of a later index, after the first ellipsis. */
  lemma AxisAfter(indexes: seq<Index>, i: nat, nd: nat)
    requires i < |indexes| - 1 && indexes[0].Ellipsis?
    ensures AxisFor(indexes, i + 1, nd) == nd - Taken(indexes[i + 1..])
  {
    assert indexes[..i + 1][0].Ellipsis?;
  }

  lemma AxisNotNegative(indexes: seq<Index>, i: nat, nd: nat)
    requires i < |indexes| && Needed(indexes) <= nd
    ensures AxisFor(indexes, i, nd) >= 0
  {
    var pre := indexes[..i];
    if HasEllipsis(pre) {
      var j :| 0 <= j < |pre| && pre[j].Ellipsis?;
      assert indexes[j].Ellipsis?;
      TakenLess(indexes, j);
      assert indexes[j..][1..] == indexes[j + 1..] && indexes[j + 1..][i - j - 1..] == indexes[i..];
      TakenLess(indexes[j + 1..], i - j - 1);
    }
  }

  /** A head that is no ellipsis and takes `used` axes. */
  lemma TailInRange(indexes: seq<Index>, dims: seq<int>, used: nat)
    requires indexes != [] && !indexes[0].Ellipsis? && used == Takes(indexes[0])
    requires used <= |dims| && Needed(indexes[1..]) <= |dims| - used
    ensures AllInRange(indexes, dims) <==> OneInRange(indexes, dims, 0) && AllInRange(indexes[1..], dims[used..])
  {
    hide HasEllipsis, Taken, Needed, AxisFor;
    var rest := indexes[1..];
    forall i: nat | i < |rest| ensures OneInRange(indexes, dims, i + 1) <==> OneInRange(rest, dims[used..], i) {
      AxisTail(indexes, used, i, |dims|);
      AxisNotNegative(rest, i, |dims| - used);
    }
    hide OneInRange;
    if OneInRange(indexes, dims, 0) && AllInRange(rest, dims[used..]) {
      forall i: nat | i < |indexes| ensures OneInRange(indexes, dims, i) {
        if i > 0 {
          assert OneInRange(rest, dims[used..], i - 1);
        }
      }
    }
    if AllInRange(indexes, dims) {
      forall i: nat | i < |rest| ensures OneInRange(rest, dims[used..], i) {
        assert OneInRange(indexes, dims, i + 1);
      }
    }
  }

  /** A head that is the first ellipsis. */
  lemma EllipsisInRange(indexes: seq<Index>, dims: seq<int>)
    requires indexes != [] && indexes[0].Ellipsis? && Taken(indexes[1..]) <= |dims|
    ensures AllInRange(indexes, dims) <==> AllAfter(indexes[1..], dims[|dims| - Taken(indexes[1..])..])
  {
    var rest, used := indexes[1..], |dims| - Taken(indexes[1..]);
    hide HasEllipsis, AxisFor;
    forall i: nat | i < |rest| ensures OneInRange(indexes, dims, i + 1) <==> OneAfter(rest, dims[used..], i) {
      AxisAfter(indexes, i, |dims|);
      AfterTail(indexes, dims, used, i);
    }
    assert OneInRange(indexes, dims, 0);
    hide OneInRange, OneAfter, Taken;
    if AllAfter(rest, dims[used..]) {
      forall i: nat | i < |indexes| ensures OneInRange(indexes, dims, i) {
        if i > 0 {
          assert OneAfter(rest, dims[used..], i - 1);
        }
      }
    }
    if AllInRange(indexes, dims) {
      forall i: nat | i < |rest| ensures OneAfter(rest, dims[used..], i) {
        assert OneInRange(indexes, dims, i + 1);
      }
    }
  }

  /** An index expression is accepted exactly if the axes it needs are there, every
      integer is in range for its axis, every Boolean array leaves an axis over, and
      there is no string. */
  lemma {:induction false} BindAccepts(indexes: seq<Index>, dims: seq<int>)
    ensures Bind(indexes, dims).Ok? <==> Needed(indexes) <= |dims| && AllInRange(indexes, dims)
    decreases |indexes|
  {
    if indexes == [] {
    } else if indexes[0].Ellipsis? {
      AcceptsEllipsis(indexes, dims);
    } else {
      AcceptsOther(indexes, dims);
    }
  }

  lemma EllipsisBinds(indexes: seq<Index>, dims: seq<int>)
    requires indexes != [] && indexes[0].Ellipsis?
    ensures var rest := indexes[1..];
            Bind(indexes, dims).Ok? <==> Taken(rest) <= |dims| && Bind(rest, dims[|dims| - Taken(rest)..]).Ok?
  {
    CountIsTaken(indexes[1..]);
    HeadAccepted(indexes[0], CountNonNew(indexes[1..]), dims);
    BindOf(indexes, dims);
    hide Bind, BindHead, Taken, CountNonNew;
  }

  lemma EllipsisNeeds(indexes: seq<Index>)
    requires indexes != [] && indexes[0].Ellipsis?
    ensures Needed(indexes) == Taken(indexes[1..])
  {
    assert HasEllipsis(indexes);
  }

  lemma AcceptsEllipsis(indexes: seq<Index>, dims: seq<int>)
    requires indexes != [] && indexes[0].Ellipsis?
    ensures Bind(indexes, dims).Ok? <==> Needed(indexes) <= |dims| && AllInRange(indexes, dims)
  {
    hide *;
    var rest := indexes[1..];
    EllipsisBinds(indexes, dims);
    EllipsisNeeds(indexes);
    if Taken(rest) <= |dims| {
      AcceptedAfter(rest, dims[|dims| - Taken(rest)..]);
      EllipsisInRange(indexes, dims);
    }
  }

  lemma AcceptsOther(indexes: seq<Index>, dims: seq<int>)
    requires indexes != [] && !indexes[0].Ellipsis?
    ensures Bind(indexes, dims).Ok? <==> Needed(indexes) <= |dims| && AllInRange(indexes, dims)
    decreases |indexes|, 0
  {
    var ix, rest := indexes[0], indexes[1..];
    var used := Takes(ix);
    EllipsisHead(indexes);
    NeededNotNegative(rest);
    HeadAccepted(ix, CountNonNew(rest), dims);
    BindOf(indexes, dims);
    FirstAxis(indexes, |dims|);
    hide Bind, BindHead, Taken, HasEllipsis, AllInRange, CountNonNew, AxisFor;
    if used <= |dims| {
      BindAccepts(rest, dims[used..]);
      if Needed(rest) <= |dims| - used {
        TailInRange(indexes, dims, used);
      }
    }
  }

  lemma {:induction false} NeededNotNegative(indexes: seq<Index>)
    ensures Needed(indexes) >= 0
  {
    if HasEllipsis(indexes) {
      var i :| 0 <= i < |indexes| && indexes[i].Ellipsis?;
      TakenLess(indexes, i);
    }
  }

  lemma FirstAxis(indexes: seq<Index>, nd: nat)
    requires indexes != []
    ensures AxisFor(indexes, 0, nd) == 0
  {
  }

  // ----- Arrays among the indices

  function IntegerArrays(n: nat): (r: seq<Index>)
    ensures |r| == n && forall i :: 0 <= i < n ==> r[i] == IntpArray
  {
    seq(n, _ => IntpArray)
  }

  /** Every Boolean array written as one integer array for each of its axes. */
  function Expanded(indexes: seq<Index>): seq<Index> {
    if indexes == [] then []
    else (if indexes[0].BoolArray? then IntegerArrays(indexes[0].nd) else [indexes[0]]) + Expanded(indexes[1..])
  }

  lemma {:induction false} ArraysTaken(n: nat, rest: seq<Index>)
    ensures Taken(IntegerArrays(n) + rest) == n + Taken(rest)
  {
    var s := IntegerArrays(n) + rest;
    if n == 0 {
      assert s == rest;
    } else {
      assert s[1..] == IntegerArrays(n - 1) + rest;
      ArraysTaken(n - 1, rest);
    }
  }

  lemma {:induction false} ExpandedTaken(indexes: seq<Index>)
    ensures Taken(Expanded(indexes)) == Taken(indexes)
  {
    if indexes != [] {
      var rest := Expanded(indexes[1..]);
      ExpandedTaken(indexes[1..]);
      if indexes[0].BoolArray? {
        ArraysTaken(indexes[0].nd, rest);
      } else {
        assert ([indexes[0]] + rest)[1..] == rest;
      }
    }
  }

  lemma ArrayFirst(rest: seq<Index>, dims: seq<int>)
    requires dims != []
    ensures Bind([IntpArray] + rest, dims) == Prepend([IntpArray], Bind(rest, dims[1..]))
  {
    assert ([IntpArray] + rest)[1..] == rest;
  }

  /** Integer arrays are bound as they are, one axis each. */
  lemma {:induction false} ArraysBound(n: nat, rest: seq<Index>, dims: seq<int>)
    requires n <= |dims| && Bind(rest, dims[n..]).Ok?
    ensures Bind(IntegerArrays(n) + rest, dims) == Ok(IntegerArrays(n) + Bind(rest, dims[n..]).value)
  {
    hide Bind;
    var out := Bind(rest, dims[n..]).value;
    if n == 0 {
      assert IntegerArrays(0) + rest == rest && dims[0..] == dims && IntegerArrays(0) + out == out;
    } else {
      assert IntegerArrays(n) == [IntpArray] + IntegerArrays(n - 1);
      ArraysBound(n - 1, rest, dims[1..]);
      assert dims[1..][n - 1..] == dims[n..];
      ArrayFirst(IntegerArrays(n - 1) + rest, dims);
      assert [IntpArray] + (IntegerArrays(n - 1) + rest) == IntegerArrays(n) + rest;
      assert [IntpArray] + (IntegerArrays(n - 1) + out) == IntegerArrays(n) + out;
    }
  }

  /** An accepted expression with Boolean arrays is bound like the one with integer
      arrays in their place. */
  lemma {:induction false} BindExpands(indexes: seq<Index>, dims: seq<int>)
    requires Bind(indexes, dims).Ok?
    ensures Bind(Expanded(indexes), dims) == Bind(indexes, dims)
    decreases |indexes|
  {
    if indexes != [] {
      var ix, rest := indexes[0], indexes[1..];
      var h := BindHead(ix, CountNonNew(rest), dims);
      BindExpands(rest, dims[h.value.used..]);
      if ix.BoolArray? {
        ArraysBound(ix.nd, Expanded(rest), dims);
        assert seq(ix.nd, _ => IntpArray) == IntegerArrays(ix.nd);
      } else {
        ExpandedTaken(rest);
        CountIsTaken(rest);
        CountIsTaken(Expanded(rest));
        assert ([ix] + Expanded(rest))[1..] == Expanded(rest);
      }
    }
  }

  /** What a bound expression consists of. */
  predicate IsBound(ix: Index) {
    ix.Intp? || ix.SliceIx? || ix.IntpArray? || ix.NewAxis?
  }

  function Arrays(indexes: seq<Index>): nat {
    if indexes == [] then 0 else (if indexes[0].IntpArray? then 1 else 0) + Arrays(indexes[1..])
  }

  lemma {:induction false} ArraysAppend(a: seq<Index>, b: seq<Index>)
    ensures Arrays(a + b) == Arrays(a) + Arrays(b)
  {
    if a == [] {
      assert a + b == b;
    } else {
      assert (a + b)[1..] == a[1..] + b;
      ArraysAppend(a[1..], b);
    }
  }

  lemma {:induction false} NoArrays(indexes: seq<Index>)
    requires forall i :: 0 <= i < |indexes| ==> !indexes[i].IntpArray?
    ensures Arrays(indexes) == 0
  {
    if indexes != [] {
      NoArrays(indexes[1..]);
    }
  }

  lemma {:induction false} OnlyArrays(n: nat)
    ensures Arrays(IntegerArrays(n)) == n
  {
    if n > 0 {
      assert IntegerArrays(n)[1..] == IntegerArrays(n - 1);
      OnlyArrays(n - 1);
    }
  }

  lemma HeadArrays(ix: Index, later: nat, dims: seq<int>)
    requires BindHead(ix, later, dims).Ok?
    ensures var out := BindHead(ix, later, dims).value.out;
            && (forall i :: 0 <= i < |out| ==> IsBound(out[i]))
            && Arrays(out) == if ix.IntpArray? then 1 else if ix.BoolArray? then ix.nd else 0
  {
    var out := BindHead(ix, later, dims).value.out;
    if ix.BoolArray? {
      assert out == IntegerArrays(ix.nd);
      OnlyArrays(ix.nd);
    } else if !ix.IntpArray? {
      NoArrays(out);
    }
  }

  /** No integer array comes or goes in binding, and nothing is left to be bound. */
  lemma {:induction false} BindArrays(indexes: seq<Index>, dims: seq<int>)
    requires Bind(indexes, dims).Ok?
    ensures forall i :: 0 <= i < |Bind(indexes, dims).value| ==> IsBound(Bind(indexes, dims).value[i])
    ensures Arrays(Bind(indexes, dims).value) == Arrays(Expanded(indexes))
    decreases |indexes|
  {
    if indexes != [] {
      var ix, rest := indexes[0], indexes[1..];
      var h := BindHead(ix, CountNonNew(rest), dims);
      var out := Bind(rest, dims[h.value.used..]).value;
      BindArrays(rest, dims[h.value.used..]);
      HeadArrays(ix, CountNonNew(rest), dims);
      ArraysAppend(h.value.out, out);
      if ix.BoolArray? {
        OnlyArrays(ix.nd);
        ArraysAppend(IntegerArrays(ix.nd), Expanded(rest));
      } else {
        ArraysAppend([ix], Expanded(rest));
      }
    }
  }
}
