/**
 Why index expressions are refused, and what arrays among bound indices come to
 (libndarray/src/npy_index.c).
 */
module IndexFaults {
  import opened IndexAcceptance
  import opened Indexing

  // ----- Binding

  /** An index that cannot be bound to the axes `left`, and the error for it; the later
      indices take `later` axes. */
  predicate Fault(ix: Index, later: nat, left: seq<int>, error: IndexError) {
    match ix
    case Str => error == StringIndex
    case Ellipsis => error == TooManyIndices && later > |left|
    case BoolArray(nd) => error == TooManyIndices && nd >= |left|
    case NewAxis => false
    case _ =>
      if left == [] then error == TooManyIndices
      else error == InvalidIndex && (ix.Intp? || ix.Boolean?) && !(-left[0] <= IntegerOf(ix) < left[0])
  }

  /** Index `i` is the fault: the error tells of it and of the axes from its own on. */
  predicate FaultAt(indexes: seq<Index>, dims: seq<int>, i: nat, error: IndexError)
    requires i < |indexes|
  {
    var axis := AxisFor(indexes, i, |dims|);
    0 <= axis <= |dims| && Fault(indexes[i], Taken(indexes[i + 1..]), dims[axis..], error)
  }

  lemma HeadFault(ix: Index, later: nat, dims: seq<int>)
    requires BindHead(ix, later, dims).Err?
    ensures Fault(ix, later, dims, BindHead(ix, later, dims).error)
  {
  }

  lemma {:induction false} TakenSplit(indexes: seq<Index>, i: nat)
    requires i <= |indexes|
    ensures Taken(indexes) == Taken(indexes[..i]) + Taken(indexes[i..])
    decreases i
  {
    if i == 0 {
      assert indexes[..0] == [] && indexes[0..] == indexes;
    } else {
      var rest := indexes[1..];
      TakenSplit(rest, i - 1);
      assert indexes[..i][1..] == rest[..i - 1] && rest[i - 1..] == indexes[i..];
    }
  }

  /** The axis of a later index, seen from the axes that the head leaves. */
  lemma AxisMoves(indexes: seq<Index>, i: nat, nd: nat, used: nat)
    requires i < |indexes| - 1 && used <= nd
    requires if indexes[0].Ellipsis? then used + Taken(indexes[1..]) == nd else used == Takes(indexes[0])
    ensures AxisFor(indexes, i + 1, nd) == used + AxisFor(indexes[1..], i, nd - used)
  {
    if indexes[0].Ellipsis? {
      AxisAfter(indexes, i, nd);
      TakenSplit(indexes[1..], i);
      assert indexes[1..][i..] == indexes[i + 1..];
      hide HasEllipsis, Taken;
    } else {
      AxisTail(indexes, used, i, nd);
    }
  }

  lemma LaterFault(indexes: seq<Index>, dims: seq<int>, used: nat, i: nat, error: IndexError)
    requires i < |indexes| - 1 && used <= |dims| && FaultAt(indexes[1..], dims[used..], i, error)
    requires if indexes[0].Ellipsis? then used + Taken(indexes[1..]) == |dims| else used == Takes(indexes[0])
    ensures FaultAt(indexes, dims, i + 1, error)
  {
    var rest := indexes[1..];
    AxisMoves(indexes, i, |dims|, used);
    hide AxisFor, Taken, Takes, Fault;
    var axis := AxisFor(rest, i, |dims| - used);
    assert dims[used..][axis..] == dims[used + axis..] && rest[i + 1..] == indexes[i + 2..];
  }

  lemma FirstFault(indexes: seq<Index>, dims: seq<int>)
    requires indexes != [] && BindHead(indexes[0], Taken(indexes[1..]), dims).Err?
    ensures FaultAt(indexes, dims, 0, BindHead(indexes[0], Taken(indexes[1..]), dims).error)
  {
    FirstAxis(indexes, |dims|);
    HeadFault(indexes[0], Taken(indexes[1..]), dims);
    hide AxisFor, Taken, Fault, BindHead;
    assert dims[0..] == dims;
  }

  /** A refused expression has a fault, and the error is the one for it. */
  lemma {:induction false} BindFails(indexes: seq<Index>, dims: seq<int>)
    requires Bind(indexes, dims).Err?
    ensures exists i: nat :: i < |indexes| && FaultAt(indexes, dims, i, Bind(indexes, dims).error)
    decreases |indexes|
  {
    var ix, rest := indexes[0], indexes[1..];
    CountIsTaken(rest);
    var h := BindHead(ix, Taken(rest), dims);
    HeadAccepted(ix, Taken(rest), dims);
    var error := Bind(indexes, dims).error;
    hide BindHead, Taken, CountNonNew, FaultAt, InRange;
    if h.Err? {
      FirstFault(indexes, dims);
      assert FaultAt(indexes, dims, 0, error);
    } else {
      var used := h.value.used;
      BindFails(rest, dims[used..]);
      var i: nat :| i < |rest| && FaultAt(rest, dims[used..], i, Bind(rest, dims[used..]).error);
      LaterFault(indexes, dims, used, i, error);
      assert FaultAt(indexes, dims, i + 1, error);
    }
  }

  // ----- The view of a bound expression

  /** What one axis of a view can be made from. */
  predicate Viewable(ix: Index, allowArrays: bool) {
    ix.Intp? || ix.SliceIx? || ix.NewAxis? || (ix.IntpArray? && allowArrays)
  }

  /** A view is made exactly if every index is bound, arrays only if they are allowed, and
      the axes are there. */
  lemma {:induction false} ViewAccepts(bound: seq<Index>, dims: seq<int>, strides: seq<int>, allowArrays: bool)
    requires |dims| == |strides| && StepsNonZero(bound)
    ensures ToView(bound, dims, strides, allowArrays).Ok?
            <==> Taken(bound) <= |dims| && forall i :: 0 <= i < |bound| ==> Viewable(bound[i], allowArrays)
    decreases |bound|
  {
    if bound != [] {
      var a := AxisOf(bound[0], dims, strides, allowArrays);
      var rest := bound[1..];
      if a.Ok? {
        ViewAccepts(rest, dims[a.value.used..], strides[a.value.used..], allowArrays);
        assert forall i :: 0 < i < |bound| ==> bound[i] == rest[i - 1];
      }
    }
  }

  /** The error for an index that no axis of a view can be made from. */
  predicate NoView(ix: Index, left: seq<int>, allowArrays: bool, error: IndexError) {
    match ix
    case NewAxis => false
    case Str => error == StringIndex
    case Boolean(_) => error == IllegalType
    case IntpArray => if allowArrays then error == TooManyIndices && left == [] else error == ArrayIndex
    case Intp(_) => error == TooManyIndices && left == []
    case SliceIx(_) => error == TooManyIndices && left == []
    case _ => error == NotBound
  }

  predicate NoViewAt(bound: seq<Index>, dims: seq<int>, i: nat, allowArrays: bool, error: IndexError)
    requires i < |bound|
  {
    Taken(bound[..i]) <= |dims| && NoView(bound[i], dims[Taken(bound[..i])..], allowArrays, error)
  }

  lemma {:induction false} ViewFails(bound: seq<Index>, dims: seq<int>, strides: seq<int>, allowArrays: bool)
    requires |dims| == |strides| && StepsNonZero(bound) && ToView(bound, dims, strides, allowArrays).Err?
    ensures exists i: nat :: i < |bound|
                             && NoViewAt(bound, dims, i, allowArrays, ToView(bound, dims, strides, allowArrays).error)
    decreases |bound|
  {
    var a := AxisOf(bound[0], dims, strides, allowArrays);
    var rest := bound[1..];
    if a.Err? {
      assert bound[..0] == [] && dims[0..] == dims && NoViewAt(bound, dims, 0, allowArrays, a.error);
    } else {
      var used := a.value.used;
      ViewFails(rest, dims[used..], strides[used..], allowArrays);
      var error := ToView(bound, dims, strides, allowArrays).error;
      var i: nat :| i < |rest| && NoViewAt(rest, dims[used..], i, allowArrays, error);
      assert bound[..i + 1][0] == bound[0] && bound[..i + 1][1..] == rest[..i];
      var taken := Taken(rest[..i]);
      assert dims[used..][taken..] == dims[used + taken..];
      assert NoViewAt(bound, dims, i + 1, allowArrays, error);
    }
  }

  /** Every integer array read as the index 0. */
  function Zeroed(bound: seq<Index>): (r: seq<Index>)
    ensures |r| == |bound|
    ensures forall i :: 0 <= i < |r| ==> r[i] == if bound[i].IntpArray? then Intp(0) else bound[i]
  {
    seq(|bound|, i requires 0 <= i < |bound| => if bound[i].IntpArray? then Intp(0) else bound[i])
  }

  /** The subspace of arrays among the indices: it is that of index 0 in their place. */
  lemma {:induction false} ArraysAreZero(bound: seq<Index>, dims: seq<int>, strides: seq<int>)
    requires |dims| == |strides| && StepsNonZero(bound)
    ensures StepsNonZero(Zeroed(bound))
    ensures ToView(bound, dims, strides, true) == ToView(Zeroed(bound), dims, strides, true)
    decreases |bound|
  {
    if bound != [] {
      assert Zeroed(bound)[1..] == Zeroed(bound[1..]);
      var a := AxisOf(bound[0], dims, strides, true);
      if a.Ok? {
        ArraysAreZero(bound[1..], dims[a.value.used..], strides[a.value.used..]);
      }
    }
  }
}
