/**
 What a bound index expression means: the view it makes shows elements of the
 base array, each at most once, and exactly the selected ones.
 */
module IndexViews {
  import opened CInt
  import opened Shape
  import opened Slices
  import opened Indexing

  /** No strings and no arrays among the indices. */
  predicate Plain(indexes: seq<Index>) {
    forall i :: 0 <= i < |indexes| ==> !indexes[i].Str? && !indexes[i].BoolArray? && !indexes[i].IntpArray?
  }

  predicate NonNegative(dims: seq<int>) {
    forall i :: 0 <= i < |dims| ==> dims[i] >= 0
  }

  /** Integers and slices that stay inside the dimensions they consume. */
  ghost predicate WellBound(bound: seq<Index>, dims: seq<int>) {
    bound != [] ==>
      match bound[0]
      case NewAxis => WellBound(bound[1..], dims)
      case Intp(v) => dims != [] && 0 <= v < dims[0] && WellBound(bound[1..], dims[1..])
      case SliceIx(s) => dims != [] && Within(s, dims[0]) && WellBound(bound[1..], dims[1..])
      case _ => false
  }

  lemma {:induction false} WellBoundSteps(bound: seq<Index>, dims: seq<int>)
    requires WellBound(bound, dims)
    ensures StepsNonZero(bound)
  {
    if bound != [] {
      WellBoundSteps(bound[1..], if bound[0].NewAxis? then dims else dims[1..]);
    }
  }

  lemma {:induction false} FullSlicesWellBound(dims: seq<int>, n: nat, rest: seq<Index>)
    requires n <= |dims| && NonNegative(dims) && WellBound(rest, dims[n..])
    ensures WellBound(FullSlices(dims[..n]) + rest, dims)
    decreases n
  {
    var out := FullSlices(dims[..n]) + rest;
    if n == 0 {
      assert out == rest && dims[0..] == dims;
    } else {
      WholeAxis(dims[0]);
      assert dims[1..][n - 1..] == dims[n..];
      FullSlicesWellBound(dims[1..], n - 1, rest);
      assert out[1..] == FullSlices(dims[1..][..n - 1]) + rest;
    }
  }

  /** Whatever the binding step accepts is well bound. */
  lemma {:induction false} BindWellBound(indexes: seq<Index>, dims: seq<int>)
    requires Plain(indexes) && StepsNonZero(indexes) && NonNegative(dims)
    requires Bind(indexes, dims).Ok?
    ensures WellBound(Bind(indexes, dims).value, dims)
    decreases |indexes|
  {
    if indexes != [] {
      var h := BindHead(indexes[0], CountNonNew(indexes[1..]), dims).value;
      BindWellBound(indexes[1..], dims[h.used..]);
      var rest := Bind(indexes[1..], dims[h.used..]).value;
      var ix := indexes[0];
      if ix.Ellipsis? {
        FullSlicesWellBound(dims, h.used, rest);
      } else if ix.NewAxis? {
        assert dims[0..] == dims && ([NewAxis] + rest)[1..] == rest;
      } else {
        BindOneWithin(ix, dims[0]);
        assert (h.out + rest)[1..] == rest;
      }
    }
  }

  lemma BindOneWithin(ix: Index, dim: int)
    requires dim >= 0 && BindOne(ix, dim).Ok?
    requires (ix.SliceIx? ==> ix.slice.step != 0) && (ix.SliceNoStop? ==> ix.step != 0)
    ensures ix.SliceIx? ==> Within(BindSlice(ix.slice, dim), dim)
    ensures ix.SliceNoStop? ==> Within(BindNoStop(ix.start, ix.step, dim), dim)
  {
    if ix.SliceIx? {
      BoundWithin(ix.slice, dim);
    }
    if ix.SliceNoStop? {
      BoundWithin(Slice(ix.start, 0, ix.step), dim);
    }
  }

  /** The base coordinate of a view coordinate. */
  function BaseCoord(bound: seq<Index>, v: seq<int>): seq<int> {
    if bound == [] then v
    else
      match bound[0]
      case Intp(i) => [i] + BaseCoord(bound[1..], v)
      case SliceIx(s) => if v == [] then [] else [s.start + v[0] * s.step] + BaseCoord(bound[1..], v[1..])
      case _ => if v == [] then [] else BaseCoord(bound[1..], v[1..])
  }

  /** The view of a well-bound index. */
  function ViewOf(bound: seq<Index>, dims: seq<int>, strides: seq<int>): View
    requires |dims| == |strides| && StepsNonZero(bound) && ToView(bound, dims, strides, false).Ok?
  {
    ToView(bound, dims, strides, false).value
  }

  /** A well-bound index is accepted. */
  lemma {:induction false} ViewExists(bound: seq<Index>, dims: seq<int>, strides: seq<int>)
    requires |dims| == |strides| && StepsNonZero(bound) && WellBound(bound, dims)
    ensures ToView(bound, dims, strides, false).Ok?
    ensures var v := ToView(bound, dims, strides, false).value; |v.dims| == |v.strides|
    decreases |bound|
  {
    if bound != [] {
      if bound[0].NewAxis? {
        assert dims[0..] == dims && strides[0..] == strides;
        ViewExists(bound[1..], dims, strides);
      } else {
        ViewExists(bound[1..], dims[1..], strides[1..]);
      }
    }
  }

  /** The view after the first index. */
  lemma ViewTail(bound: seq<Index>, dims: seq<int>, strides: seq<int>)
    requires |dims| == |strides| && StepsNonZero(bound) && WellBound(bound, dims) && bound != []
    ensures var n := if bound[0].NewAxis? then 0 else 1;
            && StepsNonZero(bound[1..]) && WellBound(bound[1..], dims[n..])
            && ToView(bound, dims, strides, false).Ok? && ToView(bound[1..], dims[n..], strides[n..], false).Ok?
            && (var w, t := ViewOf(bound, dims, strides), ViewOf(bound[1..], dims[n..], strides[n..]);
                && |t.dims| == |t.strides|
                && (bound[0].NewAxis? ==> w == View([1] + t.dims, [0] + t.strides, t.offset))
                && (bound[0].Intp? ==> w == View(t.dims, t.strides, strides[0] * bound[0].value + t.offset))
                && (bound[0].SliceIx? ==> var s := bound[0].slice;
                      w == View([SliceSteps(s)] + t.dims, [s.step * strides[0]] + t.strides,
                                strides[0] * s.start + t.offset)))
  {
    var n := if bound[0].NewAxis? then 0 else 1;
    assert dims[0..] == dims && strides[0..] == strides;
    ViewExists(bound, dims, strides);
    ViewExists(bound[1..], dims[n..], strides[n..]);
    var t := ViewOf(bound[1..], dims[n..], strides[n..]);
    assert [] + t.dims == t.dims && [] + t.strides == t.strides;
  }

  /** The dimensions alone. */
  lemma ViewTailDims(bound: seq<Index>, dims: seq<int>, strides: seq<int>)
    requires |dims| == |strides| && StepsNonZero(bound) && WellBound(bound, dims) && bound != []
    ensures var n := if bound[0].NewAxis? then 0 else 1;
            && StepsNonZero(bound[1..]) && WellBound(bound[1..], dims[n..])
            && ToView(bound, dims, strides, false).Ok? && ToView(bound[1..], dims[n..], strides[n..], false).Ok?
            && (var w, t := ViewOf(bound, dims, strides).dims, ViewOf(bound[1..], dims[n..], strides[n..]).dims;
                && (bound[0].NewAxis? ==> w == [1] + t)
                && (bound[0].Intp? ==> w == t)
                && (bound[0].SliceIx? ==> w == [SliceSteps(bound[0].slice)] + t))
  {
    ViewTail(bound, dims, strides);
  }

  /** One axis at a time. */
  lemma ShapeCons(v: seq<int>, d: int, t: seq<int>)
    ensures InShape(v, [d] + t) <==> v != [] && 0 <= v[0] < d && InShape(v[1..], t)
  {
    var dims := [d] + t;
    if InShape(v, dims) {
      assert forall i :: 0 <= i < |t| ==> v[1..][i] == v[i + 1] && t[i] == dims[i + 1];
    }
    if v != [] && 0 <= v[0] < d && InShape(v[1..], t) {
      forall i | 0 <= i < |v| ensures 0 <= v[i] < dims[i] {
        assert i > 0 ==> v[i] == v[1..][i - 1];
      }
    }
  }

  lemma ShapeSplit(v: seq<int>, dims: seq<int>)
    requires dims != []
    ensures InShape(v, dims) <==> v != [] && 0 <= v[0] < dims[0] && InShape(v[1..], dims[1..])
  {
    ShapeCons(v, dims[0], dims[1..]);
    assert [dims[0]] + dims[1..] == dims;
  }

  lemma HeadTail(v: seq<int>, u: seq<int>)
    requires v != [] && u != [] && v[0] == u[0] && v[1..] == u[1..]
    ensures v == u
  {
    assert v == [v[0]] + v[1..] && u == [u[0]] + u[1..];
  }

  lemma BaseUnfolds(bound: seq<Index>, v: seq<int>)
    requires bound != []
    ensures bound[0].NewAxis? && v != [] ==> BaseCoord(bound, v) == BaseCoord(bound[1..], v[1..])
    ensures bound[0].Intp? ==>
              var c := BaseCoord(bound, v); c != [] && c[0] == bound[0].value && c[1..] == BaseCoord(bound[1..], v)
    ensures bound[0].SliceIx? && v != [] ==>
              var c, s := BaseCoord(bound, v), bound[0].slice;
              c != [] && c[0] == s.start + v[0] * s.step && c[1..] == BaseCoord(bound[1..], v[1..])
  {
    if bound[0].Intp? {
      assert BaseCoord(bound, v) == [bound[0].value] + BaseCoord(bound[1..], v);
    }
    if bound[0].SliceIx? && v != [] {
      var s := bound[0].slice;
      assert BaseCoord(bound, v) == [s.start + v[0] * s.step] + BaseCoord(bound[1..], v[1..]);
    }
  }

  lemma DotHead(ix: seq<int>, strides: seq<int>)
    requires |ix| == |strides| && ix != []
    ensures Dot(ix, strides) == Times(ix[0], strides[0]) + Dot(ix[1..], strides[1..])
  {
  }

  /** `k` steps into a slice, on an axis of stride `d`. */
  lemma SliceOffset(start: int, k: int, step: int, d: int)
    ensures Times(start + k * step, d) == d * start + Times(k, step * d)
  {
  }

  lemma SelectedAt(s: Slice, k: int, dim: int)
    requires Within(s, dim) && 0 <= k < SliceSteps(s)
    ensures 0 <= s.start + k * s.step < dim
  {
    assert Selected(s)[k] == s.start + k * s.step;
  }

  /** Every coordinate of the view shows an element of the base. */
  lemma {:induction false} ViewInBase(bound: seq<Index>, dims: seq<int>, strides: seq<int>, v: seq<int>)
    requires |dims| == |strides| && StepsNonZero(bound) && WellBound(bound, dims)
    requires ToView(bound, dims, strides, false).Ok? && InShape(v, ViewOf(bound, dims, strides).dims)
    ensures InShape(BaseCoord(bound, v), dims)
    decreases |bound|
  {
    if bound != [] {
      ViewTailDims(bound, dims, strides);
      BaseUnfolds(bound, v);
      hide ToView, Within, SliceSteps, InShape, BaseCoord;
      if bound[0].NewAxis? {
        assert dims[0..] == dims && strides[0..] == strides;
        ShapeCons(v, 1, ViewOf(bound[1..], dims, strides).dims);
        ViewInBase(bound[1..], dims, strides, v[1..]);
      } else {
        ShapeSplit(BaseCoord(bound, v), dims);
        if bound[0].Intp? {
          ViewInBase(bound[1..], dims[1..], strides[1..], v);
        } else {
          ShapeCons(v, SliceSteps(bound[0].slice), ViewOf(bound[1..], dims[1..], strides[1..]).dims);
          ViewInBase(bound[1..], dims[1..], strides[1..], v[1..]);
          SelectedAt(bound[0].slice, v[0], dims[0]);
        }
      }
    }
  }

  /** The element shown by `v` is at the byte offset that the view computes. */
  ghost predicate Shows(bound: seq<Index>, v: seq<int>, strides: seq<int>, w: View) {
    && |BaseCoord(bound, v)| == |strides| && |v| == |w.strides|
    && Dot(BaseCoord(bound, v), strides) == w.offset + Dot(v, w.strides)
  }

  lemma {:induction false} ViewShowsBase(bound: seq<Index>, dims: seq<int>, strides: seq<int>, v: seq<int>)
    requires |dims| == |strides| && StepsNonZero(bound) && WellBound(bound, dims)
    requires ToView(bound, dims, strides, false).Ok? && InShape(v, ViewOf(bound, dims, strides).dims)
    ensures Shows(bound, v, strides, ViewOf(bound, dims, strides))
    decreases |bound|
  {
    ViewInBase(bound, dims, strides, v);
    if bound != [] {
      ViewTail(bound, dims, strides);
      hide Shows, ToView, Within, SliceSteps, BaseCoord;
      var w := ViewOf(bound, dims, strides);
      if bound[0].NewAxis? {
        assert dims[0..] == dims && strides[0..] == strides;
        ViewShowsBase(bound[1..], dims, strides, v[1..]);
        NewAxisShows(bound, v, strides, w, ViewOf(bound[1..], dims, strides));
      } else if bound[0].Intp? {
        ViewShowsBase(bound[1..], dims[1..], strides[1..], v);
        IntegerShows(bound, v, strides, w, ViewOf(bound[1..], dims[1..], strides[1..]));
      } else {
        ViewShowsBase(bound[1..], dims[1..], strides[1..], v[1..]);
        SliceShows(bound, v, strides, w, ViewOf(bound[1..], dims[1..], strides[1..]));
      }
    }
  }

  lemma NewAxisShows(bound: seq<Index>, v: seq<int>, strides: seq<int>, w: View, t: View)
    requires bound != [] && bound[0].NewAxis? && v != [] && w.strides == [0] + t.strides && w.offset == t.offset
    requires Shows(bound[1..], v[1..], strides, t)
    ensures Shows(bound, v, strides, w)
  {
  }

  lemma IntegerShows(bound: seq<Index>, v: seq<int>, strides: seq<int>, w: View, t: View)
    requires bound != [] && bound[0].Intp? && strides != []
    requires w.strides == t.strides && w.offset == strides[0] * bound[0].value + t.offset
    requires Shows(bound[1..], v, strides[1..], t)
    ensures Shows(bound, v, strides, w)
  {
  }

  lemma SliceShows(bound: seq<Index>, v: seq<int>, strides: seq<int>, w: View, t: View)
    requires bound != [] && bound[0].SliceIx? && strides != [] && v != []
    requires w.strides == [bound[0].slice.step * strides[0]] + t.strides
    requires w.offset == strides[0] * bound[0].slice.start + t.offset
    requires Shows(bound[1..], v[1..], strides[1..], t)
    ensures Shows(bound, v, strides, w)
  {
    hide Dot, Times;
    var s := bound[0].slice;
    assert w.strides[1..] == t.strides;
    DotCons(s.start + v[0] * s.step, BaseCoord(bound[1..], v[1..]), strides);
    DotHead(v, w.strides);
    SliceOffset(s.start, v[0], s.step, strides[0]);
  }

  lemma DotCons(x: int, ix: seq<int>, strides: seq<int>)
    requires |ix| + 1 == |strides|
    ensures Dot([x] + ix, strides) == Times(x, strides[0]) + Dot(ix, strides[1..])
  {
  }

  /** Different view coordinates show different base elements. */
  lemma {:induction false} ViewInjective(bound: seq<Index>, dims: seq<int>, strides: seq<int>, v: seq<int>, u: seq<int>)
    requires |dims| == |strides| && StepsNonZero(bound) && WellBound(bound, dims)
    requires ToView(bound, dims, strides, false).Ok?
    requires InShape(v, ViewOf(bound, dims, strides).dims) && InShape(u, ViewOf(bound, dims, strides).dims)
    requires BaseCoord(bound, v) == BaseCoord(bound, u)
    ensures v == u
    decreases |bound|
  {
    if bound != [] {
      ViewTailDims(bound, dims, strides);
      BaseUnfolds(bound, v);
      BaseUnfolds(bound, u);
      hide ToView, Within, SliceSteps, InShape, BaseCoord;
      if bound[0].NewAxis? {
        assert dims[0..] == dims && strides[0..] == strides;
        ShapeCons(v, 1, ViewOf(bound[1..], dims, strides).dims);
        ShapeCons(u, 1, ViewOf(bound[1..], dims, strides).dims);
        ViewInjective(bound[1..], dims, strides, v[1..], u[1..]);
        HeadTail(v, u);
      } else if bound[0].Intp? {
        ViewInjective(bound[1..], dims[1..], strides[1..], v, u);
      } else {
        ShapeCons(v, SliceSteps(bound[0].slice), ViewOf(bound[1..], dims[1..], strides[1..]).dims);
        ShapeCons(u, SliceSteps(bound[0].slice), ViewOf(bound[1..], dims[1..], strides[1..]).dims);
        ViewInjective(bound[1..], dims[1..], strides[1..], v[1..], u[1..]);
        StepInjective(v[0], u[0], bound[0].slice.step);
        HeadTail(v, u);
      }
    }
  }

  lemma StepInjective(k: int, l: int, step: int)
    requires step != 0 && k * step == l * step
    ensures k == l
  {
  }

  /** The base coordinates an index expression selects. */
  predicate Selects(bound: seq<Index>, c: seq<int>) {
    bound != [] ==>
      match bound[0]
      case NewAxis => Selects(bound[1..], c)
      case Intp(i) => c != [] && c[0] == i && Selects(bound[1..], c[1..])
      case SliceIx(s) =>
        c != [] && s.step != 0 && SliceSteps(s) >= 0 && c[0] in Selected(s) && Selects(bound[1..], c[1..])
      case _ => false
  }

  /** The view coordinate that shows a selected base coordinate. */
  ghost function ViewCoord(bound: seq<Index>, c: seq<int>): (v: seq<int>)
    requires Selects(bound, c)
    ensures BaseCoord(bound, v) == c
  {
    if bound == [] then c
    else
      match bound[0]
      case NewAxis => [0] + ViewCoord(bound[1..], c)
      case Intp(i) => ViewCoord(bound[1..], c[1..])
      case SliceIx(s) =>
        var k :| 0 <= k < |Selected(s)| && Selected(s)[k] == c[0];
        [k] + ViewCoord(bound[1..], c[1..])
  }

  lemma CoordUnfolds(bound: seq<Index>, c: seq<int>)
    requires bound != [] && Selects(bound, c)
    ensures bound[0].NewAxis? ==> Selects(bound[1..], c) && ViewCoord(bound, c) == [0] + ViewCoord(bound[1..], c)
    ensures bound[0].Intp? ==>
              c != [] && Selects(bound[1..], c[1..]) && ViewCoord(bound, c) == ViewCoord(bound[1..], c[1..])
    ensures bound[0].SliceIx? ==>
              && c != [] && Selects(bound[1..], c[1..]) && ViewCoord(bound, c) != []
              && ViewCoord(bound, c)[1..] == ViewCoord(bound[1..], c[1..])
              && bound[0].slice.step != 0 && 0 <= ViewCoord(bound, c)[0] < SliceSteps(bound[0].slice)
  {
    hide SliceSteps, BaseCoord;
  }

  /** The view shows exactly the selected coordinates of the base. */
  lemma {:induction false} ViewShowsSelected(bound: seq<Index>, dims: seq<int>, strides: seq<int>, c: seq<int>)
    requires |dims| == |strides| && StepsNonZero(bound) && WellBound(bound, dims)
    requires InShape(c, dims) && Selects(bound, c)
    ensures ToView(bound, dims, strides, false).Ok?
    ensures InShape(ViewCoord(bound, c), ViewOf(bound, dims, strides).dims)
    decreases |bound|
  {
    if bound != [] {
      ViewTailDims(bound, dims, strides);
      CoordUnfolds(bound, c);
      hide ToView, Within, SliceSteps, ViewCoord, Selects, BaseCoord, InShape;
      var v := ViewCoord(bound, c);
      if bound[0].NewAxis? {
        assert dims[0..] == dims && strides[0..] == strides;
        ViewShowsSelected(bound[1..], dims, strides, c);
        ShapeCons(v, 1, ViewOf(bound[1..], dims, strides).dims);
      } else {
        ShapeSplit(c, dims);
        ViewShowsSelected(bound[1..], dims[1..], strides[1..], c[1..]);
        if bound[0].SliceIx? {
          ShapeCons(v, SliceSteps(bound[0].slice), ViewOf(bound[1..], dims[1..], strides[1..]).dims);
        }
      }
    }
  }

  /** What is shown is selected. */
  lemma {:induction false} ShownIsSelected(bound: seq<Index>, dims: seq<int>, strides: seq<int>, v: seq<int>)
    requires |dims| == |strides| && StepsNonZero(bound) && WellBound(bound, dims)
    requires ToView(bound, dims, strides, false).Ok? && InShape(v, ViewOf(bound, dims, strides).dims)
    ensures Selects(bound, BaseCoord(bound, v))
    decreases |bound|
  {
    if bound != [] {
      ViewTailDims(bound, dims, strides);
      BaseUnfolds(bound, v);
      hide ToView, SliceSteps, InShape, BaseCoord;
      if bound[0].NewAxis? {
        assert dims[0..] == dims && strides[0..] == strides;
        ShapeCons(v, 1, ViewOf(bound[1..], dims, strides).dims);
        ShownIsSelected(bound[1..], dims, strides, v[1..]);
      } else if bound[0].Intp? {
        ShownIsSelected(bound[1..], dims[1..], strides[1..], v);
      } else {
        ShapeCons(v, SliceSteps(bound[0].slice), ViewOf(bound[1..], dims[1..], strides[1..]).dims);
        ShownIsSelected(bound[1..], dims[1..], strides[1..], v[1..]);
        assert Selected(bound[0].slice)[v[0]] == BaseCoord(bound, v)[0];
      }
    }
  }

  // ----- What the unbound index means

  /** How many axes the indices take, an ellipsis counting for one. */
  function Consuming(indexes: seq<Index>): nat {
    if indexes == [] then 0 else (if indexes[0].NewAxis? then 0 else 1) + Consuming(indexes[1..])
  }

  /** Python's meaning of one index on an axis: negative integers count from the
      end, a slice picks what Python slicing picks. */
  predicate PyPicks(ix: Index, dim: int, i: int) {
    match ix
    case Intp(v) => i == if v < 0 then v + dim else v
    case Boolean(flag) => i == if flag then 1 else 0
    case SliceIx(s) => s.step != 0 && i in PySlice(s, dim)
    case SliceNoStop(start, step) => step != 0 && i in PySliceNoStop(start, step, dim)
    case _ => false
  }

  /** Python's meaning of an index expression on the axes not yet taken: the first
      ellipsis fills the gap, another one takes one whole axis, and axes that are
      left over are taken whole. */
  predicate PySelects(indexes: seq<Index>, dims: seq<int>, c: seq<int>, filled: bool)
    requires |c| == |dims|
  {
    indexes == [] ||
    var rest := indexes[1..];
    match indexes[0]
    case NewAxis => PySelects(rest, dims, c, filled)
    case Ellipsis =>
      var gap := if filled then 1 else |dims| - Consuming(rest);
      0 <= gap <= |dims| && PySelects(rest, dims[gap..], c[gap..], true)
    case _ => dims != [] && PyPicks(indexes[0], dims[0], c[0]) && PySelects(rest, dims[1..], c[1..], filled)
  }

  lemma {:induction false} ConsumingCounts(indexes: seq<Index>)
    requires Plain(indexes)
    ensures CountNonNew(indexes) == Consuming(indexes)
  {
    if indexes != [] {
      ConsumingCounts(indexes[1..]);
    }
  }

  lemma WholeAxisSelects(dim: int, i: int)
    requires 0 <= i < dim
    ensures SliceSteps(Slice(0, dim, 1)) == dim && i in Selected(Slice(0, dim, 1))
  {
    WholeAxis(dim);
    assert Selected(Slice(0, dim, 1))[i] == i;
  }

  /** Full slices select everything. */
  lemma {:induction false} FullSelects(dims: seq<int>, n: nat, rest: seq<Index>, c: seq<int>)
    requires n <= |dims| && InShape(c, dims)
    ensures Selects(FullSlices(dims[..n]) + rest, c) <==> Selects(rest, c[n..])
    decreases n
  {
    var out := FullSlices(dims[..n]) + rest;
    if n == 0 {
      assert out == rest && c[0..] == c;
    } else {
      WholeAxisSelects(dims[0], c[0]);
      FullSelects(dims[1..], n - 1, rest, c[1..]);
      assert out[1..] == FullSlices(dims[1..][..n - 1]) + rest;
      assert c[1..][n - 1..] == c[n..];
    }
  }

  /** Binding one index does not change what it picks. */
  lemma BindOnePicks(ix: Index, dim: int, i: int, rest: seq<Index>, c: seq<int>)
    requires BindOne(ix, dim).Ok? && 0 <= i < dim && c != [] && c[0] == i
    requires Plain([ix]) && !ix.Ellipsis? && !ix.NewAxis? && StepsNonZero([ix])
    ensures Selects([BindOne(ix, dim).value] + rest, c) <==> PyPicks(ix, dim, i) && Selects(rest, c[1..])
  {
    assert ix == [ix][0];
    var out := [BindOne(ix, dim).value] + rest;
    assert out[1..] == rest;
    if ix.SliceIx? {
      BoundLikePython(ix.slice, dim);
    }
    if ix.SliceNoStop? {
      NoStopLikePython(ix.start, ix.step, dim);
    }
  }

  /** What binding makes of the first index. */
  lemma BindUnfolds(indexes: seq<Index>, dims: seq<int>)
    requires indexes != [] && Bind(indexes, dims).Ok?
    ensures var h := BindHead(indexes[0], CountNonNew(indexes[1..]), dims);
            && h.Ok? && Bind(indexes[1..], dims[h.value.used..]).Ok?
            && Bind(indexes, dims).value == h.value.out + Bind(indexes[1..], dims[h.value.used..]).value
  {
    hide BindHead, CountNonNew;
  }

  lemma EllipsisMeans(indexes: seq<Index>, dims: seq<int>, c: seq<int>, filled: bool, h: Piece, rest: seq<Index>)
    requires indexes != [] && indexes[0].Ellipsis? && Plain(indexes[1..]) && InShape(c, dims)
    requires BindHead(indexes[0], CountNonNew(indexes[1..]), dims) == Ok(h)
    requires filled ==> |dims| == Consuming(indexes)
    requires Selects(rest, c[h.used..]) <==> PySelects(indexes[1..], dims[h.used..], c[h.used..], true)
    ensures Selects(h.out + rest, c) <==> PySelects(indexes, dims, c, filled)
  {
    ConsumingCounts(indexes[1..]);
    FullSelects(dims, h.used, rest, c);
    hide Selects;
  }

  lemma NewAxisMeans(indexes: seq<Index>, dims: seq<int>, c: seq<int>, filled: bool, rest: seq<Index>)
    requires indexes != [] && indexes[0].NewAxis? && |c| == |dims|
    requires Selects(rest, c) <==> PySelects(indexes[1..], dims, c, filled)
    ensures Selects([NewAxis] + rest, c) <==> PySelects(indexes, dims, c, filled)
  {
    assert ([NewAxis] + rest)[1..] == rest;
  }

  lemma OtherMeans(indexes: seq<Index>, dims: seq<int>, c: seq<int>, filled: bool, rest: seq<Index>)
    requires indexes != [] && dims != [] && !indexes[0].NewAxis? && !indexes[0].Ellipsis?
    requires Plain(indexes) && StepsNonZero(indexes) && InShape(c, dims) && BindOne(indexes[0], dims[0]).Ok?
    requires Selects(rest, c[1..]) <==> PySelects(indexes[1..], dims[1..], c[1..], filled)
    ensures Selects([BindOne(indexes[0], dims[0]).value] + rest, c) <==> PySelects(indexes, dims, c, filled)
  {
    BindOnePicks(indexes[0], dims[0], c[0], rest, c);
    hide Selects, PyPicks;
  }

  /** The bound index selects what the unbound one means. */
  lemma {:induction false} SelectsLikePython(indexes: seq<Index>, dims: seq<int>, c: seq<int>, filled: bool)
    requires Plain(indexes) && StepsNonZero(indexes) && InShape(c, dims)
    requires Bind(indexes, dims).Ok? && (filled ==> |dims| == Consuming(indexes))
    ensures Selects(Bind(indexes, dims).value, c) <==> PySelects(indexes, dims, c, filled)
    decreases |indexes|
  {
    if indexes != [] {
      var ix, later := indexes[0], indexes[1..];
      BindUnfolds(indexes, dims);
      ConsumingCounts(later);
      hide Bind, Selects, PySelects, CountNonNew;
      var h := BindHead(ix, CountNonNew(later), dims).value;
      var rest := Bind(later, dims[h.used..]).value;
      SelectsLikePython(later, dims[h.used..], c[h.used..], filled || ix.Ellipsis?);
      if ix.Ellipsis? {
        EllipsisMeans(indexes, dims, c, filled, h, rest);
      } else if ix.NewAxis? {
        assert dims[0..] == dims && c[0..] == c;
        NewAxisMeans(indexes, dims, c, filled, rest);
      } else {
        OtherMeans(indexes, dims, c, filled, rest);
      }
    }
  }

  /** From an index expression to its view: what binding accepts, the view builder
      accepts; the view shows base elements, each once, and exactly those that the
      expression means in Python. */
  lemma BindThenView(indexes: seq<Index>, dims: seq<int>, strides: seq<int>)
    requires Plain(indexes) && StepsNonZero(indexes) && NonNegative(dims) && |dims| == |strides|
    requires Bind(indexes, dims).Ok?
    ensures var bound := Bind(indexes, dims).value;
            && StepsNonZero(bound) && ToView(bound, dims, strides, false).Ok?
            && (var w := ViewOf(bound, dims, strides);
                && |w.dims| == |w.strides|
                && (forall v :: InShape(v, w.dims) ==>
                      InShape(BaseCoord(bound, v), dims) && PySelects(indexes, dims, BaseCoord(bound, v), false)
                      && Dot(BaseCoord(bound, v), strides) == w.offset + Dot(v, w.strides))
                && (forall v, u ::
                      InShape(v, w.dims) && InShape(u, w.dims) && BaseCoord(bound, v) == BaseCoord(bound, u) ==> v == u)
                && (forall c :: InShape(c, dims) && PySelects(indexes, dims, c, false) ==>
                      exists v :: InShape(v, w.dims) && BaseCoord(bound, v) == c))
  {
    BindWellBound(indexes, dims);
    var bound := Bind(indexes, dims).value;
    WellBoundSteps(bound, dims);
    ViewExists(bound, dims, strides);
    hide Bind, ToView, Dot, Selects, PySelects, BaseCoord, WellBound;
    var w := ViewOf(bound, dims, strides);
    forall v | InShape(v, w.dims)
      ensures InShape(BaseCoord(bound, v), dims) && PySelects(indexes, dims, BaseCoord(bound, v), false)
      ensures Dot(BaseCoord(bound, v), strides) == w.offset + Dot(v, w.strides)
    {
      ViewInBase(bound, dims, strides, v);
      ViewShowsBase(bound, dims, strides, v);
      ShownIsSelected(bound, dims, strides, v);
      SelectsLikePython(indexes, dims, BaseCoord(bound, v), false);
    }
    forall v, u | InShape(v, w.dims) && InShape(u, w.dims) && BaseCoord(bound, v) == BaseCoord(bound, u)
      ensures v == u
    {
      ViewInjective(bound, dims, strides, v, u);
    }
    forall c | InShape(c, dims) && PySelects(indexes, dims, c, false)
      ensures exists v :: InShape(v, w.dims) && BaseCoord(bound, v) == c
    {
      SelectsLikePython(indexes, dims, c, false);
      ViewShowsSelected(bound, dims, strides, c);
      assert BaseCoord(bound, ViewCoord(bound, c)) == c;
    }
  }
}
