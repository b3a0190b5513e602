/**
 Index expressions: binding them to a shape and turning a bound index into the
 dimensions, strides and offset of a view (libndarray/src/npy_index.c).
 */
module Indexing {
  import opened Slices

  /** Arrays used as indices are known by their number of dimensions. */
  datatype Index =
    | Intp(value: int)
    | Boolean(flag: bool)
    | SliceIx(slice: Slice)
    | SliceNoStop(start: int, step: int)
    | Str
    | BoolArray(nd: nat)
    | IntpArray
    | Ellipsis
    | NewAxis

  datatype IndexError = TooManyIndices | InvalidIndex | StringIndex | NotBound | ArrayIndex | IllegalType

  datatype Result<T> = Ok(value: T) | Err(error: IndexError)

  datatype View = View(dims: seq<int>, strides: seq<int>, offset: int)

  function CountNonNew(indexes: seq<Index>): nat {
    if indexes == [] then 0
    else (match indexes[0]
          case NewAxis => 0
          case BoolArray(nd) => nd
          case _ => 1) + CountNonNew(indexes[1..])
  }

  method CountNonNewLoop(indexes: seq<Index>) returns (result: nat)
    ensures result == CountNonNew(indexes)
  {
    result := 0;
    var i := 0;
    while i < |indexes|
      invariant i <= |indexes| && result + CountNonNew(indexes[i..]) == CountNonNew(indexes)
    {
      match indexes[i] {
        case NewAxis =>
        case BoolArray(nd) => result := result + nd;
        case _ => result := result + 1;
      }
      i := i + 1;
    }
  }

  function Prepend(out: seq<Index>, r: Result<seq<Index>>): Result<seq<Index>> {
    match r case Ok(rest) => Ok(out + rest) case Err(e) => Err(e)
  }

  function FullSlices(dims: seq<int>): (r: seq<Index>)
    ensures |r| == |dims| && forall j :: 0 <= j < |r| ==> r[j] == SliceIx(Slice(0, dims[j], 1))
  {
    seq(|dims|, j requires 0 <= j < |dims| => SliceIx(Slice(0, dims[j], 1)))
  }

  /** The bound indices that replace one index, and how many dimensions they use. */
  datatype Piece = Piece(out: seq<Index>, used: nat)

  /** What becomes of an index when `dims` are the dimensions not yet consumed and
      the later indices stand for `later` of them. */
  function BindHead(ix: Index, later: nat, dims: seq<int>): (r: Result<Piece>)
    ensures r.Ok? ==> r.value.used <= |dims|
    ensures r.Ok? ==> |r.value.out| == r.value.used + if ix.NewAxis? then 1 else 0
  {
    match ix
    case Str => Err(StringIndex)
    case NewAxis => Ok(Piece([NewAxis], 0))
    case Ellipsis =>
      var n := |dims| - later;
      if n < 0 then Err(TooManyIndices) else Ok(Piece(FullSlices(dims[..n]), n))
    case BoolArray(nd) =>
      if nd >= |dims| then Err(TooManyIndices) else Ok(Piece(seq(nd, _ => IntpArray), nd))
    case _ =>
      if dims == [] then Err(TooManyIndices) else AsPiece(BindOne(ix, dims[0]))
  }

  function AsPiece(b: Result<Index>): (r: Result<Piece>)
    ensures r.Ok? ==> r.value.used == |r.value.out| == 1
  {
    match b case Ok(ix) => Ok(Piece([ix], 1)) case Err(e) => Err(e)
  }

  function Bind(indexes: seq<Index>, dims: seq<int>): Result<seq<Index>> {
    if indexes == [] then Ok([])
    else
      var h := BindHead(indexes[0], CountNonNew(indexes[1..]), dims);
      if h.Err? then Err(h.error) else Prepend(h.value.out, Bind(indexes[1..], dims[h.value.used..]))
  }

  /** An index that consumes one dimension. */
  function BindOne(ix: Index, dim: int): Result<Index> {
    match ix
    case SliceIx(s) => Ok(SliceIx(BindSlice(s, dim)))
    case SliceNoStop(start, step) => Ok(SliceIx(BindNoStop(start, step, dim)))
    case Intp(v) => BindInteger(v, dim)
    case Boolean(b) => BindInteger(if b then 1 else 0, dim)
    case _ => Ok(ix)
  }

  function BindInteger(v: int, dim: int): Result<Index> {
    var val := if v < 0 then v + dim else v;
    if val < 0 || val >= dim then Err(InvalidIndex) else Ok(Intp(val))
  }

  /** The assignments that clamp a start, as the source orders them. */
  method ClampStart(start0: int, step: int, dim: int) returns (start: int)
    ensures start == BindStart(start0, step, dim)
  {
    start := start0;
    if start < 0 {
      start := start + dim;
    }
    if start < 0 {
      start := 0;
      if step < 0 {
        start := start - 1;
      }
    }
    if start >= dim {
      start := dim;
      if step < 0 {
        start := start - 1;
      }
    }
  }

  method ClampSlice(s: Slice, dim: int) returns (r: Slice)
    ensures r == BindSlice(s, dim)
  {
    var start := ClampStart(s.start, s.step, dim);
    var stop := s.stop;
    if stop < 0 {
      stop := stop + dim;
    }
    if stop < 0 {
      stop := -1;
    }
    if stop > dim {
      stop := dim;
    }
    r := Slice(start, stop, s.step);
  }

  /** One step of binding, in the middle of the list. */
  lemma BindStep(indexes: seq<Index>, i: nat, dims: seq<int>, used: nat, out: seq<Index>)
    requires i < |indexes| && used <= |dims|
    ensures var h := BindHead(indexes[i], CountNonNew(indexes[i + 1..]), dims[used..]);
            Prepend(out, Bind(indexes[i..], dims[used..]))
            == if h.Err? then Err(h.error)
               else Prepend(out + h.value.out, Bind(indexes[i + 1..], dims[used + h.value.used..]))
  {
    assert indexes[i..][1..] == indexes[i + 1..];
    var h := BindHead(indexes[i], CountNonNew(indexes[i + 1..]), dims[used..]);
    if h.Ok? {
      assert dims[used..][h.value.used..] == dims[used + h.value.used..];
      PrependTwice(out, h.value.out, Bind(indexes[i + 1..], dims[used + h.value.used..]));
    }
  }

  lemma PrependTwice(a: seq<Index>, b: seq<Index>, r: Result<seq<Index>>)
    ensures Prepend(a, Prepend(b, r)) == Prepend(a + b, r)
  {
    if r.Ok? {
      assert a + (b + r.value) == a + b + r.value;
    }
  }

  /** The switch of `NpyArray_IndexBind` for one index; `result - numNew`
      dimensions are consumed. */
  method BindSwitch(ix: Index, rest: seq<Index>, dims: seq<int>, result: nat, numNew: nat) returns (r: Result<Piece>)
    requires numNew <= result <= |dims| + numNew
    ensures r == BindHead(ix, CountNonNew(rest), dims[result - numNew..])
  {
    var nd := |dims|;
    match ix {
      case Str =>
        return Err(StringIndex);
      case NewAxis =>
        return Ok(Piece([NewAxis], 0));
      case Ellipsis =>
        var later := CountNonNewLoop(rest);
        var n2 := nd + numNew - later - result;
        if n2 < 0 {
          return Err(TooManyIndices);
        }
        var slices := ExpandEllipsis(dims[result - numNew..], n2);
        return Ok(Piece(slices, n2));
      case BoolArray(m) =>
        if result + m >= nd + numNew {
          return Err(TooManyIndices);
        }
        return Ok(Piece(seq(m, _ => IntpArray), m));
      case _ =>
        if result >= nd + numNew {
          return Err(TooManyIndices);
        }
        var bound := BindOneIndex(ix, dims[result - numNew]);
        return AsPiece(bound);
    }
  }

  /** `NpyArray_IndexBind`: `out` grows like `out_indexes`, its length is `result`. */
  method IndexBind(indexes: seq<Index>, dims: seq<int>) returns (r: Result<seq<Index>>)
    ensures r == Bind(indexes, dims)
  {
    hide Bind, BindHead, CountNonNew, Prepend;
    var out: seq<Index> := [];
    var numNew := 0;
    var i := 0;
    BindStarts(indexes, dims);
    while i < |indexes|
      invariant i <= |indexes| && 0 <= numNew <= |out| <= |dims| + numNew
      invariant Prepend(out, Bind(indexes[i..], dims[|out| - numNew..])) == Bind(indexes, dims)
    {
      BindStep(indexes, i, dims, |out| - numNew, out);
      var piece := BindSwitch(indexes[i], indexes[i + 1..], dims, |out|, numNew);
      if piece.Err? {
        return Err(piece.error);
      }
      if indexes[i].NewAxis? {
        numNew := numNew + 1;
      }
      out := out + piece.value.out;
      i := i + 1;
    }
    BindEnds(indexes, dims, |out| - numNew, out);
    return Ok(out);
  }

  lemma BindStarts(indexes: seq<Index>, dims: seq<int>)
    ensures Prepend([], Bind(indexes[0..], dims[0..])) == Bind(indexes, dims)
  {
    assert indexes[0..] == indexes && dims[0..] == dims;
    if Bind(indexes, dims).Ok? {
      assert [] + Bind(indexes, dims).value == Bind(indexes, dims).value;
    }
  }

  lemma BindEnds(indexes: seq<Index>, dims: seq<int>, used: nat, out: seq<Index>)
    requires used <= |dims|
    ensures Prepend(out, Bind(indexes[|indexes|..], dims[used..])) == Ok(out)
  {
    assert out + [] == out;
  }

  /** The loop that fills in full slices. */
  method ExpandEllipsis(dims: seq<int>, n: nat) returns (r: seq<Index>)
    requires n <= |dims|
    ensures r == FullSlices(dims[..n])
  {
    r := [];
    var j := 0;
    while j < n
      invariant j <= n && r == FullSlices(dims[..j])
    {
      r := r + [SliceIx(Slice(0, dims[j], 1))];
      j := j + 1;
    }
  }

  method BindOneIndex(ix: Index, dim: int) returns (r: Result<Index>)
    ensures r == BindOne(ix, dim)
  {
    match ix {
      case SliceIx(s) =>
        var b := ClampSlice(s, dim);
        r := Ok(SliceIx(b));
      case SliceNoStop(start, step) =>
        var first := ClampStart(start, step, dim);
        r := Ok(SliceIx(Slice(first, if step > 0 then dim else -1, step)));
      case Intp(_) => r := BindValue(ix.value, dim);
      case Boolean(flag) => r := BindValue(if flag then 1 else 0, dim);
      case _ => r := Ok(ix);
    }
  }

  method BindValue(v: int, dim: int) returns (r: Result<Index>)
    ensures r == BindInteger(v, dim)
  {
    var val := v;
    if val < 0 {
      val := val + dim;
    }
    if val < 0 || val >= dim {
      return Err(InvalidIndex);
    }
    return Ok(Intp(val));
  }

  // ----- From a bound index to a view

  predicate StepsNonZero(indexes: seq<Index>) {
    forall i :: 0 <= i < |indexes| ==>
      (indexes[i].SliceIx? ==> indexes[i].slice.step != 0) && (indexes[i].SliceNoStop? ==> indexes[i].step != 0)
  }

  function Join(v: View, r: Result<View>): Result<View> {
    match r
    case Ok(w) => Ok(View(v.dims + w.dims, v.strides + w.strides, v.offset + w.offset))
    case Err(e) => Err(e)
  }

  lemma JoinTwice(a: View, b: View, r: Result<View>)
    ensures Join(a, Join(b, r)) == Join(View(a.dims + b.dims, a.strides + b.strides, a.offset + b.offset), r)
  {
    if r.Ok? {
      assert a.dims + (b.dims + r.value.dims) == a.dims + b.dims + r.value.dims;
      assert a.strides + (b.strides + r.value.strides) == a.strides + b.strides + r.value.strides;
    }
  }

  /** What one bound index adds to the view, and how many axes it consumes. */
  datatype Axis = Axis(view: View, used: nat)

  function AxisOf(ix: Index, dims: seq<int>, strides: seq<int>, allowArrays: bool): (r: Result<Axis>)
    requires |dims| == |strides| && (ix.SliceIx? ==> ix.slice.step != 0)
    ensures r.Ok? ==> r.value.used <= |dims|
  {
    match ix
    case NewAxis => Ok(Axis(View([1], [0], 0), 0))
    case Intp(v) =>
      if dims == [] then Err(TooManyIndices) else Ok(Axis(View([], [], strides[0] * v), 1))
    case SliceIx(s) =>
      if dims == [] then Err(TooManyIndices)
      else Ok(Axis(View([SliceSteps(s)], [s.step * strides[0]], strides[0] * s.start), 1))
    case IntpArray =>
      if !allowArrays then Err(ArrayIndex)
      else if dims == [] then Err(TooManyIndices)
      else Ok(Axis(View([], [], 0), 1))
    case Str => Err(StringIndex)
    case Boolean(_) => Err(IllegalType)
    case _ => Err(NotBound)
  }

  /** `NpyArray_IndexToDimsEtc` on the axes not yet consumed: indices that are
      left over index the rest of the array in full. */
  function ToView(bound: seq<Index>, dims: seq<int>, strides: seq<int>, allowArrays: bool): Result<View>
    requires |dims| == |strides| && StepsNonZero(bound)
  {
    if bound == [] then Ok(View(dims, strides, 0))
    else
      var a := AxisOf(bound[0], dims, strides, allowArrays);
      if a.Err? then Err(a.error)
      else Join(a.value.view, ToView(bound[1..], dims[a.value.used..], strides[a.value.used..], allowArrays))
  }

  lemma ViewStep(bound: seq<Index>, i: nat, dims: seq<int>, strides: seq<int>, used: nat, allowArrays: bool, v: View)
    requires |dims| == |strides| && StepsNonZero(bound) && i < |bound| && used <= |dims|
    ensures StepsNonZero(bound[i..]) && StepsNonZero(bound[i + 1..])
    ensures var a := AxisOf(bound[i], dims[used..], strides[used..], allowArrays);
            Join(v, ToView(bound[i..], dims[used..], strides[used..], allowArrays))
            == if a.Err? then Err(a.error)
               else var n, view := used + a.value.used, a.value.view;
                    Join(View(v.dims + view.dims, v.strides + view.strides, v.offset + view.offset),
                         ToView(bound[i + 1..], dims[n..], strides[n..], allowArrays))
  {
    assert bound[i..][1..] == bound[i + 1..];
    var a := AxisOf(bound[i], dims[used..], strides[used..], allowArrays);
    if a.Ok? {
      var n := used + a.value.used;
      assert dims[used..][a.value.used..] == dims[n..];
      assert strides[used..][a.value.used..] == strides[n..];
      JoinTwice(v, a.value.view, ToView(bound[i + 1..], dims[n..], strides[n..], allowArrays));
    }
  }

  lemma ViewStarts(bound: seq<Index>, dims: seq<int>, strides: seq<int>, allowArrays: bool)
    requires |dims| == |strides| && StepsNonZero(bound)
    ensures StepsNonZero(bound[0..])
    ensures Join(View([], [], 0), ToView(bound[0..], dims[0..], strides[0..], allowArrays))
            == ToView(bound, dims, strides, allowArrays)
  {
    assert bound[0..] == bound && dims[0..] == dims && strides[0..] == strides;
    var r := ToView(bound, dims, strides, allowArrays);
    if r.Ok? {
      assert [] + r.value.dims == r.value.dims && [] + r.value.strides == r.value.strides;
    }
  }

  method IndexToDimsEtc(dims: seq<int>, strides: seq<int>, bound: seq<Index>, allowArrays: bool)
    returns (r: Result<View>)
    requires |dims| == |strides| && StepsNonZero(bound)
    ensures r == ToView(bound, dims, strides, allowArrays)
  {
    hide ToView, AxisOf, Join;
    var iDim, offset := 0, 0;
    var dimensions: seq<int>, newStrides: seq<int> := [], [];
    var i := 0;
    ViewStarts(bound, dims, strides, allowArrays);
    while i < |bound|
      invariant i <= |bound| && 0 <= iDim <= |dims| && StepsNonZero(bound[i..])
      invariant Join(View(dimensions, newStrides, offset),
                     ToView(bound[i..], dims[iDim..], strides[iDim..], allowArrays))
                == ToView(bound, dims, strides, allowArrays)
    {
      ViewStep(bound, i, dims, strides, iDim, allowArrays, View(dimensions, newStrides, offset));
      var axis := AxisSwitch(bound[i], dims, strides, iDim, allowArrays);
      if axis.Err? {
        return Err(axis.error);
      }
      dimensions, newStrides := dimensions + axis.value.view.dims, newStrides + axis.value.view.strides;
      offset := offset + axis.value.view.offset;
      iDim := iDim + axis.value.used;
      i := i + 1;
    }
    RestInFull(bound, dims, strides, iDim, allowArrays, View(dimensions, newStrides, offset));
    while iDim < |dims|
      invariant 0 <= iDim <= |dims|
      invariant Ok(View(dimensions + dims[iDim..], newStrides + strides[iDim..], offset))
                == ToView(bound, dims, strides, allowArrays)
    {
      assert dims[iDim..] == [dims[iDim]] + dims[iDim + 1..];
      assert strides[iDim..] == [strides[iDim]] + strides[iDim + 1..];
      assert dimensions + dims[iDim..] == dimensions + [dims[iDim]] + dims[iDim + 1..];
      assert newStrides + strides[iDim..] == newStrides + [strides[iDim]] + strides[iDim + 1..];
      dimensions, newStrides := dimensions + [dims[iDim]], newStrides + [strides[iDim]];
      iDim := iDim + 1;
    }
    assert dimensions + dims[iDim..] == dimensions && newStrides + strides[iDim..] == newStrides;
    return Ok(View(dimensions, newStrides, offset));
  }

  lemma RestInFull(bound: seq<Index>, dims: seq<int>, strides: seq<int>, used: nat, allowArrays: bool, v: View)
    requires |dims| == |strides| && used <= |dims|
    ensures Join(v, ToView(bound[|bound|..], dims[used..], strides[used..], allowArrays))
            == Ok(View(v.dims + dims[used..], v.strides + strides[used..], v.offset))
  {
  }

  /** The switch of `NpyArray_IndexToDimsEtc` for one index. */
  method AxisSwitch(ix: Index, dims: seq<int>, strides: seq<int>, iDim: nat, allowArrays: bool)
    returns (r: Result<Axis>)
    requires |dims| == |strides| && iDim <= |dims| && (ix.SliceIx? ==> ix.slice.step != 0)
    ensures r == AxisOf(ix, dims[iDim..], strides[iDim..], allowArrays)
  {
    match ix {
      case Intp(_) =>
        if iDim >= |dims| {
          return Err(TooManyIndices);
        }
        return Ok(Axis(View([], [], strides[iDim] * ix.value), 1));
      case SliceIx(slice) =>
        if iDim >= |dims| {
          return Err(TooManyIndices);
        }
        return Ok(Axis(View([SliceSteps(slice)], [slice.step * strides[iDim]], strides[iDim] * slice.start), 1));
      case IntpArray =>
        if allowArrays {
          if iDim >= |dims| {
            return Err(TooManyIndices);
          }
          return Ok(Axis(View([], [], 0), 1));
        } else {
          return Err(ArrayIndex);
        }
      case NewAxis => return Ok(Axis(View([1], [0], 0), 0));
      case SliceNoStop(_, _) => return Err(NotBound);
      case BoolArray(_) => return Err(NotBound);
      case Ellipsis => return Err(NotBound);
      case Str => return Err(StringIndex);
      case _ => return Err(IllegalType);
    }
  }
}
