/**
 Slices: clamping to a dimension and counting steps
 (libndarray/src/npy_index.c), against the index sequence of Python slicing.
 */
module Slices {
  import opened CInt

  datatype Slice = Slice(start: int, stop: int, step: int)

  /** `NpyArray_SliceSteps` */
  function SliceSteps(s: Slice): int
    requires s.step != 0
  {
    if (s.step < 0 && s.stop >= s.start) || (s.step > 0 && s.start >= s.stop) then 0
    else if s.step < 0 then Div(s.stop - s.start + 1, s.step) + 1
    else Div(s.stop - s.start - 1, s.step) + 1
  }

  /** The start of a slice, clamped for a dimension. */
  function BindStart(start: int, step: int, dim: int): int {
    var a := if start < 0 then start + dim else start;
    var b := if a < 0 then (if step < 0 then -1 else 0) else a;
    if b >= dim then (if step < 0 then dim - 1 else dim) else b
  }

  /** The stop is clamped to -1 and `dim` whatever the sign of the step. */
  function BindSlice(s: Slice, dim: int): Slice {
    var a := if s.stop < 0 then s.stop + dim else s.stop;
    var b := if a < 0 then -1 else a;
    Slice(BindStart(s.start, s.step, dim), if b > dim then dim else b, s.step)
  }

  function BindNoStop(start: int, step: int, dim: int): Slice {
    Slice(BindStart(start, step, dim), if step > 0 then dim else -1, step)
  }

  // ----- Python slicing

  /** The indices `i, i + step, ...` short of `stop`. */
  function Range(i: int, stop: int, step: int): seq<int>
    requires step != 0
    decreases if step > 0 then stop - i else i - stop
  {
    if (step > 0 && i < stop) || (step < 0 && i > stop) then [i] + Range(i + step, stop, step) else []
  }

  /** Python's clamping of a given start or stop. */
  function PyClamp(x: int, step: int, dim: int): int {
    var a := if x < 0 then x + dim else x;
    if a < 0 then (if step < 0 then -1 else 0)
    else if a >= dim then (if step < 0 then dim - 1 else dim)
    else a
  }

  function PySlice(s: Slice, dim: int): seq<int>
    requires s.step != 0
  {
    Range(PyClamp(s.start, s.step, dim), PyClamp(s.stop, s.step, dim), s.step)
  }

  /** Without a stop the slice runs to the end in the direction of the step. */
  function PySliceNoStop(start: int, step: int, dim: int): seq<int>
    requires step != 0
  {
    Range(PyClamp(start, step, dim), if step > 0 then dim else -1, step)
  }

  /** What a bound slice selects: `SliceSteps` indices from the start on. */
  function Selected(s: Slice): (r: seq<int>)
    requires s.step != 0 && SliceSteps(s) >= 0
    ensures |r| == SliceSteps(s) && forall k :: 0 <= k < |r| ==> r[k] == s.start + k * s.step
  {
    seq(SliceSteps(s), k => s.start + k * s.step)
  }

  /** How many steps of size `p` fit before a distance `n` is used up. */
  function Count(n: int, p: int): int
    requires p > 0
  {
    if n <= 0 then 0 else (n - 1) / p + 1
  }

  lemma CountStep(n: int, p: int)
    requires p > 0
    ensures Count(n, p) >= 0
    ensures n > 0 ==> Count(n, p) == 1 + Count(n - p, p)
  {
    if n > 0 {
      var q, r := (n - 1) / p, (n - 1) % p;
      assert n - 1 == p * q + r;
      ProductMonotone(q, -1, p);
      if n - p > 0 {
        Distribute(p, q, 1);
        QuotientUnique(n - p - 1, p, q - 1, r);
      } else {
        QuotientUnique(n - 1, p, 0, n - 1);
      }
    }
  }

  lemma StepsCount(s: Slice)
    requires s.step != 0
    ensures SliceSteps(s) == if s.step > 0 then Count(s.stop - s.start, s.step) else Count(s.start - s.stop, -s.step)
    ensures SliceSteps(s) >= 0
  {
  }

  /** For every slice the counted steps are exactly the range. */
  lemma {:induction false} SelectedIsRange(s: Slice)
    requires s.step != 0
    ensures SliceSteps(s) >= 0 && Selected(s) == Range(s.start, s.stop, s.step)
    decreases if s.step > 0 then s.stop - s.start else s.start - s.stop
  {
    StepsCount(s);
    if (s.step > 0 && s.start < s.stop) || (s.step < 0 && s.start > s.stop) {
      var t := s.(start := s.start + s.step);
      StepsCount(t);
      CountStep(if s.step > 0 then s.stop - s.start else s.start - s.stop, if s.step > 0 then s.step else -s.step);
      SelectedIsRange(t);
      NextSelected(s, t);
    }
  }

  lemma NextSelected(s: Slice, t: Slice)
    requires s.step != 0 && t == s.(start := s.start + s.step)
    requires SliceSteps(t) >= 0 && SliceSteps(s) == 1 + SliceSteps(t)
    ensures Selected(s) == [s.start] + Selected(t)
  {
    hide SliceSteps;
    forall k | 1 <= k < SliceSteps(s) ensures Selected(s)[k] == Selected(t)[k - 1] {
      assert s.start + k * s.step == t.start + (k - 1) * t.step;
    }
  }

  /** A range only depends on its stop through where it ends. */
  lemma EmptyRange(i: int, stop: int, step: int)
    requires step != 0
    ensures Range(i, stop, step) == [] <==> if step > 0 then i >= stop else i <= stop
  {
  }

  /** A bound slice starts where Python starts and selects what Python selects, although
      its stop is clamped to other values. */
  lemma BoundLikePython(s: Slice, dim: int)
    requires s.step != 0 && dim >= 0
    ensures SliceSteps(BindSlice(s, dim)) >= 0 && Selected(BindSlice(s, dim)) == PySlice(s, dim)
    ensures BindSlice(s, dim).start == PyClamp(s.start, s.step, dim) && BindSlice(s, dim).step == s.step
  {
    var b := BindSlice(s, dim);
    SelectedIsRange(b);
    EmptyRange(b.start, b.stop, s.step);
    EmptyRange(b.start, PyClamp(s.stop, s.step, dim), s.step);
  }

  lemma NoStopLikePython(start: int, step: int, dim: int)
    requires step != 0 && dim >= 0
    ensures SliceSteps(BindNoStop(start, step, dim)) >= 0
    ensures Selected(BindNoStop(start, step, dim)) == PySliceNoStop(start, step, dim)
    ensures BindNoStop(start, step, dim).start == PyClamp(start, step, dim) && BindNoStop(start, step, dim).step == step
  {
    SelectedIsRange(BindNoStop(start, step, dim));
  }

  lemma {:induction false} RangeWithin(i: int, stop: int, step: int, dim: int)
    requires step != 0
    requires if step > 0 then 0 <= i && stop <= dim else i < dim && -1 <= stop
    ensures forall k :: 0 <= k < |Range(i, stop, step)| ==> 0 <= Range(i, stop, step)[k] < dim
    decreases if step > 0 then stop - i else i - stop
  {
    if (step > 0 && i < stop) || (step < 0 && i > stop) {
      RangeWithin(i + step, stop, step, dim);
    }
  }

  /** Every index that a bound slice selects lies in the dimension. */
  lemma BoundWithin(s: Slice, dim: int)
    requires s.step != 0 && dim >= 0
    ensures Within(BindSlice(s, dim), dim) && Within(BindNoStop(s.start, s.step, dim), dim)
  {
    var b, c := BindSlice(s, dim), BindNoStop(s.start, s.step, dim);
    SelectedIsRange(b);
    SelectedIsRange(c);
    RangeWithin(b.start, b.stop, b.step, dim);
    RangeWithin(c.start, c.stop, c.step, dim);
  }

  ghost predicate Within(s: Slice, dim: int) {
    s.step != 0 && SliceSteps(s) >= 0 && forall k :: 0 <= k < |Selected(s)| ==> 0 <= Selected(s)[k] < dim
  }

  lemma WholeAxis(dim: int)
    requires dim >= 0
    ensures Within(Slice(0, dim, 1), dim) && SliceSteps(Slice(0, dim, 1)) == dim
  {
  }
}
