/**
 Arrays under index expressions: the views they make, and writing through a view
 (libndarray/src/npy_mapping.c).
 */
module Subscripts {
  import opened Copying
  import opened Indexing
  import opened IndexViews
  import opened NewArrays
  import opened Releasing
  import opened Requests
  import opened Shape
  import opened Slices
  import opened Storage
  import opened WriteBack
  import SizeGuard

  /** The index is simple and can be bound to the shape of the array. */
  ghost predicate Binds(h: Header, indexes: seq<Index>) {
    Plain(indexes) && StepsNonZero(indexes) && Bind(indexes, h.layout.dims).Ok?
  }

  function Bound(h: Header, indexes: seq<Index>): seq<Index>
    requires Bind(indexes, h.layout.dims).Ok?
  {
    Bind(indexes, h.layout.dims).value
  }

  lemma {:induction false} ViewDimsNotNegative(bound: seq<Index>, dims: seq<int>, strides: seq<int>)
    requires |dims| == |strides| && StepsNonZero(bound) && WellBound(bound, dims) && NonNegative(dims)
    ensures ToView(bound, dims, strides, false).Ok? && NonNegative(ViewOf(bound, dims, strides).dims)
    decreases |bound|
  {
    if bound != [] {
      ViewTailDims(bound, dims, strides);
      hide ToView, SliceSteps;
      if bound[0].NewAxis? {
        assert dims[0..] == dims && strides[0..] == strides;
        ViewDimsNotNegative(bound[1..], dims, strides);
      } else {
        ViewDimsNotNegative(bound[1..], dims[1..], strides[1..]);
      }
    }
  }

  /** What binding and the view builder promise about an accepted index. */
  lemma AcceptedIndex(h: Header, indexes: seq<Index>)
    requires Binds(h, indexes)
    ensures var bound := Bound(h, indexes);
            && WellBound(bound, h.layout.dims) && StepsNonZero(bound)
            && ToView(bound, h.layout.dims, h.layout.strides, false).Ok?
            && var v := ViewOf(bound, h.layout.dims, h.layout.strides);
               |v.dims| == |v.strides| && NonNegative(v.dims)
  {
    hide Bind, ToView, WellBound;
    BindWellBound(indexes, h.layout.dims);
    var bound := Bound(h, indexes);
    WellBoundSteps(bound, h.layout.dims);
    ViewExists(bound, h.layout.dims, h.layout.strides);
    ViewDimsNotNegative(bound, h.layout.dims, h.layout.strides);
  }

  /** `NpyArray_IndexSimple`: the layout of the view. */
  ghost function IndexLayout(h: Header, indexes: seq<Index>, aligned: bool): Layout
    requires Binds(h, indexes)
  {
    AcceptedIndex(h, indexes);
    var v := ViewOf(Bound(h, indexes), h.layout.dims, h.layout.strides);
    Layout(v.dims, v.strides, h.layout.offset + v.offset, aligned)
  }

  /** The element of the array that element `n` of the view shows. */
  ghost function Shown(h: Header, indexes: seq<Index>, n: nat): (r: nat)
    requires Binds(h, indexes) && n < Size(IndexLayout(h, indexes, true).dims)
    ensures r < h.Count()
  {
    ShownCoord(h, indexes, n);
    RankRange(Coord(h, indexes, n), h.layout.dims);
    Rank(Coord(h, indexes, n), h.layout.dims)
  }

  /** Its coordinates in the array. */
  ghost function Coord(h: Header, indexes: seq<Index>, n: nat): seq<int>
    requires Binds(h, indexes) && n < Size(IndexLayout(h, indexes, true).dims)
  {
    var dims := IndexLayout(h, indexes, true).dims;
    SizePositive(dims);
    BaseCoord(Bound(h, indexes), Digits(n, dims))
  }

  lemma ShownCoord(h: Header, indexes: seq<Index>, n: nat)
    requires Binds(h, indexes) && n < Size(IndexLayout(h, indexes, true).dims)
    ensures InShape(Coord(h, indexes, n), h.layout.dims)
    ensures var l := IndexLayout(h, indexes, true);
            Positive(l.dims) && Shows(Bound(h, indexes), Digits(n, l.dims), h.layout.strides,
                                      View(l.dims, l.strides, l.offset - h.layout.offset))
  {
    hide Bind, ToView, WellBound, Shows;
    AcceptedIndex(h, indexes);
    var l := IndexLayout(h, indexes, true);
    SizePositive(l.dims);
    RankOfDigits(n, l.dims);
    ViewInBase(Bound(h, indexes), h.layout.dims, h.layout.strides, Digits(n, l.dims));
    ViewShowsBase(Bound(h, indexes), h.layout.dims, h.layout.strides, Digits(n, l.dims));
  }

  lemma InShapePositive(c: seq<int>, dims: seq<int>)
    requires InShape(c, dims)
    ensures Positive(dims)
  {
  }

  /** The view shows memory of the array. */
  lemma ShownPlace(h: Header, indexes: seq<Index>, aligned: bool, n: nat)
    requires Binds(h, indexes) && n < Size(IndexLayout(h, indexes, aligned).dims)
    ensures Place(IndexLayout(h, indexes, aligned), n) == Place(h.layout, Shown(h, indexes, n))
  {
    hide Bind, IndexLayout, BaseCoord, Dot, Digits, Rank;
    SameLayout(h, indexes, aligned);
    ShownCoord(h, indexes, n);
    var c := Coord(h, indexes, n);
    InShapePositive(c, h.layout.dims);
    DigitsOfRank(c, h.layout.dims);
  }

  lemma SameLayout(h: Header, indexes: seq<Index>, aligned: bool)
    requires Binds(h, indexes)
    ensures IndexLayout(h, indexes, aligned) == IndexLayout(h, indexes, true).(aligned := aligned)
  {
    hide Bind;
  }

  /** Each element is shown once. */
  lemma ShownOnce(h: Header, indexes: seq<Index>, n: nat, m: nat)
    requires Binds(h, indexes) && n < Size(IndexLayout(h, indexes, true).dims)
    requires m < Size(IndexLayout(h, indexes, true).dims) && Shown(h, indexes, n) == Shown(h, indexes, m)
    ensures n == m
  {
    hide Bind, ToView, WellBound, Shows, BaseCoord;
    AcceptedIndex(h, indexes);
    ShownCoord(h, indexes, n);
    ShownCoord(h, indexes, m);
    var dims := IndexLayout(h, indexes, true).dims;
    InShapePositive(Coord(h, indexes, n), h.layout.dims);
    DigitsOfRank(Coord(h, indexes, n), h.layout.dims);
    DigitsOfRank(Coord(h, indexes, m), h.layout.dims);
    RankOfDigits(n, dims);
    RankOfDigits(m, dims);
    ViewInjective(Bound(h, indexes), h.layout.dims, h.layout.strides, Digits(n, dims), Digits(m, dims));
  }

  /** The view of an index expression lies in the memory of the array, without overlaps. */
  lemma IndexLaid(h: Header, indexes: seq<Index>, aligned: bool, items: map<int, Item>)
    requires Binds(h, indexes) && Laid(h.layout, items)
    ensures Laid(IndexLayout(h, indexes, aligned), items)
  {
    hide Binds, IndexLayout, Place, Shown;
    SameLayout(h, indexes, aligned);
    var l := IndexLayout(h, indexes, aligned);
    forall n: nat, m: nat | n < m < Size(l.dims) ensures Places(l)[n] != Places(l)[m] {
      ShownPlace(h, indexes, aligned, n);
      ShownPlace(h, indexes, aligned, m);
      if Places(l)[n] == Places(l)[m] {
        assert Places(h.layout)[Shown(h, indexes, n)] == Places(h.layout)[Shown(h, indexes, m)];
        ShownOnce(h, indexes, n, m);
      }
    }
    forall p | p in Places(l) ensures p in items {
      var n: nat :| n < Size(l.dims) && Places(l)[n] == p;
      ShownPlace(h, indexes, aligned, n);
      assert Places(h.layout)[Shown(h, indexes, n)] == p;
    }
  }

  /** The index makes a view: an array of at most 32 axes. */
  ghost predicate Accepts(h: Header, indexes: seq<Index>) {
    Binds(h, indexes) && |IndexLayout(h, indexes, true).dims| <= SizeGuard.MAXDIMS
  }

  /** An index that binds makes a view; its elements are the ones that it shows. */
  lemma IndexedView(w: World, a: Ref, indexes: seq<Index>, aligned: bool)
    requires Valid(w) && a in w.arrays && Binds(w.arrays[a], indexes)
    ensures w.next != a && Viewable(w, a, IndexLayout(w.arrays[a], indexes, aligned))
    ensures var h, l := w.arrays[a], IndexLayout(w.arrays[a], indexes, aligned);
            var w' := Viewed(w, a, l);
            && Owned(w', w.next) && h.data in w.memory && w'.arrays[w.next].data in w'.memory
            && |Elements(w', w'.arrays[w.next])| == Size(l.dims) == Size(IndexLayout(h, indexes, true).dims)
            && forall n: nat :: n < Size(l.dims) ==>
                 Elements(w', w'.arrays[w.next])[n] == Elements(w, h)[Shown(h, indexes, n)]
  {
    hide Valid, Binds, IndexLayout, Place, Shown, TestedFlags, Owned, TrueFlags;
    var h, l := w.arrays[a], IndexLayout(w.arrays[a], indexes, aligned);
    DataThere(w, a);
    NextIsNew(w);
    SameLayout(h, indexes, aligned);
    IndexLaid(h, indexes, aligned, w.memory[h.data].items);
    ViewOwned(w, a, l);
    forall n: nat | n < Size(l.dims)
      ensures Elements(Viewed(w, a, l), Viewed(w, a, l).arrays[w.next])[n] == Elements(w, h)[Shown(h, indexes, n)]
    {
      ShownPlace(h, indexes, aligned, n);
    }
  }

  // ----- Writing through the view

  /** The index expression means this element, by its row-major number, in Python. */
  ghost predicate Picked(h: Header, indexes: seq<Index>, n: nat)
    requires n < h.Count()
  {
    SizePositive(h.layout.dims);
    PySelects(indexes, h.layout.dims, Digits(n, h.layout.dims), false)
  }

  /** Exactly the elements that the expression means are shown. */
  lemma PickedIsShown(h: Header, indexes: seq<Index>, n: nat)
    requires Binds(h, indexes) && n < h.Count()
    ensures Picked(h, indexes, n)
            <==> exists m: nat :: m < Size(IndexLayout(h, indexes, true).dims) && Shown(h, indexes, m) == n
  {
    hide Bind, ToView, WellBound, BaseCoord, PySelects, Selects, ViewCoord, IndexLayout, Shown;
    var dims := h.layout.dims;
    SizePositive(dims);
    RankOfDigits(n, dims);
    AcceptedIndex(h, indexes);
    SelectsLikePython(indexes, dims, Digits(n, dims), false);
    if Picked(h, indexes, n) {
      PickedShown(h, indexes, Digits(n, dims));
    }
    if m: nat :| m < Size(IndexLayout(h, indexes, true).dims) && Shown(h, indexes, m) == n {
      ShownPicked(h, indexes, m);
    }
  }

  lemma PickedShown(h: Header, indexes: seq<Index>, c: seq<int>)
    requires Binds(h, indexes) && InShape(c, h.layout.dims) && Selects(Bound(h, indexes), c)
    ensures exists m: nat :: m < Size(IndexLayout(h, indexes, true).dims)
                             && Shown(h, indexes, m) == Rank(c, h.layout.dims)
  {
    hide Bind, ToView, WellBound, BaseCoord, Selects, ViewCoord;
    AcceptedIndex(h, indexes);
    var bound, l := Bound(h, indexes), IndexLayout(h, indexes, true);
    ViewShowsSelected(bound, h.layout.dims, h.layout.strides, c);
    var v := ViewCoord(bound, c);
    InShapePositive(v, l.dims);
    RankRange(v, l.dims);
    DigitsOfRank(v, l.dims);
    assert Coord(h, indexes, Rank(v, l.dims)) == c;
    assert Shown(h, indexes, Rank(v, l.dims)) == Rank(c, h.layout.dims);
  }

  lemma ShownPicked(h: Header, indexes: seq<Index>, m: nat)
    requires Binds(h, indexes) && m < Size(IndexLayout(h, indexes, true).dims)
    ensures Picked(h, indexes, Shown(h, indexes, m))
  {
    hide Bind, ToView, WellBound, BaseCoord, PySelects, Selects, Shows;
    AcceptedIndex(h, indexes);
    ShownCoord(h, indexes, m);
    var l, c := IndexLayout(h, indexes, true), Coord(h, indexes, m);
    InShapePositive(c, h.layout.dims);
    DigitsOfRank(c, h.layout.dims);
    RankOfDigits(m, l.dims);
    ShownIsSelected(Bound(h, indexes), h.layout.dims, h.layout.strides, Digits(m, l.dims));
    SelectsLikePython(indexes, h.layout.dims, c, false);
  }

  /** The elements that the expression means are the given ones, in their order;
      all others are as before. */
  ghost predicate Updated(h: Header, indexes: seq<Index>, before: seq<Item>, after: seq<Item>, given: seq<Item>)
    requires Binds(h, indexes)
  {
    && |before| == |after| == h.Count() && |given| == Size(IndexLayout(h, indexes, true).dims)
    && (forall m: nat :: m < |given| ==> after[Shown(h, indexes, m)] == given[m])
    && (forall n: nat :: n < |after| && !Picked(h, indexes, n) ==> after[n] == before[n])
  }

  /** Writing the elements of the view is writing the selected elements of the array. */
  lemma ThroughView(h: Header, indexes: seq<Index>, aligned: bool, items: map<int, Item>, items': map<int, Item>)
    requires Binds(h, indexes) && Laid(h.layout, items)
    requires Around(items, items', Places(IndexLayout(h, indexes, aligned)))
    ensures Updated(h, indexes, Gathered(items, Places(h.layout)), Gathered(items', Places(h.layout)),
                    Gathered(items', Places(IndexLayout(h, indexes, aligned))))
  {
    hide Binds, IndexLayout, Shown, Place, Picked;
    SameLayout(h, indexes, aligned);
    var l := IndexLayout(h, indexes, aligned);
    forall m: nat | m < Size(l.dims)
      ensures Gathered(items', Places(h.layout))[Shown(h, indexes, m)] == Gathered(items', Places(l))[m]
    {
      ShownPlace(h, indexes, aligned, m);
    }
    forall n: nat | n < h.Count() && !Picked(h, indexes, n)
      ensures Gathered(items', Places(h.layout))[n] == Gathered(items, Places(h.layout))[n]
    {
      NotPickedApart(h, indexes, aligned, n, items);
    }
  }

  lemma NotPickedApart(h: Header, indexes: seq<Index>, aligned: bool, n: nat, items: map<int, Item>)
    requires Binds(h, indexes) && Laid(h.layout, items) && n < h.Count() && !Picked(h, indexes, n)
    ensures Place(h.layout, n) !in Places(IndexLayout(h, indexes, aligned))
  {
    hide Binds, IndexLayout, Shown, Place, Picked;
    SameLayout(h, indexes, aligned);
    var l := IndexLayout(h, indexes, aligned);
    if Place(h.layout, n) in Places(l) {
      var m: nat :| m < Size(l.dims) && Places(l)[m] == Place(h.layout, n);
      ShownPlace(h, indexes, aligned, m);
      assert Places(h.layout)[Shown(h, indexes, m)] == Places(h.layout)[n];
      PickedIsShown(h, indexes, n);
    }
  }

  /** When a pending copy of an index view is released and follows no null pointer, the
      array gets the elements of the copy where the expression means, and keeps its
      own elsewhere. */
  lemma CopyBackSelects(k: Casting, w: World, c: Ref, v: Ref, h: Header, indexes: seq<Index>, aligned: bool)
    requires Valid(w) && Holds(w, c, v) && w.arrays[c].refs == 1 && Children(w, c) == {} && v in w.arrays
    requires Binds(h, indexes) && h.data in w.memory && Laid(h.layout, w.memory[h.data].items)
    requires w.arrays[v].data == h.data && w.arrays[v].layout == IndexLayout(h, indexes, aligned)
    requires w.arrays[v].dtype == h.dtype && w.arrays[c].layout.dims == w.arrays[v].layout.dims
    requires !Traps(k, w.arrays[v], w.arrays[c])
    ensures w.arrays[c].data in w.memory
    ensures var w', g := Decref(k, w, c), w.arrays[c];
            && h.data in w'.memory && g.data in w'.memory
            && Updated(h, indexes, Elements(w, h), Elements(w', h), Converted(k, g.dtype, h.dtype, Elements(w', g)))
  {
    hide Valid, Binds, IndexLayout, Updated, Places, Gathered, Converted, Decref, Arrived, Around, Laid;
    hide Children, Freed, Walked, TrapsAmong, Traps;
    DataThere(w, c);
    DecrefSettles(k, w, c);
    LastUnfolds(k, w, c);
    SoundFacts(w, c);
    var w' := Decref(k, w, c);
    assert Copied(k, w, w', w.arrays[c], w.arrays[v]);
    SameShapeArrives(k, w.arrays[v], w.arrays[c], Elements(w', w.arrays[v]), Elements(w', w.arrays[c]));
    ThroughView(h, indexes, aligned, w.memory[h.data].items, w'.memory[h.data].items);
  }
}
