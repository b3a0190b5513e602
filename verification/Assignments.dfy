/**
 Assignment through index expressions (`NpyArray_SubscriptAssign`:
 libndarray/src/npy_mapping.c).
 */
module Assignments {
  import opened Broadcasts
  import opened Copying
  import opened Indexing
  import opened IndexViews
  import opened Moves
  import opened NdArray
  import opened NewArrays
  import opened Overlaps
  import opened Releasing
  import opened Requests
  import opened Storage
  import opened Subscripts
  import opened WriteBack

  /** Move into the view `v` and release it. */
  ghost function MoveAndDrop(k: Casting, w: World, v: Ref, s: Ref): World
    requires v in w.arrays && s in w.arrays && w.arrays[v].data in w.memory && w.arrays[s].data in w.memory
  {
    Decref(k, MoveInto(k, w, v, s), v)
  }

  lemma ViewThere(w: World, a: Ref, indexes: seq<Index>, s: Ref, aligned: bool)
    requires Valid(w) && a in w.arrays && s in w.arrays && Binds(w.arrays[a], indexes)
    ensures w.next != a
    ensures var w1 := Viewed(w, a, IndexLayout(w.arrays[a], indexes, aligned));
            && w.next in w1.arrays && s in w1.arrays
            && w1.arrays[w.next].data in w1.memory && w1.arrays[s].data in w1.memory
  {
    hide Valid, Binds, IndexLayout, TestedFlags;
    NextIsNew(w);
    DataThere(w, a);
    DataThere(w, s);
  }

  /** No index at all, or a single ellipsis: no view is made. */
  predicate Whole(indexes: seq<Index>) {
    indexes == [] || indexes == [Ellipsis]
  }

  /** `NpyArray_SubscriptAssign` for a simple index. */
  ghost function SubscriptAssign(k: Casting, w: World, a: Ref, indexes: seq<Index>, s: Ref, aligned: bool): World
    requires Valid(w) && a in w.arrays && s in w.arrays && Plain(indexes) && StepsNonZero(indexes)
  {
    hide Valid, Plain, StepsNonZero;
    var h := w.arrays[a];
    DataThere(w, a);
    DataThere(w, s);
    if Writeable !in h.flags then w
    else if Whole(indexes) then MoveInto(k, w, a, s)
    else if !Accepts(h, indexes) then w
    else
      ViewThere(w, a, indexes, s, aligned);
      MoveAndDrop(k, Viewed(w, a, IndexLayout(h, indexes, aligned)), w.next, s)
  }

  /** The array that the value is moved into. */
  ghost function Target(h: Header, a: Ref, indexes: seq<Index>, aligned: bool): Header
    requires Binds(h, indexes)
  {
    if Whole(indexes) then h else ViewHeader(h, IndexLayout(h, indexes, aligned), a)
  }

  /** The assignment comes to a move. */
  ghost predicate Attempted(h: Header, indexes: seq<Index>) {
    Writeable in h.flags && (Whole(indexes) || Accepts(h, indexes))
  }

  /** The assignment succeeds: the array is writeable, the index is accepted, and the
      value fits the selection or is empty and needs a cast. */
  ghost predicate Assigns(k: Casting, h: Header, indexes: seq<Index>, v: Header) {
    && Attempted(h, indexes) && Binds(h, indexes)
    && (|| Fits(IndexLayout(h, indexes, true).dims, v.layout.dims)
        || (v.Count() == 0 && !Equiv(k, h.dtype, v.dtype)))
  }

  lemma {:induction false} FullSlicesView(dims: seq<int>, strides: seq<int>)
    requires |dims| == |strides| && NonNegative(dims)
    ensures StepsNonZero(FullSlices(dims))
    ensures ToView(FullSlices(dims), dims, strides, false) == Ok(View(dims, strides, 0))
  {
    if dims != [] {
      FullSlicesView(dims[1..], strides[1..]);
      assert FullSlices(dims)[1..] == FullSlices(dims[1..]);
      assert [dims[0]] + dims[1..] == dims && [strides[0]] + strides[1..] == strides;
    }
  }

  /** The whole array as a view of itself. */
  lemma WholeLayout(h: Header, indexes: seq<Index>, aligned: bool)
    requires Whole(indexes)
    ensures Binds(h, indexes) && IndexLayout(h, indexes, aligned) == h.layout.(aligned := aligned)
  {
    WholeBound(indexes, h.layout.dims, h.layout.strides);
    hide Bind, ToView, FullSlices;
    ViewIs(Bound(h, indexes), h.layout.dims, h.layout.strides);
  }

  lemma NoIndexBound(dims: seq<nat>, strides: seq<int>)
    requires |dims| == |strides|
    ensures Bind([], dims) == Ok([]) && StepsNonZero([])
    ensures ToView([], dims, strides, false) == Ok(View(dims, strides, 0))
  {
  }

  lemma EllipsisBound(indexes: seq<Index>, dims: seq<nat>)
    requires |indexes| == 1 && indexes[0].Ellipsis?
    ensures Bind(indexes, dims) == Ok(FullSlices(dims))
  {
    var rest := indexes[1..];
    assert CountNonNew(rest) == 0 && Bind(rest, dims[|dims|..]) == Ok([]);
    var h := BindHead(indexes[0], 0, dims);
    assert dims[..|dims|] == dims && h == Ok(Piece(FullSlices(dims), |dims|));
    hide FullSlices, BindHead, CountNonNew;
    assert FullSlices(dims) + [] == FullSlices(dims);
  }

  lemma WholeBound(indexes: seq<Index>, dims: seq<nat>, strides: seq<int>)
    requires Whole(indexes) && |dims| == |strides|
    ensures Bind(indexes, dims) == Ok(if indexes == [] then [] else FullSlices(dims))
    ensures var bound := Bind(indexes, dims).value;
            StepsNonZero(bound) && ToView(bound, dims, strides, false) == Ok(View(dims, strides, 0))
  {
    hide Bind, FullSlices, ToView;
    if indexes == [] {
      NoIndexBound(dims, strides);
    } else {
      EllipsisBound(indexes, dims);
      FullSlicesView(dims, strides);
    }
  }

  lemma ViewIs(bound: seq<Index>, dims: seq<int>, strides: seq<int>)
    requires |dims| == |strides| && StepsNonZero(bound)
    requires ToView(bound, dims, strides, false) == Ok(View(dims, strides, 0))
    ensures ViewOf(bound, dims, strides) == View(dims, strides, 0)
  {
  }

  lemma SamePlaces(l: Layout, aligned: bool)
    ensures Places(l.(aligned := aligned)) == Places(l)
  {
  }

  /** Where the value goes. */
  lemma TargetIs(h: Header, a: Ref, indexes: seq<Index>, aligned: bool)
    requires Binds(h, indexes)
    ensures var t, l := Target(h, a, indexes, aligned), IndexLayout(h, indexes, aligned);
            && t.data == h.data && t.dtype == h.dtype && t.layout.dims == l.dims
            && t.layout.dims == IndexLayout(h, indexes, true).dims
            && Places(t.layout) == Places(l) == Places(IndexLayout(h, indexes, true))
            && (Writeable in t.flags <==> Writeable in h.flags)
  {
    hide Binds, IndexLayout, Places;
    SameLayout(h, indexes, aligned);
    SamePlaces(IndexLayout(h, indexes, true), aligned);
    if Whole(indexes) {
      WholeLayout(h, indexes, aligned);
      SamePlaces(h.layout, aligned);
    }
  }

  lemma SameMove(k: Casting, dest: Header, src: Header, src': Header)
    requires src' == src.(refs := src'.refs)
    ensures HowMoved(k, dest, src') == HowMoved(k, dest, src)
    ensures Undisturbed(k, dest, src') <==> Undisturbed(k, dest, src)
  {
    assert Simple(dest, src') == Simple(dest, src);
    hide Simple, Equiv, Fits, WrittenPlaces, ReadPlaces, Clean;
  }

  lemma ViewStays(b: Header, layout: Layout, base: Ref)
    ensures Iterated(ViewHeader(b, layout, base)) == ViewHeader(b, layout, base)
  {
    hide COrder, FOrder;
  }

  /** The elements that the expression means have got the elements of the value that
      meet them, and all else in the block is as it was. */
  ghost predicate Assigned(k: Casting, w: World, w': World, a: Ref, indexes: seq<Index>, s: Ref)
    requires a in w.arrays && s in w.arrays && Binds(w.arrays[a], indexes)
  {
    var h, v, l := w.arrays[a], w.arrays[s], IndexLayout(w.arrays[a], indexes, true);
    && h.data in w.memory && v.data in w.memory && h.data in w'.memory
    && Fits(l.dims, v.layout.dims)
    && Updated(h, indexes, Elements(w, h), Elements(w', h),
               Spread(l.dims, v.layout.dims, Converted(k, v.dtype, h.dtype, Elements(w, v))))
    && Around(w.memory[h.data].items, w'.memory[h.data].items, Places(l))
  }

  lemma DeliveredIsAssigned(k: Casting, w: World, w1: World, w2: World, a: Ref, indexes: seq<Index>, s: Ref,
                            t: Header, g: Header)
    requires a in w.arrays && s in w.arrays && Binds(w.arrays[a], indexes) && Seated(w, w.arrays[a])
    requires w1.memory == w.memory && Delivered(k, w1, w2, t, g) && g == w.arrays[s].(refs := g.refs)
    requires t.data == w.arrays[a].data && t.dtype == w.arrays[a].dtype
    requires t.layout.dims == IndexLayout(w.arrays[a], indexes, true).dims
    requires Places(t.layout) == Places(IndexLayout(w.arrays[a], indexes, true))
    ensures Assigned(k, w, w2, a, indexes, s)
  {
    hide Binds, IndexLayout, Updated, Places, Gathered, Converted, Around, Laid, TrueFlags, Fits, Spread;
    ThroughView(w.arrays[a], indexes, true, w.memory[t.data].items, w2.memory[t.data].items);
  }

  lemma NothingAssigned(k: Casting, w: World, w': World, a: Ref, indexes: seq<Index>, s: Ref)
    requires a in w.arrays && s in w.arrays && Binds(w.arrays[a], indexes)
    requires w.arrays[a].data in w.memory && w.arrays[s].data in w.memory && w'.memory == w.memory
    requires var l := IndexLayout(w.arrays[a], indexes, true);
             Size(l.dims) == 0 && Fits(l.dims, w.arrays[s].layout.dims)
    ensures Assigned(k, w, w', a, indexes, s)
  {
    hide Binds, IndexLayout, Picked, Shown, Converted, Gathered, Places, Fits;
  }

  /** What becomes of memory: only selected elements change; they do if the value fits,
      and they get what they should if the move is `clean`. */
  ghost predicate Outcome(k: Casting, w: World, w': World, a: Ref, indexes: seq<Index>, s: Ref, clean: bool)
    requires a in w.arrays && s in w.arrays && Binds(w.arrays[a], indexes)
  {
    var h, v := w.arrays[a], w.arrays[s];
    && w'.trapped == w.trapped && w'.memory.Keys == w.memory.Keys && h.data in w.memory
    && (forall m :: m in w.memory && m != h.data ==> w'.memory[m] == w.memory[m])
    && Around(w.memory[h.data].items, w'.memory[h.data].items, Places(IndexLayout(h, indexes, true)))
    && (if Fits(IndexLayout(h, indexes, true).dims, v.layout.dims) then clean ==> Assigned(k, w, w', a, indexes, s)
        else w'.memory == w.memory)
  }

  /** What a move into the target means for the array. */
  lemma MoveAssigns(k: Casting, w: World, w1: World, w2: World, a: Ref, indexes: seq<Index>, s: Ref,
                    t: Header, g: Header)
    requires a in w.arrays && s in w.arrays && Binds(w.arrays[a], indexes) && Seated(w, w.arrays[a])
    requires w.arrays[s].data in w.memory
    requires w1.memory == w.memory && g == w.arrays[s].(refs := g.refs)
    requires t.data == w.arrays[a].data && t.dtype == w.arrays[a].dtype && Writeable in t.flags
    requires t.layout.dims == IndexLayout(w.arrays[a], indexes, true).dims
    requires Places(t.layout) == Places(IndexLayout(w.arrays[a], indexes, true))
    requires w2.trapped == w.trapped && w2.memory.Keys == w.memory.Keys
    requires forall m :: m in w.memory && m != t.data ==> w2.memory[m] == w.memory[m]
    requires Around(w.memory[t.data].items, w2.memory[t.data].items, Places(t.layout))
    requires HowMoved(k, t, g).Delivers() && Undisturbed(k, t, g) ==> Delivered(k, w1, w2, t, g)
    requires !HowMoved(k, t, g).Delivers() ==> w2.memory == w1.memory
    ensures Outcome(k, w, w2, a, indexes, s, Undisturbed(k, t, g))
  {
    hide Binds, IndexLayout, Places, Delivered, Fits, HowMoved, Equiv, Assigned, Laid, TrueFlags, Around, Undisturbed;
    MoveSucceeds(k, t, g);
    if HowMoved(k, t, g).Delivers() {
      if Undisturbed(k, t, g) {
        DeliveredIsAssigned(k, w, w1, w2, a, indexes, s, t, g);
      }
    } else if Fits(IndexLayout(w.arrays[a], indexes, true).dims, w.arrays[s].layout.dims) {
      NothingAssigned(k, w, w2, a, indexes, s);
    }
  }

  /** The code of the move says whether the assignment succeeded. */
  lemma AssignSucceeds(k: Casting, h: Header, a: Ref, indexes: seq<Index>, v: Header, aligned: bool)
    requires Binds(h, indexes) && Attempted(h, indexes)
    ensures Assigns(k, h, indexes, v) <==> !HowMoved(k, Target(h, a, indexes, aligned), v).Fails()
  {
    hide Binds, IndexLayout, HowMoved, Fits, Equiv, Places, Accepts;
    TargetIs(h, a, indexes, aligned);
    MoveSucceeds(k, Target(h, a, indexes, aligned), v);
  }

  /** Assignment through an index expression. If the value fits, exactly the elements
      that the expression means in Python change, to the converted elements of the
      value that meet them in broadcasting, unless the value is disturbed by the move
      itself; else no element changes. Iterators, which are made even if the value
      then does not fit, bring the row-major flags up to date. */
  lemma AssignSelects(k: Casting, w: World, a: Ref, indexes: seq<Index>, s: Ref, aligned: bool)
    requires Valid(w) && a in w.arrays && s in w.arrays && Plain(indexes) && StepsNonZero(indexes)
    ensures w.arrays[a].data in w.memory && w.arrays[s].data in w.memory
    ensures var w', h, v := SubscriptAssign(k, w, a, indexes, s, aligned), w.arrays[a], w.arrays[s];
            && Valid(w')
            && (if Attempted(h, indexes) then
                  && Binds(h, indexes)
                  && Outcome(k, w, w', a, indexes, s, Undisturbed(k, Target(h, a, indexes, aligned), v))
                else w' == w)
            && var walk := Attempted(h, indexes) && HowMoved(k, Target(h, a, indexes, aligned), v).Iterates();
               w'.arrays == w.arrays[a := IteratedIf(h, walk && Whole(indexes))][s := IteratedIf(v, walk)]
  {
    hide Valid, Plain, StepsNonZero, Binds, Accepts, MoveInto, MoveAndDrop, Viewed, Laid, TrueFlags, HowMoved;
    hide IndexLayout, Outcome, Iterated, Target, Whole, Undisturbed, Equiv;
    var h := w.arrays[a];
    DataThere(w, a);
    DataThere(w, s);
    Unmoved(w, a, s);
    if Writeable in h.flags {
      if Whole(indexes) {
        WholeLayout(h, indexes, aligned);
        WholeAssigned(k, w, a, indexes, s, aligned);
      } else if Accepts(h, indexes) {
        AcceptsBinds(h, indexes);
        ViewAssigned(k, w, a, indexes, s, aligned);
      }
    }
  }

  /** Which headers an assignment changes: those of the value and, if there is no index but
      an ellipsis, of the array itself; none if the array is read-only or the index is
      refused. */
  lemma AssignHeaders(k: Casting, w: World, a: Ref, indexes: seq<Index>, s: Ref, aligned: bool)
    requires Valid(w) && a in w.arrays && s in w.arrays && Plain(indexes) && StepsNonZero(indexes)
    ensures var w', h, v := SubscriptAssign(k, w, a, indexes, s, aligned), w.arrays[a], w.arrays[s];
            var whole := indexes == [] || indexes == [Ellipsis];
            if Writeable in h.flags
               && (whole || (Binds(h, indexes) && |IndexLayout(h, indexes, true).dims| <= 32))
            then
              && Binds(h, indexes)
              && var walk := HowMoved(k, Target(h, a, indexes, aligned), v).Iterates();
                 w'.arrays == w.arrays[a := if walk && whole then Iterated(h) else h]
                                      [s := if walk then Iterated(v) else v]
            else w' == w
  {
    hide Valid, Plain, StepsNonZero, Binds, SubscriptAssign, HowMoved, IndexLayout, Outcome, Iterated, Target;
    hide Undisturbed;
    AssignSelects(k, w, a, indexes, s, aligned);
  }

  /** When an assignment succeeds, from the flags, the shapes and the types. */
  lemma AssignsWhen(k: Casting, h: Header, indexes: seq<Index>, v: Header)
    ensures Assigns(k, h, indexes, v)
            <==> && Writeable in h.flags && Binds(h, indexes)
                 && (indexes == [] || indexes == [Ellipsis] || |IndexLayout(h, indexes, true).dims| <= 32)
                 && (|| Fits(IndexLayout(h, indexes, true).dims, v.layout.dims)
                     || (v.Count() == 0 && !Interchange(k, v.dtype, h.dtype)))
  {
    if Whole(indexes) {
      WholeLayout(h, indexes, true);
    }
    hide Binds, IndexLayout, Fits;
  }

  lemma TargetClean(k: Casting, h: Header, a: Ref, indexes: seq<Index>, aligned: bool, v: Header)
    requires Binds(h, indexes) && (!Interchange(k, v.dtype, h.dtype) || h.data != v.data)
    ensures Undisturbed(k, Target(h, a, indexes, aligned), v)
  {
    hide Binds, IndexLayout, Places, Fits, WrittenPlaces, ReadPlaces, Clean, Target, Interchange;
    TargetIs(h, a, indexes, aligned);
    var t := Target(h, a, indexes, aligned);
    if !Interchange(k, v.dtype, h.dtype) {
      CastClean(k, t, v);
    }
  }

  /** A value that fits is assigned as it is if its type can be taken over and it lies in
      other memory, and is cast if its type cannot. */
  lemma AssignConverts(k: Casting, w: World, a: Ref, indexes: seq<Index>, s: Ref, aligned: bool)
    requires Valid(w) && a in w.arrays && s in w.arrays && Plain(indexes) && StepsNonZero(indexes)
    requires Attempted(w.arrays[a], indexes) && Binds(w.arrays[a], indexes)
    requires Fits(IndexLayout(w.arrays[a], indexes, true).dims, w.arrays[s].layout.dims)
    ensures var w', h, v := SubscriptAssign(k, w, a, indexes, s, aligned), w.arrays[a], w.arrays[s];
            var dims := IndexLayout(h, indexes, true).dims;
            && h.data in w.memory && v.data in w.memory && h.data in w'.memory
            && (!Interchange(k, v.dtype, h.dtype) ==>
                  Updated(h, indexes, Elements(w, h), Elements(w', h),
                          Spread(dims, v.layout.dims, CastAll(k, v.dtype, h.dtype, Elements(w, v)))))
            && (Interchange(k, v.dtype, h.dtype) && h.data != v.data ==>
                  Updated(h, indexes, Elements(w, h), Elements(w', h), Spread(dims, v.layout.dims, Elements(w, v))))
  {
    hide Valid, Plain, StepsNonZero, Binds, Attempted, SubscriptAssign, IndexLayout, Target, Undisturbed, Interchange;
    hide Updated, Spread, Converted, Around, Fits, Places, Gathered;
    var h, v := w.arrays[a], w.arrays[s];
    AssignSelects(k, w, a, indexes, s, aligned);
    ConvertedMeans(k, v.dtype, h.dtype, Elements(w, v));
    if !Interchange(k, v.dtype, h.dtype) || h.data != v.data {
      TargetClean(k, h, a, indexes, aligned, v);
    }
  }

  lemma AcceptsBinds(h: Header, indexes: seq<Index>)
    requires Accepts(h, indexes)
    ensures Binds(h, indexes)
  {
  }

  lemma Unmoved(w: World, a: Ref, s: Ref)
    requires a in w.arrays && s in w.arrays
    ensures w.arrays[a := w.arrays[a]][s := w.arrays[s]] == w.arrays
  {
  }

  lemma WholeAssigned(k: Casting, w: World, a: Ref, indexes: seq<Index>, s: Ref, aligned: bool)
    requires Valid(w) && a in w.arrays && s in w.arrays && Whole(indexes) && Binds(w.arrays[a], indexes)
    requires Writeable in w.arrays[a].flags && Seated(w, w.arrays[a]) && Seated(w, w.arrays[s])
    ensures var w', h, v := MoveInto(k, w, a, s), w.arrays[a], w.arrays[s];
            var walk := HowMoved(k, Target(h, a, indexes, aligned), v).Iterates();
            && Valid(w') && Outcome(k, w, w', a, indexes, s, Undisturbed(k, Target(h, a, indexes, aligned), v))
            && w'.arrays == w.arrays[a := IteratedIf(h, walk)][s := IteratedIf(v, walk)]
  {
    hide Valid, Binds, IndexLayout, MoveInto, Laid, TrueFlags, HowMoved, Delivered, Outcome, Places, Iterated;
    hide Undisturbed, Around;
    var h := w.arrays[a];
    TargetIs(h, a, indexes, aligned);
    MoveKeeps(k, w, a, s);
    MoveMeans(k, w, a, s);
    MoveAssigns(k, w, w, MoveInto(k, w, a, s), a, indexes, s, h, w.arrays[s]);
  }

  /** The view that is assigned to. */
  lemma ViewMade(w: World, a: Ref, indexes: seq<Index>, s: Ref, aligned: bool)
    requires Valid(w) && a in w.arrays && s in w.arrays && Binds(w.arrays[a], indexes)
    ensures w.next !in w.arrays && w.next != a
    ensures var l := IndexLayout(w.arrays[a], indexes, aligned);
            var w1 := Viewed(w, a, l);
            && Valid(w1) && w.next in w1.arrays && s in w1.arrays
            && w1.arrays[w.next] == ViewHeader(w.arrays[a], l, a)
            && Seated(w1, w1.arrays[w.next]) && Seated(w1, w1.arrays[s])
  {
    hide Valid, Binds, IndexLayout, Laid, TrueFlags, TestedFlags, Elements, Owned, Shown, Children;
    var l := IndexLayout(w.arrays[a], indexes, aligned);
    NextIsNew(w);
    IndexedView(w, a, indexes, aligned);
    ViewedKeeps(w, a, l);
    DataThere(Viewed(w, a, l), w.next);
    DataThere(Viewed(w, a, l), s);
  }

  lemma ViewAssigned(k: Casting, w: World, a: Ref, indexes: seq<Index>, s: Ref, aligned: bool)
    requires Valid(w) && a in w.arrays && s in w.arrays && !Whole(indexes) && Binds(w.arrays[a], indexes)
    requires Writeable in w.arrays[a].flags && Seated(w, w.arrays[a]) && Seated(w, w.arrays[s])
    ensures w.next != a
    ensures var h, v, l := w.arrays[a], w.arrays[s], IndexLayout(w.arrays[a], indexes, aligned);
            && w.next in Viewed(w, a, l).arrays && s in Viewed(w, a, l).arrays
            && Viewed(w, a, l).arrays[w.next].data in Viewed(w, a, l).memory
            && Viewed(w, a, l).arrays[s].data in Viewed(w, a, l).memory
            && var w' := MoveAndDrop(k, Viewed(w, a, l), w.next, s);
               var walk := HowMoved(k, Target(h, a, indexes, aligned), v).Iterates();
               && Valid(w') && Outcome(k, w, w', a, indexes, s, Undisturbed(k, Target(h, a, indexes, aligned), v))
               && w'.arrays == w.arrays[s := IteratedIf(v, walk)]
  {
    hide Valid, Binds, IndexLayout, Laid, TrueFlags, HowMoved, Delivered, Outcome, Places, MoveInto, Decref, Viewed;
    hide Iterated, ViewHeader, Undisturbed, Around;
    ViewMade(w, a, indexes, s, aligned);
    var h, l := w.arrays[a], IndexLayout(w.arrays[a], indexes, aligned);
    TargetIs(h, a, indexes, aligned);
    var w1 := Viewed(w, a, l);
    ViewedIs(w, a, l, s);
    var t, g := w1.arrays[w.next], w1.arrays[s];
    SameMove(k, t, w.arrays[s], g);
    MoveKeeps(k, w1, w.next, s);
    MoveMeans(k, w1, w.next, s);
    var w2 := MoveInto(k, w1, w.next, s);
    MoveAssigns(k, w, w1, w2, a, indexes, s, t, g);
    ViewReleased(k, w, a, l, s, w2, HowMoved(k, t, g).Iterates());
    OutcomeOn(k, w, w2, Decref(k, w2, w.next), a, indexes, s, Undisturbed(k, t, g));
  }

  lemma OutcomeOn(k: Casting, w: World, w2: World, w': World, a: Ref, indexes: seq<Index>, s: Ref, clean: bool)
    requires a in w.arrays && s in w.arrays && Binds(w.arrays[a], indexes)
    requires w'.memory == w2.memory && w'.trapped == w2.trapped
    ensures Outcome(k, w, w2, a, indexes, s, clean) <==> Outcome(k, w, w', a, indexes, s, clean)
  {
    hide Binds, IndexLayout, Updated, Around, Fits;
  }

  lemma ViewedIs(w: World, a: Ref, layout: Layout, s: Ref)
    requires a in w.arrays && s in w.arrays && w.next !in w.arrays
    ensures var w1 := Viewed(w, a, layout);
            && w1.arrays[w.next] == ViewHeader(w.arrays[a], layout, a) && w1.memory == w.memory
            && w1.arrays[s] == w.arrays[s].(refs := w1.arrays[s].refs)
            && w1.trapped == w.trapped && w1.next == w.next + 1
            && w1.arrays == w.arrays[w.next := ViewHeader(w.arrays[a], layout, a)]
                                    [a := w.arrays[a].(refs := w.arrays[a].refs + 1)]
  {
    hide ViewHeader;
  }

  /** Whether iterators are made before or after a view makes no difference. */
  lemma IteratedViewed(w: World, a: Ref, layout: Layout, s: Ref, walk: bool)
    requires a in w.arrays && s in w.arrays && w.next !in w.arrays
    ensures var w0, w1 := With(w, s, IteratedIf(w.arrays[s], walk)), Viewed(w, a, layout);
            && w0.next == w.next && a in w0.arrays
            && w1.arrays[w.next := IteratedIf(w1.arrays[w.next], walk)][s := IteratedIf(w1.arrays[s], walk)]
               == Viewed(w0, a, layout).arrays
  {
    hide TestedFlags, Relabels;
    ViewStays(w.arrays[a], layout, a);
    ViewedIs(w, a, layout, s);
    var w0 := With(w, s, IteratedIf(w.arrays[s], walk));
    ViewedIs(w0, a, layout, s);
    RefsApart(w.arrays[s], w.arrays[s].refs + 1);
    assert ViewHeader(w0.arrays[a], layout, a) == ViewHeader(w.arrays[a], layout, a);
    hide ViewHeader, Viewed, Iterated;
  }

  lemma RefsApart(h: Header, refs: nat)
    ensures Iterated(h.(refs := refs)) == Iterated(h).(refs := refs)
  {
  }

  lemma ViewReleased(k: Casting, w: World, a: Ref, layout: Layout, s: Ref, w2: World, walk: bool)
    requires Valid(w) && a in w.arrays && s in w.arrays && w.next !in w.arrays && Valid(w2)
    requires var w1 := Viewed(w, a, layout);
             w2.arrays == w1.arrays[w.next := IteratedIf(w1.arrays[w.next], walk)][s := IteratedIf(w1.arrays[s], walk)]
    requires w2.memory.Keys == w.memory.Keys
    ensures w.next in w2.arrays
    ensures var w' := Decref(k, w2, w.next);
            && Valid(w') && w'.arrays == w.arrays[s := IteratedIf(w.arrays[s], walk)] && w'.memory == w2.memory
            && w'.trapped == w2.trapped
  {
    hide Valid, Viewed, Decref, Children, Iterated;
    var w0 := With(w, s, IteratedIf(w.arrays[s], walk));
    IteratedViewed(w, a, layout, s, walk);
    IterateKeeps(w, s);
    assert With(w, s, w.arrays[s]).arrays == w.arrays;
    ViewDropped(k, w0, a, layout, w2);
  }

  /** Releasing a view restores the headers. */
  lemma ViewDropped(k: Casting, w: World, a: Ref, layout: Layout, w2: World)
    requires Valid(w) && a in w.arrays && w.next != a && w2.arrays == Viewed(w, a, layout).arrays
    requires w2.memory.Keys == w.memory.Keys && Valid(w2)
    ensures w.next in w2.arrays
    ensures var w' := Decref(k, w2, w.next);
            Valid(w') && w'.arrays == w.arrays && w'.memory == w2.memory && w'.trapped == w2.trapped
  {
    hide Valid, Viewed, Children, Decref, Left, ViewHeader;
    NextIsNew(w);
    DataThere(w, a);
    InUse(w, a);
    ViewedIs(w, a, layout, a);
    ViewIsPlain(w.arrays[a], layout, a);
    DropKeeps(k, w, a, layout, w2);
    LastUnfolds(k, w2, w.next);
    PlainLeft(k, w2, w.next);
    LowersTo(k, Without(w2, w.next), a);
    ComeAndGone(w.arrays, w.next, a, ViewHeader(w.arrays[a], layout, a));
  }

  lemma PlainLeft(k: Casting, w: World, a: Ref)
    requires HasBase(w, a) && UpdateIfCopy !in w.arrays[a].flags
    ensures Left(k, w, a) == Without(w, a)
  {
  }

  /** A view of `a` comes and goes. */
  lemma ComeAndGone(m: map<Ref, Header>, v: Ref, a: Ref, h: Header)
    requires a in m && v !in m
    ensures (m[v := h][a := m[a].(refs := m[a].refs + 1)] - {v})[a := m[a]] == m
  {
  }

  lemma DropKeeps(k: Casting, w: World, a: Ref, layout: Layout, w2: World)
    requires Valid(w) && a in w.arrays && w.next != a && w2.arrays == Viewed(w, a, layout).arrays && Valid(w2)
    ensures w.next in w2.arrays && Valid(Decref(k, w2, w.next))
  {
    hide Valid, Settled, Freed, Walked, Decref, ViewHeader, Children;
    NextIsNew(w);
    NextIsRoot(w);
    ViewedChildren(w, a, layout, w.next);
    ViewIsPlain(w.arrays[a], layout, a);
    SameChildrenByBase(Viewed(w, a, layout), w2, w.next);
    DecrefSettles(k, w2, w.next);
  }

  /** Arrays that share a block have items of one type. */
  lemma OneType(w: World, a: Ref, b: Ref)
    requires Valid(w) && a in w.arrays && b in w.arrays && w.arrays[a].data == w.arrays[b].data
    ensures w.arrays[a].dtype == w.arrays[b].dtype
  {
    hide Valid;
    OwnerLives(w, a);
    OwnerLives(w, b);
  }

  /** So a value can be moved into any array. */
  lemma AlwaysMovable(k: Casting, w: World, h: Header, a: Ref, s: Ref)
    requires Valid(w) && a in w.arrays && s in w.arrays && SameMemory(w.arrays[a], h)
    ensures Movable(k, h, w.arrays[s])
  {
    hide Valid;
    if h.data == w.arrays[s].data {
      OneType(w, a, s);
    }
  }
}
