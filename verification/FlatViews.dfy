/**
 Flat views (libndarray/src/npy_shape.c): an array as one axis, in row-major order,
 and what becomes of it when the flat view is released.
 */
module FlatViews {
  import opened Copying
  import opened NdArray
  import opened NewArrays
  import opened Releasing
  import opened Requests
  import opened Shape
  import opened Storage
  import opened WriteBack

  lemma FlatSize(n: nat)
    ensures Size([n]) == n
  {
    assert [n][1..] == [] && Prod([n]) == [n][0] * Prod([n][1..]);
  }

  function FlatLayout(h: Header, aligned: bool): Layout {
    Layout([h.Count()], [h.dtype.elsize], h.layout.offset, aligned)
  }

  function FlatForm(h: Header, aligned: bool): (r: Form)
    ensures Size(r.dims) == h.Count()
  {
    FlatSize(h.Count());
    Form(h.dtype, [h.Count()], false, aligned)
  }

  /** `NpyArray_FlatView`: a view if the array is contiguous, else a pending copy;
      there is no test that the array is writeable. Copying makes an iterator over it. */
  ghost function FlatView(k: Casting, w: World, a: Ref, aligned: bool): World
    requires a in w.arrays && w.arrays[a].data in w.memory && w.next != a
  {
    var h := w.arrays[a];
    FlatSize(h.Count());
    if Contiguous in h.flags then Viewed(w, a, FlatLayout(h, aligned))
    else LockedOut(k, w, a, FlatForm(h, aligned), true)
  }

  /** A contiguous array is one run, so one axis shows the same places. */
  lemma FlatPlaces(h: Header, aligned: bool)
    requires TrueFlags(h) && Contiguous in h.flags
    ensures Places(FlatLayout(h, aligned)) == Places(h.layout)
  {
    FlatSize(h.Count());
    ContiguousRun(h.layout, h.dtype.elsize);
    ContiguousRun(FlatLayout(h, aligned), h.dtype.elsize);
    assert COrder(h.dtype.elsize, FlatLayout(h, aligned));
    hide Places, COrder, FOrder;
  }

  lemma FlatViewable(w: World, a: Ref, aligned: bool)
    requires Valid(w) && a in w.arrays && Contiguous in w.arrays[a].flags
    ensures Viewable(w, a, FlatLayout(w.arrays[a], aligned))
  {
    hide Valid, Places, TrueFlags;
    DataThere(w, a);
    FlatPlaces(w.arrays[a], aligned);
  }

  /** It keeps the world valid exactly if it makes a view or nobody holds a copy. */
  lemma FlatViewKeeps(k: Casting, w: World, a: Ref, aligned: bool)
    requires Valid(w) && a in w.arrays
    ensures w.arrays[a].data in w.memory && w.next != a
    ensures Valid(FlatView(k, w, a, aligned)) <==> Contiguous in w.arrays[a].flags || Unclaimed(w, a)
  {
    hide Valid, Unclaimed, Viewed, LockedOut;
    NextIsNew(w);
    DataThere(w, a);
    var h := w.arrays[a];
    FlatSize(h.Count());
    if Contiguous in h.flags {
      FlatViewable(w, a, aligned);
      ViewedKeeps(w, a, FlatLayout(h, aligned));
    } else {
      LockedOutKeeps(k, w, a, FlatForm(h, aligned), true);
    }
  }

  /** Either way it shows the elements of the array in row-major order. */
  lemma FlatViewShows(k: Casting, w: World, a: Ref, aligned: bool)
    requires Valid(w) && a in w.arrays
    ensures w.arrays[a].data in w.memory && w.next != a
    ensures var w' := FlatView(k, w, a, aligned);
            && w.next in w'.arrays && w'.arrays[w.next].data in w'.memory
            && w'.arrays[w.next].layout.dims == [w.arrays[a].Count()]
            && Elements(w', w'.arrays[w.next]) == Elements(w, w.arrays[a])
  {
    hide Valid, Places, Gathered, TestedFlags, Filled, TrueFlags, Laid, CopiedOut, NewHeader;
    NextIsNew(w);
    DataThere(w, a);
    var h := w.arrays[a];
    FlatSize(h.Count());
    if Contiguous in h.flags {
      FlatPlaces(h, aligned);
    } else {
      var form := FlatForm(h, aligned);
      CopiedOutIs(k, w, a, form, true);
      NewIsPlain(form, w.next);
      NewDims(form, w.next);
      OneAxisStays(NewHeader(form, w.next), true);
    }
  }

  /** An iterator does nothing to an array of one axis. */
  lemma OneAxisStays(h: Header, walk: bool)
    requires h.Nd() <= 1
    ensures IteratedIf(h, walk) == h
  {
  }

  // ----- Releasing a flat view

  /** The copy and the array are both one run in column-major order, so they are
      copied as one run although their shapes differ. */
  predicate ColumnRun(h: Header) {
    h.dtype.native && Aligned in h.flags && Fortran in h.flags
  }

  lemma FlatListed(n: nat, s: seq<Item>)
    requires |s| == n
    ensures Size([n]) == n && Listed(true, [n], s) == s
  {
    FlatSize(n);
    forall j | 0 <= j < n ensures FIndex(j, [n]) == j {
      FewAxes([n], j);
    }
  }

  lemma FlatArrives(k: Casting, h: Header, aligned: bool, data: Ref, after: seq<Item>, given: seq<Item>)
    requires Contiguous !in h.flags && |given| == h.Count()
    requires Arrived(k, h, NewHeader(FlatForm(h, aligned), data), after, Converted(k, h.dtype, h.dtype, given))
    ensures |after| == h.Count() && Listed(ColumnRun(h), h.layout.dims, after) == given
  {
    hide Size;
    FlatListed(h.Count(), given);
  }

  /** The copy has an axis, so copying back follows no null pointer. */
  lemma FlatNeverTraps(k: Casting, h: Header, aligned: bool, data: Ref)
    ensures !Traps(k, h, NewHeader(FlatForm(h, aligned), data))
  {
  }

  /** What becomes of the array: it is writeable, even if it was not; if it is
      column-major but passes the row-major test too, it is flagged row-major; and
      its elements come back in column-major order if they were copied as one run. */
  lemma FlatViewAndBack(k: Casting, w: World, a: Ref, aligned: bool)
    requires Valid(w) && a in w.arrays && Unclaimed(w, a) && Contiguous !in w.arrays[a].flags
    ensures w.arrays[a].data in w.memory && w.next != a && w.next in FlatView(k, w, a, aligned).arrays
    ensures var w2, h := Decref(k, FlatView(k, w, a, aligned), w.next), w.arrays[a];
            && w2.arrays == w.arrays[a := Iterated(Unlocked(h))] && w2.trapped == w.trapped
            && (w2.arrays == w.arrays <==> Writeable in h.flags && !Relabels(h))
            && h.data in w2.memory
            && Listed(ColumnRun(h), h.layout.dims, Elements(w2, h)) == Elements(w, h)
            && Around(w.memory[h.data].items, w2.memory[h.data].items, Places(h.layout))
  {
    hide Valid, LockedOut, Decref, Arrived, Around, Elements, ColumnRun, Traps, WalksBack, FlatForm, NewHeader;
    hide Iterated, Relabels;
    NextIsNew(w);
    DataThere(w, a);
    var h, form := w.arrays[a], FlatForm(w.arrays[a], aligned);
    FlatSize(h.Count());
    LockedOutAndBack(k, w, a, form, true);
    FlatNeverTraps(k, h, aligned, w.next);
    FlatFormIs(h, aligned, w.next);
    var w2 := Decref(k, FlatView(k, w, a, aligned), w.next);
    FlatArrives(k, h, aligned, w.next, Elements(w2, h), Elements(w, h));
    SameArrays(w, a, Iterated(Unlocked(h)));
    SeatedIs(w, a);
    SameAfter(h);
  }

  lemma FlatFormIs(h: Header, aligned: bool, data: Ref)
    ensures FlatForm(h, aligned).dtype == NewHeader(FlatForm(h, aligned), data).dtype == h.dtype
  {
  }

  lemma SameAfter(h: Header)
    requires TrueFlags(h)
    ensures Iterated(Unlocked(h)) == h <==> Writeable in h.flags && !Relabels(h)
  {
    if Writeable in h.flags {
      WriteableIs(h);
      IteratedTrue(h);
    } else {
      assert Writeable in Iterated(Unlocked(h)).flags;
    }
  }

  /** The world with other elements in the array. */
  function Refilled(w: World, a: Ref, items: seq<Item>): World
    requires a in w.arrays && w.arrays[a].data in w.memory && |items| == w.arrays[a].Count()
  {
    var h := w.arrays[a];
    var block := w.memory[h.data];
    w.(memory := w.memory[h.data := Block(Scattered(block.items, Places(h.layout), items), block.writes)])
  }

  lemma RefilledKeeps(w: World, a: Ref, items: seq<Item>)
    requires Valid(w) && a in w.arrays && w.arrays[a].data in w.memory && |items| == w.arrays[a].Count()
    ensures Valid(Refilled(w, a, items)) && Elements(Refilled(w, a, items), w.arrays[a]) == items
  {
    hide Valid, Sound, Children, Places, Scattered, TrueFlags, SameHeader;
    var h := w.arrays[a];
    DataThere(w, a);
    ValidFacts(w);
    ScatteredKeys(w.memory[h.data].items, Places(h.layout), items);
    WrittenIsRead(w.memory[h.data].items, Places(h.layout), items);
    var w' := Refilled(w, a, items);
    forall p ensures p in w'.memory[h.data].items <==> p in w.memory[h.data].items {
    }
    forall x | x in w.arrays ensures SameHeader(w.arrays[x], w'.arrays[x]) {
      IteratedSame(w.arrays[x]);
    }
    SameLinksKeep(w, w');
  }

  /** An untouched flat view gives the elements back. */
  ghost predicate Returns(k: Casting, w: World, a: Ref, aligned: bool) {
    && a in w.arrays && w.arrays[a].data in w.memory && w.next != a && w.next in FlatView(k, w, a, aligned).arrays
    && var w2, h := Decref(k, FlatView(k, w, a, aligned), w.next), w.arrays[a];
       h.data in w2.memory && Elements(w2, h) == Elements(w, h)
  }

  /** An untouched flat view that had to copy gives back whatever the array holds,
      exactly if the array is not one aligned run in column-major order or its two
      orders are the same. */
  lemma FlatViewReturns(k: Casting, w: World, a: Ref, aligned: bool)
    requires Valid(w) && a in w.arrays && Unclaimed(w, a) && Contiguous !in w.arrays[a].flags
    ensures w.arrays[a].data in w.memory
    ensures var h := w.arrays[a];
            (forall items: seq<Item> :: |items| == h.Count() ==> Returns(k, Refilled(w, a, items), a, aligned))
            <==> !ColumnRun(h) || OneOrder(h.layout.dims)
  {
    hide Valid, Refilled, FlatView, Decref, ColumnRun, OneOrder, Listed;
    DataThere(w, a);
    var h := w.arrays[a];
    forall items: seq<Item> | |items| == h.Count()
      ensures Returns(k, Refilled(w, a, items), a, aligned) <==> Listed(ColumnRun(h), h.layout.dims, items) == items
    {
      RefilledReturns(k, w, a, aligned, items);
    }
    ListedSame(h.layout.dims);
    ListedPlain(h.layout.dims);
  }

  lemma ListedPlain(dims: seq<nat>)
    ensures forall s: seq<Item> :: |s| == Size(dims) ==> Listed(false, dims, s) == s
  {
  }

  lemma RefilledReturns(k: Casting, w: World, a: Ref, aligned: bool, items: seq<Item>)
    requires Valid(w) && a in w.arrays && Unclaimed(w, a) && Contiguous !in w.arrays[a].flags
    requires w.arrays[a].data in w.memory && |items| == w.arrays[a].Count()
    ensures var h := w.arrays[a];
            Returns(k, Refilled(w, a, items), a, aligned) <==> Listed(ColumnRun(h), h.layout.dims, items) == items
  {
    hide Valid, FlatView, Decref, ColumnRun, Elements, Places, Scattered;
    var h, v := w.arrays[a], Refilled(w, a, items);
    RefilledKeeps(w, a, items);
    SameClaims(w, v, a);
    FlatViewAndBack(k, v, a, aligned);
    var w2 := Decref(k, FlatView(k, v, a, aligned), v.next);
    ListedInjective(ColumnRun(h), h.layout.dims, Elements(w2, h), items);
  }

  lemma SameClaims(w: World, w': World, a: Ref)
    requires w'.arrays == w.arrays && Unclaimed(w, a)
    ensures Unclaimed(w', a)
  {
    forall c ensures !Holds(w', c, a) {
      assert !Holds(w, c, a);
    }
  }

  // ----- Two flat views

  /** A second flat view of an array that is not contiguous. If the array passes the
      row-major test all the same, the first flat view flagged it so, and the second
      is a view. Otherwise both wait to be copied back, and releasing the first
      leaves the array writeable while the second still waits. */
  lemma TwoFlatViews(k: Casting, w: World, a: Ref, aligned: bool)
    requires Valid(w) && a in w.arrays && Unclaimed(w, a) && Contiguous !in w.arrays[a].flags
    ensures w.arrays[a].data in w.memory && w.next != a
    ensures var w1 := FlatView(k, w, a, aligned);
            && Valid(w1) && w1.next != a && a in w1.arrays && w1.arrays[a].data in w1.memory
            && Holds(w1, w.next, a)
            && var w2 := FlatView(k, w1, a, aligned);
               && (Valid(w2) <==> Relabels(w.arrays[a]))
               && (Valid(w2) ==> w1.next in w2.arrays && w2.arrays[w1.next].data == w.arrays[a].data)
               && (!Valid(w2) ==>
                     && Holds(w2, w.next, a) && Holds(w2, w1.next, a) && w.next != w1.next
                     && var w3 := Decref(k, w2, w.next);
                        && a in w3.arrays && Writeable in w3.arrays[a].flags && Holds(w3, w1.next, a) && !Valid(w3))
  {
    hide Valid, Decref, FlatView, Relabels, Iterated, Holds;
    FirstPending(k, w, a, aligned);
    if Relabels(w.arrays[a]) {
      SecondIsView(k, FlatView(k, w, a, aligned), a, aligned);
    } else {
      SecondPending(k, FlatView(k, w, a, aligned), w.next, a, aligned);
    }
  }

  /** After the first flat view. */
  lemma FirstPending(k: Casting, w: World, a: Ref, aligned: bool)
    requires Valid(w) && a in w.arrays && Unclaimed(w, a) && Contiguous !in w.arrays[a].flags
    ensures w.arrays[a].data in w.memory && w.next != a
    ensures var w1 := FlatView(k, w, a, aligned);
            && Valid(w1) && a < w1.next && a in w1.arrays && w1.arrays[a].data in w1.memory
            && w1.arrays[a].data == w.arrays[a].data && a < w.next < w1.next
            && Holds(w1, w.next, a) && w1.arrays[w.next].refs == 1 && w1.arrays[w.next].data in w1.memory
            && (Contiguous in w1.arrays[a].flags <==> Relabels(w.arrays[a]))
  {
    hide Valid, FlatView, Relabels, Iterated;
    NextIsNew(w);
    FlatViewKeeps(k, w, a, aligned);
    FlatViewIs(k, w, a, aligned);
    DataThere(w, a);
    SeatedIs(w, a);
    RelabelledIs(w.arrays[a]);
    IteratedPlain(w.arrays[a]);
  }

  lemma SecondPending(k: Casting, w: World, c: Ref, a: Ref, aligned: bool)
    requires Valid(w) && a in w.arrays && Holds(w, c, a) && Contiguous !in w.arrays[a].flags
    requires a < c && w.arrays[c].refs == 1
    ensures w.arrays[a].data in w.memory && a != w.next
    ensures var w' := FlatView(k, w, a, aligned);
            && !Valid(w') && Holds(w', c, a) && Holds(w', w.next, a) && c != w.next
            && var w3 := Decref(k, w', c);
               a in w3.arrays && Writeable in w3.arrays[a].flags && Holds(w3, w.next, a) && !Valid(w3)
  {
    hide *;
    NextIsNew(w);
    DataThere(w, a);
    HolderBase(w, c, a);
    DataThere(w, c);
    InUse(w, a);
    Claimed(w, c, a);
    FlatViewKeeps(k, w, a, aligned);
    FlatViewIs(k, w, a, aligned);
    var w' := FlatView(k, w, a, aligned);
    IteratedPlain(w.arrays[a]);
    StillHolds(w, w', c, a);
    FirstReleased(k, w', c, w.next, a);
  }

  lemma Claimed(w: World, c: Ref, a: Ref)
    requires Holds(w, c, a)
    ensures !Unclaimed(w, a)
  {
  }

  lemma StillHolds(w: World, w': World, c: Ref, a: Ref)
    requires Holds(w, c, a) && c in w'.arrays && w'.arrays[c] == w.arrays[c]
    ensures Holds(w', c, a)
  {
  }

  /** Whether an iterator flags an array row-major. */
  lemma RelabelledIs(h: Header)
    requires TrueFlags(h) && Contiguous !in h.flags
    ensures Contiguous in Iterated(h).flags <==> Relabels(h)
  {
  }

  lemma SecondIsView(k: Casting, w: World, a: Ref, aligned: bool)
    requires Valid(w) && a in w.arrays && Contiguous in w.arrays[a].flags
    ensures w.arrays[a].data in w.memory && w.next != a
    ensures var w' := FlatView(k, w, a, aligned);
            Valid(w') && w.next in w'.arrays && w'.arrays[w.next].data == w.arrays[a].data
  {
    hide Valid, TestedFlags, LockedOut;
    FlatViewKeeps(k, w, a, aligned);
  }

  /** What a copying flat view does to the headers. */
  lemma FlatViewIs(k: Casting, w: World, a: Ref, aligned: bool)
    requires a in w.arrays && w.arrays[a].data in w.memory && a < w.next && Contiguous !in w.arrays[a].flags
    requires w.next !in w.arrays && w.arrays[a].data < w.next
    ensures var w', c, h := FlatView(k, w, a, aligned), w.next, Iterated(w.arrays[a]);
            && w'.arrays.Keys == w.arrays.Keys + {c} && w'.next == c + 1
            && w'.memory.Keys == w.memory.Keys + {c}
            && Holds(w', c, a) && w'.arrays[c].refs == 1 && w'.arrays[c].data == c
            && w'.arrays[a] == h.(flags := h.flags - {Writeable}, refs := h.refs + 1)
            && (forall x :: x in w.arrays && x != a ==> w'.arrays[x] == w.arrays[x])
  {
    hide NewHeader, Iterated, CopiedOut;
    var form := FlatForm(w.arrays[a], aligned);
    CopiedOutIs(k, w, a, form, true);
    NewIsPlain(form, w.next);
    IteratedPlain(NewHeader(form, w.next));
  }

  /** Releasing one of two pending copies. */
  lemma FirstReleased(k: Casting, w: World, c: Ref, d: Ref, b: Ref)
    requires Holds(w, c, b) && Holds(w, d, b) && c != d && b < c && d != b && b in w.arrays
    requires w.arrays[c].refs == 1 && w.arrays[b].refs > 1
    requires w.arrays[c].data in w.memory && w.arrays[b].data in w.memory
    ensures var w' := Decref(k, w, c);
            b in w'.arrays && Writeable in w'.arrays[b].flags && Holds(w', d, b) && !Valid(w')
  {
    hide Valid, CopiedIn, Iterated;
    LastUnfolds(k, w, c);
    LeftHasBase(k, w, c);
    var u := Unlocked(w.arrays[b]);
    CopiedInHeaders(k, With(w, b, u), w.arrays[c], b);
    IteratedPlain(u);
    LowersTo(k, Left(k, w, c), b);
    BrokenLock(Decref(k, w, c), d, b);
  }

  lemma BrokenLock(w: World, c: Ref, b: Ref)
    requires Holds(w, c, b) && b in w.arrays && Writeable in w.arrays[b].flags
    ensures !Valid(w)
  {
    if Valid(w) {
      ValidFacts(w);
    }
  }
}
