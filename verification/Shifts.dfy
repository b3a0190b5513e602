/**
 A reachable assignment from a part of an array to an overlapping part
 (libndarray/src/npy_ctors.c, npy_mapping.c).
 */
module Shifts {
  import opened Assignments
  import opened Broadcasts
  import opened Copying
  import opened FlatViews
  import opened IndexViews
  import opened Indexing
  import opened Moves
  import opened NdArray
  import opened NewArrays
  import opened Overlaps
  import opened Shape
  import opened Storage
  import opened WriteBack
  import opened WriteBackRuns
  import SizeGuard

  function ThreeItems(dtype: DType): (r: Form)
    ensures Size(r.dims) == 3 && |r.dims| <= SizeGuard.MAXDIMS
  {
    FlatSize(3);
    Form(dtype, [3], false, true)
  }

  /** The layouts of the first two and of the last two of three items. */
  function TwoOfThree(elsize: ItemSize, high: bool): (l: Layout)
    ensures Size(l.dims) == 2 && |l.dims| == 1
  {
    FlatSize(2);
    Layout([2], [elsize], if high then elsize else 0, true)
  }

  lemma ThreeLayout(dtype: DType, data: Ref)
    ensures NewHeader(ThreeItems(dtype), data).layout == Layout([3], [dtype.elsize], 0, true)
  {
    var dims: seq<int> := [3];
    assert dims[1..] == [] && NonZero(dims) == dims;
    assert CStrides(dims, dtype.elsize) == [dtype.elsize * Prod([])];
  }

  /** The memory of the three items. */
  function ThreeFilled(dtype: DType, items: seq<Item>): map<int, Item>
    requires |items| == 3
  {
    FlatSize(3);
    ThreeLayout(dtype, 0);
    hide NewHeader, Filled;
    Filled(NewHeader(ThreeItems(dtype), 0).layout, items)
  }

  lemma ThreePlaces(dtype: DType, items: seq<Item>)
    requires |items| == 3
    ensures var l, e := NewHeader(ThreeItems(dtype), 0).layout, dtype.elsize;
            && Places(l) == Along(3, 0, e)
            && 0 in ThreeFilled(dtype, items) && ThreeFilled(dtype, items)[0] == items[0]
            && forall p :: p in Along(3, 0, e) ==> p in ThreeFilled(dtype, items)
  {
    FlatSize(3);
    ThreeLayout(dtype, 0);
    var l := NewHeader(ThreeItems(dtype), 0).layout;
    NewIsSeated(ThreeItems(dtype), 0, items);
    OneAxisVisited(l);
    hide NewHeader, Filled, VisitedPlaces, TrueFlags;
    var a, f := Along(3, 0, dtype.elsize), Filled(l, items);
    assert a[0] == 0 && a[0] in a;
    assert Gathered(f, a)[0] == items[0];
  }

  lemma TwoPlaces(elsize: ItemSize, high: bool)
    ensures Places(TwoOfThree(elsize, high)) == Along(2, if high then elsize else 0, elsize)
    ensures Distinct(Places(TwoOfThree(elsize, high)))
    ensures forall p :: p in Places(TwoOfThree(elsize, high)) ==> p in Along(3, 0, elsize)
  {
    OneAxisVisited(TwoOfThree(elsize, high));
    hide VisitedPlaces, Places, Along;
    AlongTwo(if high then elsize else 0, elsize);
    AlongThree(elsize);
  }

  lemma AlongTwo(start: int, stride: int)
    ensures Along(2, start, stride) == [start, start + stride]
  {
    assert start + 0 * stride == start && start + 1 * stride == start + stride;
  }

  lemma AlongThree(stride: int)
    ensures Along(3, 0, stride) == [0, stride, stride + stride]
  {
    assert 0 + 0 * stride == 0 && 0 + 1 * stride == stride && 0 + 2 * stride == stride + stride;
  }

  /** Both parts lie in the memory of the three items. */
  lemma PartsLaid(dtype: DType, items: seq<Item>, high: bool)
    requires |items| == 3
    ensures Laid(TwoOfThree(dtype.elsize, high), ThreeFilled(dtype, items))
  {
    hide Places, Along, NewHeader, ThreeFilled, Distinct;
    ThreePlaces(dtype, items);
    TwoPlaces(dtype.elsize, high);
  }

  /** A view of a part is a step. */
  lemma ViewStep(k: Casting, w: World, n: nat, arr: Ref, layout: Layout)
    requires Reachable(k, w, n) && Valid(w) && !w.trapped && Viewable(w, arr, layout) && |layout.dims| <= 32
    ensures w.next != arr && w.next !in w.arrays
    ensures var w' := Viewed(w, arr, layout);
            && Reachable(k, w', n + 1) && Valid(w') && !w'.trapped && w'.next == w.next + 1 && w'.memory == w.memory
            && w'.arrays == w.arrays[w.next := ViewHeader(w.arrays[arr], layout, arr)]
                                    [arr := w.arrays[arr].(refs := w.arrays[arr].refs + 1)]
  {
    hide Reachable, Valid, Laid, ViewHeader, Children, Viewed;
    OneMoreStep(k, w, n, Op.View(arr, layout));
    ViewedKeeps(w, arr, layout);
    ViewedIs(w, arr, layout, arr);
  }

  /** A view of part of an array without views, in the type of that array. */
  lemma PartHeader(h: Header, layout: Layout, base: Ref)
    requires Writeable in h.flags
    ensures var v := ViewHeader(h, layout, base);
            v.data == h.data && v.dtype == h.dtype && v.layout == layout && Writeable in v.flags
  {
    hide TestedFlags;
  }

  /** Moving one part to the other by iterators. */
  lemma PartsMove(k: Casting, h: Header, g: Header, elsize: ItemSize)
    requires h.dtype == g.dtype && !h.dtype.native && Writeable in h.flags && h.data == g.data
    requires h.layout == TwoOfThree(elsize, true) && g.layout == TwoOfThree(elsize, false)
    ensures Shifted(k, h, g) && g.Count() == 2 && g.layout.offset == 0 && g.layout.strides == [elsize]
  {
    SameShapeMeets(h.layout.dims, [0, 0]);
    hide Fits;
  }

  /** The state before the assignment. */
  ghost predicate PartsMade(k: Casting, w: World, dtype: DType, items: seq<Item>)
    requires |items| == 3
  {
    && Reachable(k, w, 3) && Valid(w) && !w.trapped && 1 in w.arrays && 2 in w.arrays && 0 in w.memory
    && var h, g := w.arrays[2], w.arrays[1];
       && h.data == g.data == 0 && h.dtype == g.dtype == dtype && Writeable in h.flags
       && h.layout == TwoOfThree(dtype.elsize, true) && g.layout == TwoOfThree(dtype.elsize, false)
       && w.memory[0].items == ThreeFilled(dtype, items)
  }

  lemma MakeParts(k: Casting, dtype: DType, items: seq<Item>) returns (w: World)
    requires |items| == 3
    ensures PartsMade(k, w, dtype, items)
    ensures 0 in w.arrays && w.arrays[0].layout == NewHeader(ThreeItems(dtype), 0).layout && w.arrays[0].data == 0
  {
    hide Reachable, Valid, Viewed, ViewHeader, Filled, Children, Elements, Unclaimed, Allocated, Laid, Places;
    var form := ThreeItems(dtype);
    var w0 := Allocated(NOTHING, form, items);
    FirstArray(k, form, items);
    NewIsPlain(form, 0);
    NewWriteableFlag(form, 0);
    FirstMemory(form, items);
    hide NewHeader;
    PartsLaid(dtype, items, false);
    PartsLaid(dtype, items, true);
    var h := NewHeader(form, 0);
    ViewStep(k, w0, 1, 0, TwoOfThree(dtype.elsize, false));
    var w1 := Viewed(w0, 0, TwoOfThree(dtype.elsize, false));
    ViewStep(k, w1, 2, 0, TwoOfThree(dtype.elsize, true));
    PartHeader(h, TwoOfThree(dtype.elsize, false), 0);
    PartHeader(w1.arrays[0], TwoOfThree(dtype.elsize, true), 0);
    w := Viewed(w1, 0, TwoOfThree(dtype.elsize, true));
  }

  lemma NewWriteableFlag(form: Form, data: Ref)
    ensures Writeable in NewHeader(form, data).flags
  {
  }

  lemma FirstMemory(form: Form, items: seq<Item>)
    requires |items| == Size(form.dims)
    ensures Allocated(NOTHING, form, items).memory == map[0 := Block(Filled(NewHeader(form, 0).layout, items), 0)]
  {
    hide Filled, NewHeader;
  }

  /** The assignment is a step, and makes all three items the first one. */
  lemma PartsAssigned(k: Casting, w: World, dtype: DType, items: seq<Item>)
    requires |items| == 3 && !dtype.native && PartsMade(k, w, dtype, items)
    ensures Plain([]) && StepsNonZero([])
    ensures var w' := SubscriptAssign(k, w, 2, [], 1, true);
            && Reachable(k, w', 4) && 0 in w'.memory
            && Gathered(w'.memory[0].items, Along(3, 0, dtype.elsize)) == [items[0], items[0], items[0]]
  {
    hide Reachable, Valid, ThreeFilled, MoveInto, TrueFlags, Laid, TwoOfThree, Shifted, Along, Gathered;
    DataThere(w, 1);
    DataThere(w, 2);
    PartsMove(k, w.arrays[2], w.arrays[1], dtype.elsize);
    OneMoreStep(k, w, 3, AssignAt(2, [], 1, true));
    ShiftRepeats(k, w, 2, 1);
    ThreePlaces(dtype, items);
    FirstThree(MoveInto(k, w, 2, 1).memory[0].items, Along(3, 0, dtype.elsize), items[0]);
  }

  /** Assigning the first two of three items to the last two repeats the first one,
      although the manual lets the areas overlap, if the type is not in the byte order
      of the machine: then the items are not moved in one run. */
  lemma ShiftSmears(k: Casting, typeNum: int, elsize: ItemSize, items: seq<Item>) returns (w: World)
    requires |items| == 3
    ensures PartsMade(k, w, DType(typeNum, elsize, false), items) && 0 in w.arrays
    ensures w.arrays[0].data == 0 && Elements(w, w.arrays[0]) == items
    ensures Plain([]) && StepsNonZero([])
    ensures var w' := SubscriptAssign(k, w, 2, [], 1, true);
            Reachable(k, w', 4) && 0 in w'.memory && Elements(w', w.arrays[0]) == [items[0], items[0], items[0]]
  {
    hide Reachable, Valid, ThreeFilled, TrueFlags, Laid, NewHeader, Places, Gathered, TwoOfThree, SubscriptAssign;
    var dtype := DType(typeNum, elsize, false);
    w := MakeParts(k, dtype, items);
    ThreePlaces(dtype, items);
    ThreeItemsRead(dtype, items);
    PartsAssigned(k, w, dtype, items);
  }

  lemma ThreeItemsRead(dtype: DType, items: seq<Item>)
    requires |items| == 3
    ensures var h := NewHeader(ThreeItems(dtype), 0);
            Size(h.layout.dims) == 3 && Gathered(ThreeFilled(dtype, items), Places(h.layout)) == items
  {
    NewIsSeated(ThreeItems(dtype), 0, items);
    ThreeLayout(dtype, 0);
  }

  lemma FirstThree(items: map<int, Item>, places: seq<int>, first: Item)
    requires |places| == 3 && forall p :: p in places ==> p in items && items[p] == first
    ensures Gathered(items, places) == [first, first, first]
  {
    forall i | 0 <= i < 3 ensures Gathered(items, places)[i] == first {
      var p := places[i];
      assert p in places;
    }
  }
}
