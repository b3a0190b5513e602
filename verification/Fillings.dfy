/**
 How new memory is filled: copying into a new array gives the copy that the other
 copy-back modules reason about, whatever was in the memory before
 (libndarray/src/npy_ctors.c, npy_shape.c).
 */
module Fillings {
  import opened Broadcasts
  import opened Copying
  import opened FlatViews
  import opened Moves
  import opened NdArray
  import opened NewArrays
  import opened Requests
  import opened Storage
  import opened WriteBack

  /** Both maps have exactly the given places, with the same items. */
  lemma SameItems(items: map<int, Item>, items': map<int, Item>, places: seq<int>)
    requires forall p :: p in items <==> p in places
    requires forall p :: p in items' <==> p in places
    requires Gathered(items, places) == Gathered(items', places)
    ensures items == items'
  {
    forall p ensures p in items <==> p in items' {
    }
    forall p | p in items ensures items[p] == items'[p] {
      var i :| 0 <= i < |places| && places[i] == p;
      assert Gathered(items, places)[i] == Gathered(items', places)[i];
    }
  }

  /** A move into a new array of the same shape succeeds. */
  lemma NewTakes(k: Casting, n: Header, h: Header)
    requires n.layout.dims == h.layout.dims && Writeable in n.flags
    ensures !HowMoved(k, n, h).Fails() && (HowMoved(k, n, h).Delivers() <==> Stores(k, n, h))
    ensures IteratedIf(n, HowMoved(k, n, h).Iterates()) == IteratedIf(n, Fills(k, n, h))
    ensures IteratedIf(h, HowMoved(k, n, h).Iterates()) == IteratedIf(h, Fills(k, n, h))
  {
    SameShapeMeets(h.layout.dims, seq(h.Count(), _ => 0));
    assert h.layout.dims == [] ==> h.Count() == 1;
    hide Fits, Equiv, Simple;
  }

  lemma NewWriteable(form: Form, data: Ref)
    ensures Writeable in NewHeader(form, data).flags && NewHeader(form, data).layout.dims == form.dims
  {
  }

  /** New memory, as it is found. */
  lemma NewMemory(w: World, form: Form, junk: seq<Item>)
    requires Valid(w) && |junk| == Size(form.dims)
    ensures w.next !in w.arrays
    ensures var n, w1 := NewHeader(form, w.next), Allocated(w, form, junk);
            && w1.arrays == w.arrays[w.next := n] && w1.next == w.next + 1 && w1.trapped == w.trapped
            && w1.memory == w.memory[w.next := Block(Filled(n.layout, junk), 0)] && n.data == w.next
            && Seated(w1, n) && Distinct(Places(n.layout))
            && forall p :: p in Filled(n.layout, junk) <==> p in Places(n.layout)
  {
    hide Valid, NewLayout, AllocFlags, TrueFlags;
    NextIsNew(w);
    NewIsSeated(form, w.next, junk);
    ScatteredKeys(map[], Places(NewHeader(form, w.next).layout), junk);
  }

  lemma SeatedOn(w: World, w1: World, h: Header)
    requires Seated(w, h) && h.data in w1.memory && w1.memory[h.data] == w.memory[h.data]
    ensures Seated(w1, h)
  {
  }

  /** Copying into a new array of the same shape. */
  lemma FilledByMove(k: Casting, w: World, arr: Ref, form: Form, junk: seq<Item>)
    requires Valid(w) && arr in w.arrays && form.dims == w.arrays[arr].layout.dims && |junk| == Size(form.dims)
    ensures w.next !in w.arrays && w.arrays[arr].data in w.memory
    ensures var n, h, w1 := NewHeader(form, w.next), w.arrays[arr], Allocated(w, form, junk);
            && w.next in w1.arrays && w1.arrays[w.next] == n && arr in w1.arrays && w1.arrays[arr] == h
            && Seated(w1, n) && Seated(w1, h) && Movable(k, n, h) && !HowMoved(k, n, h).Fails()
            && MoveInto(k, w1, w.next, arr) == CopiedOut(k, w, arr, form, Fills(k, n, h))
  {
    hide Valid, TrueFlags, Laid, MoveInto, HowMoved, Fills, NewHeader, Filled, Iterated, Allocated, Around;
    DataThere(w, arr);
    NextIsNew(w);
    NewMemory(w, form, junk);
    NewWriteable(form, w.next);
    NewIsPlain(form, w.next);
    var n, h, w1 := NewHeader(form, w.next), w.arrays[arr], Allocated(w, form, junk);
    SeatedOn(w, w1, h);
    NewTakes(k, n, h);
    MoveMeans(k, w1, w.next, arr);
    FilledAlike(k, w, w1, MoveInto(k, w1, w.next, arr), arr, form, junk);
  }

  /** The items of new memory that holds the values. */
  lemma NewItems(form: Form, data: Ref, items: map<int, Item>, values: seq<Item>)
    requires |values| == Size(form.dims)
    requires forall p :: p in items <==> p in Places(NewHeader(form, data).layout)
    requires Gathered(items, Places(NewHeader(form, data).layout)) == values
    ensures items == Filled(NewHeader(form, data).layout, values)
  {
    hide NewHeader, Gathered, Places;
    var places := Places(NewHeader(form, data).layout);
    NewWriteable(form, data);
    NewIsSeated(form, data, values);
    ScatteredKeys(map[], places, values);
    hide Scattered;
    SameItems(items, Filled(NewHeader(form, data).layout, values), places);
  }

  lemma CopiedOutWorld(k: Casting, w: World, arr: Ref, form: Form, walk: bool)
    requires arr in w.arrays && w.arrays[arr].data in w.memory && Size(form.dims) == w.arrays[arr].Count()
    requires NewHeader(form, w.next).layout.dims == form.dims
    ensures var n, h := NewHeader(form, w.next), w.arrays[arr];
            var values := Converted(k, h.dtype, form.dtype, Elements(w, h));
            CopiedOut(k, w, arr, form, walk)
            == World(w.arrays[w.next := IteratedIf(n, walk)][arr := IteratedIf(h, walk)],
                     w.memory[w.next := Block(Filled(n.layout, values), if Stores(k, n, h) then 1 else 0)],
                     w.next + 1, w.trapped)
  {
    hide NewHeader, Converted, Filled, Stores, Iterated;
    var n, h := NewHeader(form, w.next), w.arrays[arr];
    assert w.arrays[w.next := n][w.next := IteratedIf(n, walk)] == w.arrays[w.next := IteratedIf(n, walk)];
  }

  lemma FilledAlike(k: Casting, w: World, w1: World, w2: World, arr: Ref, form: Form, junk: seq<Item>)
    requires arr in w.arrays && form.dims == w.arrays[arr].layout.dims && |junk| == Size(form.dims)
    requires w.arrays[arr].data in w.memory && w.next !in w.arrays && w.arrays[arr].data < w.next
    requires var n, h := NewHeader(form, w.next), w.arrays[arr];
             && n.data == w.next && n.layout.dims == form.dims && n.dtype == form.dtype
             && w1.arrays == w.arrays[w.next := n] && w1.next == w.next + 1 && w1.trapped == w.trapped
             && w1.memory == w.memory[w.next := Block(Filled(n.layout, junk), 0)]
             && w2.arrays == w1.arrays[w.next := IteratedIf(n, Fills(k, n, h))][arr := IteratedIf(h, Fills(k, n, h))]
             && w2.memory.Keys == w1.memory.Keys && w2.next == w1.next && w2.trapped == w1.trapped
             && (forall m :: m in w1.memory && m != w.next ==> w2.memory[m] == w1.memory[m])
             && (forall p :: p in Filled(n.layout, junk) <==> p in Places(n.layout))
             && (if Stores(k, n, h) then Delivered(k, w1, w2, n, h) && w2.memory[w.next].writes == 1
                 else w2.memory == w1.memory)
    ensures w2 == CopiedOut(k, w, arr, form, Fills(k, NewHeader(form, w.next), w.arrays[arr]))
  {
    hide Fills, NewHeader, Iterated, Converted, Gathered, Places, Filled, Delivered, Stores, CopiedOut;
    var n, h := NewHeader(form, w.next), w.arrays[arr];
    var values := Converted(k, h.dtype, form.dtype, Elements(w, h));
    CopiedOutWorld(k, w, arr, form, Fills(k, n, h));
    assert h.data != w.next && Elements(w1, h) == Elements(w, h);
    var items := w2.memory[w.next].items;
    if Stores(k, n, h) {
      DeliveredItems(k, w1, w2, n, h);
      NewItems(form, w.next, items, values);
    } else {
      NothingStored(k, n, h);
      NothingFilled(n.layout, junk, values);
    }
    assert w2.memory == w.memory[w.next := Block(Filled(n.layout, values), if Stores(k, n, h) then 1 else 0)];
  }

  lemma NothingStored(k: Casting, n: Header, h: Header)
    requires !Stores(k, n, h)
    ensures h.Count() == 0
  {
  }

  lemma DeliveredItems(k: Casting, w: World, w': World, n: Header, h: Header)
    requires Delivered(k, w, w', n, h) && n.layout.dims == h.layout.dims
    ensures forall p :: p in w'.memory[n.data].items <==> p in w.memory[n.data].items
    ensures Gathered(w'.memory[n.data].items, Places(n.layout)) == Converted(k, h.dtype, n.dtype, Elements(w, h))
  {
    hide Fits, Converted, Places;
    SameShapeMeets(n.layout.dims, Converted(k, h.dtype, n.dtype, Elements(w, h)));
    forall p ensures p in w'.memory[n.data].items <==> p in w.memory[n.data].items {
      assert p in w'.memory[n.data].items.Keys <==> p in w.memory[n.data].items.Keys;
    }
  }

  lemma NothingFilled(l: Layout, a: seq<Item>, b: seq<Item>)
    requires |a| == |b| == Size(l.dims) == 0
    ensures Filled(l, a) == Filled(l, b)
  {
  }

  /** Flattening into a new array of one axis. */
  lemma FilledFlat(k: Casting, w: World, a: Ref, aligned: bool, junk: seq<Item>)
    requires Valid(w) && a in w.arrays && |junk| == w.arrays[a].Count()
    ensures w.arrays[a].data in w.memory && w.next != a
    ensures var h, form := w.arrays[a], FlatForm(w.arrays[a], aligned);
            var n, w1 := NewHeader(form, w.next), With(Allocated(w, form, junk), a, Iterated(h));
            && n.data in w1.memory && n.Count() == h.Count()
            && CopiedOut(k, w, a, form, true)
               == WithBlock(w1, n.data, Scattered(w1.memory[n.data].items, Places(n.layout),
                                                  Converted(k, h.dtype, n.dtype, Elements(w, h))))
  {
    hide Valid, TrueFlags, Laid, NewHeader, Filled, Iterated, Allocated, Converted, Gathered, Places, Scattered;
    DataThere(w, a);
    NextIsNew(w);
    var h, form := w.arrays[a], FlatForm(w.arrays[a], aligned);
    FlatSize(h.Count());
    NewMemory(w, form, junk);
    NewWriteable(form, w.next);
    NewIsPlain(form, w.next);
    var n := NewHeader(form, w.next);
    FlatAlike(k, w, a, form, Filled(n.layout, junk), With(Allocated(w, form, junk), a, Iterated(h)));
  }

  lemma FlatAlike(k: Casting, w: World, a: Ref, form: Form, found: map<int, Item>, w1: World)
    requires a in w.arrays && Size(form.dims) == w.arrays[a].Count() && |form.dims| == 1
    requires w.arrays[a].data in w.memory && w.next !in w.arrays && w.arrays[a].data < w.next
    requires form.dtype == w.arrays[a].dtype
    requires var n := NewHeader(form, w.next);
             && n.data == w.next && n.layout.dims == form.dims && n.dtype == form.dtype
             && (forall p :: p in found <==> p in Places(n.layout)) && Distinct(Places(n.layout))
             && w1.arrays == w.arrays[w.next := n][a := Iterated(w.arrays[a])]
             && w1.memory == w.memory[w.next := Block(found, 0)] && w1.next == w.next + 1 && w1.trapped == w.trapped
    ensures var h, n := w.arrays[a], NewHeader(form, w.next);
            && n.data in w1.memory
            && CopiedOut(k, w, a, form, true)
               == WithBlock(w1, n.data, Scattered(w1.memory[n.data].items, Places(n.layout),
                                                  Converted(k, h.dtype, n.dtype, Elements(w, h))))
  {
    hide NewHeader, Converted, Gathered, Places, Filled, CopiedOut, Stores, Iterated, Relabels;
    var h, n := w.arrays[a], NewHeader(form, w.next);
    var values, places := Converted(k, h.dtype, form.dtype, Elements(w, h)), Places(n.layout);
    var items := Scattered(found, places, values);
    CopiedOutWorld(k, w, a, form, true);
    OneAxisStays(n, true);
    ScatteredKeys(found, places, values);
    WrittenIsRead(found, places, values);
    hide Scattered;
    NewItems(form, w.next, items, values);
    SameStores(k, n, h);
    hide *;
    assert w.memory[w.next := Block(found, 0)][w.next := Block(items, 1)] == w.memory[w.next := Block(items, 1)];
    WithBlockIs(w1, n.data, items);
  }

  lemma WithBlockIs(w: World, m: Ref, items: map<int, Item>)
    requires m in w.memory
    ensures WithBlock(w, m, items)
            == World(w.arrays, w.memory[m := Block(items, w.memory[m].writes + 1)], w.next, w.trapped)
  {
  }

  lemma SameStores(k: Casting, n: Header, h: Header)
    requires n.dtype == h.dtype
    ensures Stores(k, n, h)
  {
  }
}
