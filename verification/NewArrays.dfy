/**
 New arrays, copies, views and locks (libndarray/src/npy_ctors.c).
 */
module NewArrays {
  import opened Copying
  import opened NdArray
  import opened Shape
  import opened Storage
  import opened WriteBack
  import opened Wrappers

  /** The flags of an array with memory of its own. */
  function AllocFlags(nd: nat, fortran: bool): set<Flag> {
    {Aligned, Writeable, OwnData}
    + if nd > 1 then (if fortran then {Fortran} else {Contiguous})
      else if nd == 1 || fortran then {Contiguous, Fortran}
      else {Contiguous}
  }

  /** The strides that are filled in for new memory. */
  function NewLayout(elsize: ItemSize, dims: seq<nat>, fortran: bool, aligned: bool): Layout {
    Layout(dims, if fortran then FStrides(NonZero(dims), elsize) else CStrides(NonZero(dims), elsize), 0, aligned)
  }

  /** What is asked of a new array; `aligned` is what the alignment test says of it. */
  datatype Form = Form(dtype: DType, dims: seq<nat>, fortran: bool, aligned: bool)

  function NewHeader(form: Form, data: Ref): Header {
    Header(form.dtype, NewLayout(form.dtype.elsize, form.dims, form.fortran, form.aligned), data,
           AllocFlags(|form.dims|, form.fortran), None, 1)
  }

  /** New memory that holds the elements. */
  function Filled(l: Layout, items: seq<Item>): map<int, Item>
    requires |items| == Size(l.dims)
  {
    Scattered(map[], Places(l), items)
  }

  /** A new header. */
  function Added(w: World, h: Header, memory: map<Ref, Block>): World {
    World(w.arrays[w.next := h], memory, w.next + 1, w.trapped)
  }

  function Allocated(w: World, form: Form, items: seq<Item>): World
    requires |items| == Size(form.dims)
  {
    var h := NewHeader(form, w.next);
    Added(w, h, w.memory[w.next := Block(Filled(h.layout, items), 0)])
  }

  /** With one axis or none both orders have the same strides. */
  lemma SameStrides(dims: seq<int>, elsize: int)
    requires |dims| <= 1
    ensures CStrides(NonZero(dims), elsize) == FStrides(NonZero(dims), elsize)
  {
    var nz := NonZero(dims);
    if |nz| == 1 {
      assert nz[1..] == [];
    }
  }

  /** New arrays have true flags: both order flags on one axis, and that of their order
      otherwise, except that an array without axes is row-major in any case. They have the
      elements they were given. */
  lemma NewIsSeated(form: Form, data: Ref, items: seq<Item>)
    requires |items| == Size(form.dims)
    ensures var h := NewHeader(form, data);
            TrueFlags(h) && Laid(h.layout, Filled(h.layout, items))
            && Gathered(Filled(h.layout, items), Places(h.layout)) == items
            && h.flags * {Aligned, Writeable, OwnData, UpdateIfCopy} == {Aligned, Writeable, OwnData}
            && (Contiguous in h.flags <==> |form.dims| <= 1 || !form.fortran)
            && (Fortran in h.flags <==> |form.dims| == 1 || form.fortran)
            && (CStrides(NonZero(form.dims), form.dtype.elsize) == h.layout.strides || form.fortran)
            && (FStrides(NonZero(form.dims), form.dtype.elsize) == h.layout.strides || !form.fortran)
            && h.layout.dims == form.dims && h.layout.aligned == form.aligned
  {
    hide CContiguous, FContiguous, Places, Scattered;
    var dims, elsize := form.dims, form.dtype.elsize;
    FilledIsContiguous(dims, elsize);
    if |dims| <= 1 {
      SameStrides(dims, elsize);
    }
    var l := NewLayout(elsize, dims, form.fortran, form.aligned);
    ContiguousDistinct(l, elsize);
    ScatteredKeys(map[], Places(l), items);
    WrittenIsRead(map[], Places(l), items);
  }

  /** `ret` waits to be copied back into `arr`, which is locked. */
  function Attached(w: World, ret: Ref, arr: Ref): World
    requires ret in w.arrays && arr in w.arrays
  {
    var h, b := w.arrays[ret], w.arrays[arr];
    w.(arrays := w.arrays[ret := h.(flags := h.flags + {UpdateIfCopy}, base := Some(arr))]
                         [arr := b.(flags := b.flags - {Writeable}, refs := b.refs + 1)])
  }

  /** What recomputing the order and alignment flags gives: an array of several
      axes that passes both tests is C-contiguous. */
  ghost function TestedFlags(elsize: ItemSize, l: Layout): set<Flag> {
    (if COrder(elsize, l) then {Contiguous} else {})
    + (if FOrder(elsize, l) && !(COrder(elsize, l) && |l.dims| > 1) then {Fortran} else {})
    + (if l.aligned then {Aligned} else {})
  }

  ghost function ViewHeader(b: Header, layout: Layout, base: Ref): Header {
    Header(b.dtype, layout, b.data, b.flags * {Writeable} + TestedFlags(b.dtype.elsize, layout), Some(base), 1)
  }

  /** `NpyArray_NewView`, laid out by `layout` in the memory of `arr`. */
  ghost function Viewed(w: World, arr: Ref, layout: Layout): World
    requires arr in w.arrays && w.next != arr
  {
    var a := w.arrays[arr];
    With(Added(w, ViewHeader(a, layout, arr), w.memory), arr, a.(refs := a.refs + 1))
  }

  /** The elements of the view are elements of the memory, each shown once. */
  ghost predicate Viewable(w: World, arr: Ref, layout: Layout) {
    arr in w.arrays && w.arrays[arr].data in w.memory && Laid(layout, w.memory[w.arrays[arr].data].items)
  }

  lemma NextIsNew(w: World)
    requires Valid(w)
    ensures w.next !in w.arrays
    ensures forall x :: x in w.arrays ==> x < w.next && w.arrays[x].data < w.next && w.arrays[x].base != Some(w.next)
  {
    hide Valid, Seated, Children;
    forall x | x in w.arrays ensures Linked(w, x) {
      DataThere(w, x);
    }
  }

  lemma AddedChild(w: World, x: Ref, c: Ref)
    requires x in w.arrays && Sound(w, x)
    ensures |Children(w, x) + {c}| <= w.arrays[x].refs + 1
  {
  }

  lemma NewHolds(w: World, h: Header, memory: map<Ref, Block>, c: Ref, x: Ref)
    requires w.next !in w.arrays && h.base.None?
    ensures Holds(Added(w, h, memory), c, x) <==> Holds(w, c, x)
  {
  }

  lemma NewChildren(w: World, h: Header, memory: map<Ref, Block>, x: Ref)
    requires w.next !in w.arrays && h.base.None? && forall a :: a in w.arrays ==> w.arrays[a].base != Some(w.next)
    ensures Children(Added(w, h, memory), x) == if x == w.next then {} else Children(w, x)
  {
  }

  /** A new array with memory of its own. */
  lemma NewKeeps(w: World, form: Form, items: seq<Item>)
    requires Valid(w) && |items| == Size(form.dims)
    ensures var w' := Allocated(w, form, items);
            Valid(w') && Children(w', w.next) == {} && Elements(w', w'.arrays[w.next]) == items
  {
    hide *;
    NewIsPlain(form, w.next);
    NewIsSeated(form, w.next, items);
    AllocatedIs(w, form, items);
    var h := NewHeader(form, w.next);
    AddedKeeps(w, h, Block(Filled(h.layout, items), 0));
  }

  lemma AllocatedIs(w: World, form: Form, items: seq<Item>)
    requires |items| == Size(form.dims)
    ensures var h := NewHeader(form, w.next);
            var block := Block(Filled(h.layout, items), 0);
            && Allocated(w, form, items) == Added(w, h, w.memory[w.next := block])
            && Allocated(w, form, items).arrays[w.next] == h
            && Elements(Allocated(w, form, items), h)
               == Gathered(block.items, Places(h.layout))
  {
    hide NewLayout, AllocFlags, Filled, Places, Gathered;
  }

  lemma NewIsPlain(form: Form, data: Ref)
    ensures var h := NewHeader(form, data);
            && h.dtype == form.dtype && h.data == data && h.base.None? && h.refs == 1
            && OwnData in h.flags && UpdateIfCopy !in h.flags
  {
  }

  lemma AddedKeeps(w: World, h: Header, block: Block)
    requires Valid(w) && h.data == w.next && h.base.None? && h.refs == 1
    requires OwnData in h.flags && UpdateIfCopy !in h.flags
    requires TrueFlags(h) && Laid(h.layout, block.items)
    ensures var w' := Added(w, h, w.memory[w.next := block]);
            Valid(w') && Children(w', w.next) == {}
  {
    hide TrueFlags, Laid, Children, Holds, Sound;
    var memory := w.memory[w.next := block];
    var w' := Added(w, h, memory);
    NextIsNew(w);
    ValidFacts(w);
    NewChildren(w, h, memory, w.next);
    NewSound(w', w.next);
    forall x | x in w.arrays ensures Sound(w', x) {
      AddedOld(w, h, memory, x);
    }
  }

  lemma NewSound(w: World, a: Ref)
    requires a in w.arrays && a < w.next && Children(w, a) == {}
    requires var h := w.arrays[a];
             && h.data == a && h.base.None? && h.refs == 1 && Seated(w, h)
             && OwnData in h.flags && UpdateIfCopy !in h.flags
    ensures Sound(w, a)
  {
  }

  lemma AddedOld(w: World, h: Header, memory: map<Ref, Block>, x: Ref)
    requires Valid(w) && x in w.arrays && h.base.None?
    requires forall m :: m in w.memory && m < w.next ==> m in memory && memory[m] == w.memory[m]
    ensures Sound(Added(w, h, memory), x)
  {
    hide TrueFlags, Laid, Children, Holds, Locked;
    var w' := Added(w, h, memory);
    NextIsNew(w);
    assert Sound(w, x);
    NewChildren(w, h, memory, x);
    forall b | Holds(w, x, b)
      ensures b in w'.arrays && Writeable !in w'.arrays[b].flags && forall c :: Holds(w', c, b) ==> c == x
    {
      HolderLocks(w, x, b);
      LockedFacts(w, x, b);
      forall c | Holds(w', c, b) ensures c == x {
        NewHolds(w, h, memory, c, b);
      }
    }
    hide Sound, Linked, Valid;
    SoundMoved(w, w', x);
  }

  /** A free base for a copy with memory of its own. */
  ghost predicate Attachable(w: World, ret: Ref, arr: Ref) {
    && ret in w.arrays && arr in w.arrays && arr < ret
    && w.arrays[ret].base.None? && Children(w, ret) == {}
    && w.arrays[ret].Count() == w.arrays[arr].Count() && Unclaimed(w, arr)
  }

  lemma AttachedChildren(w: World, ret: Ref, arr: Ref, x: Ref)
    requires ret in w.arrays && arr in w.arrays && arr < ret && w.arrays[ret].base.None?
    ensures Children(Attached(w, ret, arr), x) == Children(w, x) + if x == arr then {ret} else {}
  {
  }

  lemma AttachedHolds(w: World, ret: Ref, arr: Ref, c: Ref, x: Ref)
    requires ret in w.arrays && arr in w.arrays && arr < ret && w.arrays[ret].base.None?
    requires UpdateIfCopy !in w.arrays[ret].flags
    ensures Holds(Attached(w, ret, arr), c, x) <==> Holds(w, c, x) || (c == ret && x == arr)
  {
  }

  lemma AttachedKeeps(w: World, ret: Ref, arr: Ref)
    requires Valid(w) && Attachable(w, ret, arr)
    ensures Valid(Attached(w, ret, arr)) && Children(Attached(w, ret, arr), ret) == {}
  {
    hide Children, Sound, TrueFlags, Laid;
    var w' := Attached(w, ret, arr);
    ValidFacts(w);
    AttachedNew(w, ret, arr);
    forall x | x in w'.arrays ensures Sound(w', x) {
      if x != ret {
        AttachedOld(w, ret, arr, x);
      }
    }
  }

  lemma AttachedNew(w: World, ret: Ref, arr: Ref)
    requires Valid(w) && Attachable(w, ret, arr)
    ensures Sound(Attached(w, ret, arr), ret) && Children(Attached(w, ret, arr), ret) == {}
  {
    hide TrueFlags, Laid, Valid, Children, Holds;
    var w' := Attached(w, ret, arr);
    AttachedChildren(w, ret, arr, ret);
    DataThere(w, ret);
    DataThere(w, arr);
    StaysTrue(w.arrays[ret], w'.arrays[ret]);
    forall c | Holds(w', c, arr) ensures c == ret {
      AttachedHolds(w, ret, arr, c, arr);
    }
    assert Linked(w', ret);
    assert Locked(w', ret, arr);
  }

  lemma AttachedSame(w: World, ret: Ref, arr: Ref, x: Ref)
    requires ret in w.arrays && arr in w.arrays && ret != arr && x in w.arrays && x != ret
    ensures var w' := Attached(w, ret, arr);
            && x in w'.arrays && SameHeader(w.arrays[x], w'.arrays[x]) && w'.memory == w.memory && w'.next == w.next
            && w'.arrays[x].refs == w.arrays[x].refs + (if x == arr then 1 else 0)
            && (x != arr ==> w'.arrays[x].flags == w.arrays[x].flags)
  {
  }

  lemma AttachedOld(w: World, ret: Ref, arr: Ref, x: Ref)
    requires Valid(w) && Attachable(w, ret, arr) && x in w.arrays && x != ret
    ensures Sound(Attached(w, ret, arr), x)
  {
    hide Children, Holds, TrueFlags, Laid, Attached, Locked, Seated;
    var w' := Attached(w, ret, arr);
    AttachedChildren(w, ret, arr, x);
    assert Sound(w, x);
    AddedChild(w, x, ret);
    if w.arrays[x].base.Some? {
      IsChild(w, x);
      AttachedSame(w, ret, arr, w.arrays[x].base.value);
    }
    AttachedSame(w, ret, arr, x);
    forall b | Holds(w, x, b)
      ensures b in w'.arrays && Writeable !in w'.arrays[b].flags && forall c :: Holds(w', c, b) ==> c == x
    {
      AttachedLocks(w, ret, arr, x, b);
    }
    hide Sound, Linked, Valid, Attachable;
    SoundMoved(w, w', x);
  }

  lemma AttachedLocks(w: World, ret: Ref, arr: Ref, x: Ref, b: Ref)
    requires Valid(w) && Attachable(w, ret, arr) && Holds(w, x, b) && x != ret
    ensures var w' := Attached(w, ret, arr);
            b in w'.arrays && Writeable !in w'.arrays[b].flags && forall c :: Holds(w', c, b) ==> c == x
  {
    hide Valid, Children, Holds, Attached;
    HolderSound(w, x, b);
    HolderBase(w, x, b);
    RootHolds(w, ret);
    var w' := Attached(w, ret, arr);
    AttachedSame(w, ret, arr, if b == ret then arr else b);
    HolderIsChild(w, x, b);
    forall c | Holds(w', c, b) ensures c == x {
      AttachedHolds(w, ret, arr, c, b);
    }
  }

  lemma RootHolds(w: World, a: Ref)
    requires Valid(w) && a in w.arrays && w.arrays[a].base.None?
    ensures UpdateIfCopy !in w.arrays[a].flags
  {
    DataThere(w, a);
  }

  lemma HolderIsChild(w: World, x: Ref, b: Ref)
    requires Holds(w, x, b)
    ensures x in Children(w, b)
  {
  }

  lemma ViewedHolds(w: World, arr: Ref, layout: Layout, c: Ref, x: Ref)
    requires arr in w.arrays && w.next !in w.arrays
    ensures Holds(Viewed(w, arr, layout), c, x) <==> Holds(w, c, x)
  {
  }

  lemma ViewedChildren(w: World, arr: Ref, layout: Layout, x: Ref)
    requires arr in w.arrays && w.next !in w.arrays
    ensures Children(Viewed(w, arr, layout), x) == Children(w, x) + if x == arr then {w.next} else {}
  {
    hide TestedFlags;
  }

  /** The flags of a view are true: both orders are tested, beyond one axis row-major goes
      first, and only the writeable flag is that of the base. */
  lemma ViewIsTrue(b: Header, layout: Layout, base: Ref)
    ensures TrueFlags(ViewHeader(b, layout, base))
    ensures var f, e := ViewHeader(b, layout, base).flags, b.dtype.elsize;
            && (Contiguous in f <==> COrder(e, layout))
            && (Fortran in f <==> FOrder(e, layout) && (|layout.dims| > 1 ==> !COrder(e, layout)))
            && (Aligned in f <==> layout.aligned) && (Writeable in f <==> Writeable in b.flags)
            && OwnData !in f && UpdateIfCopy !in f
  {
  }

  lemma ViewedKeeps(w: World, arr: Ref, layout: Layout)
    requires Valid(w) && Viewable(w, arr, layout)
    ensures w.next !in w.arrays
    ensures Valid(Viewed(w, arr, layout)) && Children(Viewed(w, arr, layout), w.next) == {}
  {
    hide Sound, Children, TrueFlags, Laid, TestedFlags;
    NextIsNew(w);
    ValidFacts(w);
    ViewedNew(w, arr, layout);
    forall x | x in w.arrays ensures Sound(Viewed(w, arr, layout), x) {
      ViewedOld(w, arr, layout, x);
    }
  }

  lemma ViewedNew(w: World, arr: Ref, layout: Layout)
    requires Valid(w) && Viewable(w, arr, layout)
    ensures w.next != arr && Sound(Viewed(w, arr, layout), w.next) && Children(Viewed(w, arr, layout), w.next) == {}
  {
    hide TrueFlags, Laid, Valid, Children, TestedFlags;
    NextIsNew(w);
    ViewedChildren(w, arr, layout, w.next);
    ViewIsTrue(w.arrays[arr], layout, arr);
    ViewIsPlain(w.arrays[arr], layout, arr);
    DataThere(w, arr);
    NextIsRoot(w);
    hide ViewHeader;
    assert Linked(Viewed(w, arr, layout), w.next);
  }

  lemma ViewIsPlain(b: Header, layout: Layout, base: Ref)
    ensures var h := ViewHeader(b, layout, base);
            && OwnData !in h.flags && UpdateIfCopy !in h.flags && h.refs == 1 && h.base == Some(base)
            && h.data == b.data && h.layout == layout && h.dtype == b.dtype
  {
  }

  lemma NextIsRoot(w: World)
    requires Valid(w)
    ensures Children(w, w.next) == {}
  {
    hide Valid;
    NextIsNew(w);
  }

  lemma ViewedOld(w: World, arr: Ref, layout: Layout, x: Ref)
    requires Valid(w) && arr in w.arrays && w.next !in w.arrays && x in w.arrays
    ensures Sound(Viewed(w, arr, layout), x)
  {
    hide Children, Holds, TrueFlags, Laid, TestedFlags;
    var w' := Viewed(w, arr, layout);
    ViewedChildren(w, arr, layout, x);
    assert Sound(w, x);
    AddedChild(w, x, w.next);
    if w.arrays[x].base.Some? {
      SoundFacts(w, x);
    }
    forall b | Holds(w, x, b)
      ensures b in w'.arrays && Writeable !in w'.arrays[b].flags && forall c :: Holds(w', c, b) ==> c == x
    {
      HolderLocks(w, x, b);
      forall c | Holds(w', c, b) ensures c == x {
        ViewedHolds(w, arr, layout, c, b);
      }
    }
    hide Sound, Linked, Locked, Valid, Viewed;
    ViewedSame(w, arr, layout, x);
    if w.arrays[x].base.Some? {
      ViewedSame(w, arr, layout, w.arrays[x].base.value);
    }
    ViewedSame(w, arr, layout, arr);
    SoundMoved(w, w', x);
  }

  lemma ViewedSame(w: World, arr: Ref, layout: Layout, x: Ref)
    requires arr in w.arrays && w.next !in w.arrays && x in w.arrays
    ensures var w' := Viewed(w, arr, layout);
            && x in w'.arrays && SameHeader(w.arrays[x], w'.arrays[x]) && w'.memory == w.memory && w'.next >= w.next
            && w'.arrays[x].refs == w.arrays[x].refs + (if x == arr then 1 else 0)
            && w'.arrays[x].flags == w.arrays[x].flags
  {
  }

  /** A copy of `arr`, filled by one write unless there is nothing to cast; `walk` says
      that iterators are made over both. */
  ghost function CopiedOut(k: Casting, w: World, arr: Ref, form: Form, walk: bool): World
    requires arr in w.arrays && w.arrays[arr].data in w.memory && Size(form.dims) == w.arrays[arr].Count()
  {
    var h, n := w.arrays[arr], NewHeader(form, w.next);
    var items := Filled(n.layout, Converted(k, h.dtype, form.dtype, Elements(w, h)));
    var w1 := Added(w, n, w.memory[w.next := Block(items, if Stores(k, n, h) then 1 else 0)]);
    With(With(w1, w.next, IteratedIf(n, walk)), arr, IteratedIf(h, walk))
  }

  lemma CopiedOutIs(k: Casting, w: World, arr: Ref, form: Form, walk: bool)
    requires arr in w.arrays && w.arrays[arr].data in w.memory && Size(form.dims) == w.arrays[arr].Count()
    requires w.next !in w.arrays && w.arrays[arr].data < w.next
    ensures var w0, c, h := CopiedOut(k, w, arr, form, walk), w.next, w.arrays[arr];
            var n := NewHeader(form, c);
            && w0.arrays == w.arrays[c := IteratedIf(n, walk)][arr := IteratedIf(h, walk)]
            && w0.memory.Keys == w.memory.Keys + {c} && w0.next == c + 1 && w0.trapped == w.trapped
            && (forall m :: m in w.memory && m != c ==> w0.memory[m] == w.memory[m])
            && n.data == c && Elements(w0, n) == Converted(k, h.dtype, form.dtype, Elements(w, h))
  {
    hide Filled, NewLayout, AllocFlags, Iterated, Places, Gathered, Converted, Equiv;
    var h := w.arrays[arr];
    NewIsSeated(form, w.next, Converted(k, h.dtype, form.dtype, Elements(w, h)));
  }

  lemma CopiedOutKeeps(k: Casting, w: World, arr: Ref, form: Form, walk: bool)
    requires Valid(w) && arr in w.arrays && Size(form.dims) == w.arrays[arr].Count()
    ensures w.arrays[arr].data in w.memory && w.next !in w.arrays && w.arrays[arr].data < w.next && arr < w.next
    ensures var w' := CopiedOut(k, w, arr, form, walk); Valid(w') && Children(w', w.next) == {}
  {
    hide Valid, Children, Iterated, SameLinks, NewHeader, Filled, TrueFlags, Laid, Stores;
    DataThere(w, arr);
    NextIsNew(w);
    var h, c, n := w.arrays[arr], w.next, NewHeader(form, w.next);
    var values := Converted(k, h.dtype, form.dtype, Elements(w, h));
    NewIsPlain(form, c);
    NewIsSeated(form, c, values);
    var block := Block(Filled(n.layout, values), if Stores(k, n, h) then 1 else 0);
    AddedKeeps(w, n, block);
    WalkedBoth(Added(w, n, w.memory[c := block]), c, arr, walk);
  }

  lemma WalkedBoth(w: World, c: Ref, arr: Ref, walk: bool)
    requires Valid(w) && c in w.arrays && arr in w.arrays && c != arr && Children(w, c) == {}
    ensures var w' := With(With(w, c, IteratedIf(w.arrays[c], walk)), arr, IteratedIf(w.arrays[arr], walk));
            Valid(w') && Children(w', c) == {}
  {
    hide Valid, Children, Iterated, SameLinks;
    var w1 := With(w, c, Iterated(w.arrays[c]));
    if walk {
      IterateKeeps(w, c);
      IterateKeeps(w1, arr);
      SameChildren(w, w1, c);
      SameChildren(w1, With(w1, arr, Iterated(w.arrays[arr])), c);
    } else {
      assert With(With(w, c, w.arrays[c]), arr, w.arrays[arr]).arrays == w.arrays;
    }
  }

  /** A copy of `arr` that waits to be copied back. */
  ghost function LockedOut(k: Casting, w: World, arr: Ref, form: Form, walk: bool): World
    requires arr in w.arrays && w.arrays[arr].data in w.memory && Size(form.dims) == w.arrays[arr].Count()
  {
    Attached(CopiedOut(k, w, arr, form, walk), w.next, arr)
  }

  /** Taking a pending copy keeps the world valid exactly if nobody holds one. */
  lemma LockedOutKeeps(k: Casting, w: World, arr: Ref, form: Form, walk: bool)
    requires Valid(w) && arr in w.arrays && Size(form.dims) == w.arrays[arr].Count()
    ensures w.arrays[arr].data in w.memory && w.next !in w.arrays
    ensures Valid(LockedOut(k, w, arr, form, walk)) <==> Unclaimed(w, arr)
    ensures Unclaimed(w, arr) ==> Children(LockedOut(k, w, arr, form, walk), w.next) == {}
  {
    hide Valid, Children, CopiedOut, NewHeader, Iterated;
    CopiedOutKeeps(k, w, arr, form, walk);
    CopiedOutIs(k, w, arr, form, walk);
    NewIsPlain(form, w.next);
    var n := NewHeader(form, w.next);
    IteratedPlain(n);
    IteratedPlain(w.arrays[arr]);
    var w1 := CopiedOut(k, w, arr, form, walk);
    forall c, x ensures Holds(w1, c, x) <==> Holds(w, c, x) {
      CopiedOutHolds(k, w, arr, form, walk, c, x);
    }
    if Unclaimed(w, arr) {
      AttachedKeeps(w1, w.next, arr);
    } else {
      var c :| Holds(w, c, arr);
      TwoPending(w1, w.next, arr, c);
    }
  }

  lemma CopiedOutHolds(k: Casting, w: World, arr: Ref, form: Form, walk: bool, c: Ref, x: Ref)
    requires arr in w.arrays && w.arrays[arr].data in w.memory && Size(form.dims) == w.arrays[arr].Count()
    requires w.next !in w.arrays && w.arrays[arr].data < w.next
    ensures Holds(CopiedOut(k, w, arr, form, walk), c, x) <==> Holds(w, c, x)
  {
    hide CopiedOut, NewHeader, Iterated;
    CopiedOutIs(k, w, arr, form, walk);
    NewIsPlain(form, w.next);
    IteratedPlain(NewHeader(form, w.next));
    IteratedPlain(w.arrays[arr]);
  }

  lemma TwoPending(w: World, ret: Ref, arr: Ref, c: Ref)
    requires ret in w.arrays && arr in w.arrays && arr < ret && c != ret && Holds(w, c, arr) && w.arrays[ret].base.None?
    ensures !Valid(Attached(w, ret, arr))
  {
    hide Valid;
    var w' := Attached(w, ret, arr);
    assert Holds(w', ret, arr) && Holds(w', c, arr);
    if Valid(w') {
      HolderSound(w', ret, arr);
    }
  }
}
