/**
 Runs of the copy-back protocol: what holds in every state that can be reached
 (libndarray/src/npy_ctors.c, npy_arrayobject.c, npy_shape.c, npy_mapping.c).
 */
module WriteBackRuns {
  import opened Assignments
  import opened Copying
  import opened FlatViews
  import opened ForcedUpdates
  import opened Indexing
  import opened IndexViews
  import opened Moves
  import opened NdArray
  import opened NewArrays
  import opened Releasing
  import opened Requests
  import opened Shape
  import opened Storage
  import opened Subscripts
  import opened WriteBack
  import opened Wrappers
  import SizeGuard

  datatype Op = New(form: Form, items: seq<Item>)
              | Take(arr: Ref, wanted: Option<DType>, want: set<Flag>, aligned: bool)
              | View(arr: Ref, layout: Layout)
              | Subscript(arr: Ref, indexes: seq<Index>, aligned: bool)
              | Flat(arr: Ref, aligned: bool)
              | Force(arr: Ref)
              | Keep(arr: Ref)
              | Drop(arr: Ref)
              | Abandoning(arr: Ref)
              | Assign(dest: Ref, src: Ref)
              | AssignAt(arr: Ref, indexes: seq<Index>, src: Ref, aligned: bool)

  /** What the source demands of its callers: references in use, elements that fit,
      views inside the memory, no more axes than arrays may have, no copying (other
      than by assignment) between overlapping arrays, and no giving up of references
      that only the children own. */
  ghost predicate Owed(w: World, op: Op) {
    match op
    case New(form, items) => |items| == Size(form.dims) && |form.dims| <= SizeGuard.MAXDIMS
    case Take(arr, wanted, want, aligned) => arr in w.arrays
    case View(arr, layout) => Viewable(w, arr, layout) && |layout.dims| <= SizeGuard.MAXDIMS
    case Subscript(arr, indexes, aligned) => arr in w.arrays && Plain(indexes) && StepsNonZero(indexes)
    case Flat(arr, aligned) => arr in w.arrays
    case Force(arr) => arr in w.arrays
    case Keep(arr) => arr in w.arrays
    case Drop(arr) => arr in w.arrays && w.arrays[arr].refs > |Children(w, arr)|
    case Abandoning(arr) => arr in w.arrays && w.arrays[arr].refs > |Children(w, arr)|
    case Assign(dest, src) => dest in w.arrays && src in w.arrays && Apart(w.arrays[dest], w.arrays[src])
    case AssignAt(arr, indexes, src, aligned) =>
      arr in w.arrays && src in w.arrays && Plain(indexes) && StepsNonZero(indexes)
  }

  /** One step. */
  ghost function Step(k: Casting, w: World, op: Op): World
    requires Valid(w) && Owed(w, op)
  {
    hide Valid, Laid, Apart, Plain, StepsNonZero, Size, Children;
    match op
    case New(form, items) => Allocated(w, form, items)
    case Take(arr, wanted, want, aligned) => Taken(k, w, arr, wanted, want, aligned)
    case View(arr, layout) => NewView(w, arr, layout)
    case Subscript(arr, indexes, aligned) => Subscripted(w, arr, indexes, aligned)
    case Flat(arr, aligned) => Flattened(k, w, arr, aligned)
    case Force(arr) => ForceUpdate(k, w, arr)
    case Keep(arr) => WithRefs(w, arr, w.arrays[arr].refs + 1)
    case Drop(arr) => Decref(k, w, arr)
    case Abandoning(arr) => Abandon(k, w, arr)
    case Assign(dest, src) => Assigning(k, w, dest, src)
    case AssignAt(arr, indexes, src, aligned) => SubscriptAssign(k, w, arr, indexes, src, aligned)
  }

  ghost function NewView(w: World, arr: Ref, layout: Layout): World
    requires Valid(w) && arr in w.arrays
  {
    NextIsNew(w);
    Viewed(w, arr, layout)
  }

  ghost function Flattened(k: Casting, w: World, arr: Ref, aligned: bool): World
    requires Valid(w) && arr in w.arrays
  {
    DataThere(w, arr);
    NextIsNew(w);
    FlatView(k, w, arr, aligned)
  }

  ghost function Assigning(k: Casting, w: World, dest: Ref, src: Ref): World
    requires Valid(w) && dest in w.arrays && src in w.arrays
  {
    DataThere(w, dest);
    DataThere(w, src);
    CopyAnyInto(k, w, dest, src)
  }

  ghost function Taken(k: Casting, w: World, arr: Ref, wanted: Option<DType>, want: set<Flag>, aligned: bool): World
    requires Valid(w) && arr in w.arrays
  {
    DataThere(w, arr);
    NextIsNew(w);
    var m := FromArray(k, w, arr, wanted, want, aligned);
    if m.Made? then m.world else w
  }

  ghost function Subscripted(w: World, arr: Ref, indexes: seq<Index>, aligned: bool): World
    requires Valid(w) && arr in w.arrays && Plain(indexes) && StepsNonZero(indexes)
  {
    hide Accepts;
    NextIsNew(w);
    if Accepts(w.arrays[arr], indexes) then
      AcceptsBinds(w.arrays[arr], indexes);
      Viewed(w, arr, IndexLayout(w.arrays[arr], indexes, aligned))
    else w
  }

  /** The one unsafe step: a flat view that copies while another copy is pending. */
  ghost predicate Safe(w: World, op: Op) {
    op.Flat? && op.arr in w.arrays && Contiguous !in w.arrays[op.arr].flags ==> Unclaimed(w, op.arr)
  }

  /** A step keeps the world valid exactly if it is safe. */
  lemma StepKeeps(k: Casting, w: World, op: Op)
    requires Valid(w) && Owed(w, op)
    ensures Valid(Step(k, w, op)) <==> Safe(w, op)
  {
    hide Valid, Children, ForceUpdate, Decref, Abandon, Viewed, FlatView, FromArray, SubscriptAssign, Subscripted;
    hide CopyAnyInto, Plain, StepsNonZero, Apart, Viewable, Unclaimed, Size, Allocated, TrueFlags, Laid;
    match op
    case New(form, items) => NewKeeps(w, form, items);
    case Take(arr, wanted, want, aligned) => FromArrayKeeps(k, w, arr, wanted, want, aligned);
    case View(arr, layout) => ViewedKeeps(w, arr, layout);
    case Subscript(arr, indexes, aligned) => SubscriptKeeps(w, arr, indexes, aligned);
    case Flat(arr, aligned) => FlatViewKeeps(k, w, arr, aligned);
    case Force(arr) => ForceKeeps(k, w, arr);
    case Keep(arr) => RaiseKeeps(w, arr);
    case Drop(arr) => DecrefSettles(k, w, arr);
    case Abandoning(arr) => AbandonKeeps(k, w, arr);
    case Assign(dest, src) =>
      DataThere(w, dest);
      DataThere(w, src);
      CopyKeeps(k, w, dest, src);
    case AssignAt(arr, indexes, src, aligned) => AssignSelects(k, w, arr, indexes, src, aligned);
  }

  lemma SubscriptKeeps(w: World, arr: Ref, indexes: seq<Index>, aligned: bool)
    requires Valid(w) && arr in w.arrays && Plain(indexes) && StepsNonZero(indexes)
    ensures Valid(Subscripted(w, arr, indexes, aligned))
  {
    hide Valid, Plain, StepsNonZero, Binds, Accepts, IndexLayout, Viewable;
    if Accepts(w.arrays[arr], indexes) {
      AcceptsBinds(w.arrays[arr], indexes);
      IndexedView(w, arr, indexes, aligned);
      ViewedKeeps(w, arr, IndexLayout(w.arrays[arr], indexes, aligned));
    }
  }

  lemma AbandonKeeps(k: Casting, w: World, a: Ref)
    requires Valid(w) && a in w.arrays && w.arrays[a].refs > |Children(w, a)|
    ensures Valid(Abandon(k, w, a))
  {
    hide Valid, Children;
    if w.arrays[a].Pending() {
      AbandonSettles(k, w, a);
    } else {
      DecrefSettles(k, w, a);
    }
  }

  lemma ForceKeeps(k: Casting, w: World, a: Ref)
    requires Valid(w) && a in w.arrays
    ensures Valid(ForceUpdate(k, w, a))
  {
    hide Valid;
    if w.arrays[a].Pending() {
      ForceSettles(k, w, a);
    }
  }

  // ----- Every reachable state

  /** A state after `n` safe steps. A null pointer ends the run. */
  ghost predicate Reachable(k: Casting, w: World, n: nat)
    decreases n
  {
    if n == 0 then w == NOTHING
    else exists w0, op :: Reachable(k, w0, n - 1) && StepsTo(k, w0, op, w)
  }

  ghost predicate StepsTo(k: Casting, w0: World, op: Op, w: World) {
    Valid(w0) && !w0.trapped && Owed(w0, op) && Safe(w0, op) && w == Step(k, w0, op)
  }

  lemma NothingReached(k: Casting)
    ensures Reachable(k, NOTHING, 0) && Valid(NOTHING)
  {
  }

  /** The last step of a run. */
  lemma LastStep(k: Casting, w: World, n: nat) returns (w0: World, op: Op)
    requires Reachable(k, w, n) && n > 0
    ensures Reachable(k, w0, n - 1) && StepsTo(k, w0, op, w)
  {
    hide StepsTo;
    w0, op :| Reachable(k, w0, n - 1) && StepsTo(k, w0, op, w);
  }

  lemma {:induction false} ReachedIsValid(k: Casting, w: World, n: nat)
    requires Reachable(k, w, n)
    ensures Valid(w)
    decreases n
  {
    hide Valid, Step, Safe, Owed;
    if n == 0 {
      NothingReached(k);
    } else {
      var w0, op := LastStep(k, w, n);
      hide Reachable;
      ReachedIsValid(k, w0, n - 1);
      StepKeeps(k, w0, op);
    }
  }

  /** Which copies write the memory of the locked array `b`: those into another array
      that shares it and is writeable, made before the lock. */
  ghost predicate LockProtects(k: Casting, w: World, b: Ref)
    requires b in w.arrays
  {
    forall d, s :: d in w.arrays && s in w.arrays ==> LockProtectsFrom(k, w, b, d, s)
  }

  ghost predicate LockProtectsFrom(k: Casting, w: World, b: Ref, d: Ref, s: Ref)
    requires b in w.arrays && d in w.arrays && s in w.arrays
  {
    && w.arrays[b].data in w.memory && w.arrays[d].data in w.memory && w.arrays[s].data in w.memory
    && var w', m, g, h := CopyAnyInto(k, w, d, s), w.arrays[b].data, w.arrays[d], w.arrays[s];
       && m in w'.memory
       && (w'.memory[m] != w.memory[m]
           <==> g.data == m && Writeable in g.flags && Stores(k, g, h) && g.Count() == h.Count() && !Traps(k, g, h))
       && (d == b ==> w' == w)
  }

  /** In every state that can be reached, an array that waits to be copied back has
      its base locked, is the only one to wait for it and has memory of its own; and
      a copy writes the base's memory only through another writeable array. */
  lemma ReachedLocks(k: Casting, w: World, n: nat)
    requires Reachable(k, w, n)
    ensures Valid(w)
    ensures forall c, b :: Holds(w, c, b) ==>
              && b in w.arrays && Writeable !in w.arrays[b].flags && w.arrays[b].refs > 0
              && (forall d :: Holds(w, d, b) ==> d == c)
              && w.arrays[c].data != w.arrays[b].data
              && LockProtects(k, w, b)
  {
    ReachedIsValid(k, w, n);
    hide Reachable, Valid, LockProtectsFrom;
    ValidFacts(w);
    forall c, b | Holds(w, c, b) ensures Locked(w, c, b) {
      HolderSound(w, c, b);
    }
    forall c, b, d, s | Holds(w, c, b) && d in w.arrays && s in w.arrays
      ensures b in w.arrays && LockProtectsFrom(k, w, b, d, s)
    {
      LockedFrom(k, w, c, b, d, s);
    }
  }

  lemma LockedFrom(k: Casting, w: World, c: Ref, b: Ref, d: Ref, s: Ref)
    requires Valid(w) && Holds(w, c, b) && d in w.arrays && s in w.arrays
    ensures b in w.arrays && LockProtectsFrom(k, w, b, d, s)
  {
    hide Valid, CopyAnyInto, Stores, Traps;
    LockHolds(k, w, c, b, d, s);
  }

  ghost predicate MemoryHolds(w: World, a: Ref)
    requires a in w.arrays
  {
    var h := w.arrays[a];
    && h.data in w.memory && Laid(h.layout, w.memory[h.data].items) && TrueFlags(h)
    && h.data in w.arrays && OwnData in w.arrays[h.data].flags && w.arrays[h.data].refs > 0
  }

  lemma ValidMemory(w: World, a: Ref)
    requires Valid(w) && a in w.arrays
    ensures MemoryHolds(w, a)
  {
    hide Valid, Laid, TrueFlags;
    ValidFacts(w);
    DataThere(w, a);
    OwnerLives(w, a);
  }

  /** In every state that can be reached, the elements of an array lie at different
      places of memory whose owner is alive, and its order flags are true. */
  lemma ReachedMemory(k: Casting, w: World, n: nat)
    requires Reachable(k, w, n)
    ensures forall a :: a in w.arrays ==> MemoryHolds(w, a)
  {
    ReachedIsValid(k, w, n);
    hide Reachable, Valid, Laid, TrueFlags, Linked;
    forall a | a in w.arrays ensures MemoryHolds(w, a) {
      ValidMemory(w, a);
    }
  }

  // ----- Reachable states that go wrong

  lemma OneMoreStep(k: Casting, w: World, n: nat, op: Op)
    requires Reachable(k, w, n) && Valid(w) && !w.trapped && Owed(w, op) && Safe(w, op)
    ensures Reachable(k, Step(k, w, op), n + 1)
  {
    hide Valid, Safe, Owed, Step;
    assert StepsTo(k, w, op, Step(k, w, op));
  }

  /** One step makes an array. */
  lemma FirstArray(k: Casting, form: Form, items: seq<Item>)
    requires |items| == Size(form.dims) && |form.dims| <= SizeGuard.MAXDIMS
    ensures var w, h := Allocated(NOTHING, form, items), NewHeader(form, 0);
            && Reachable(k, w, 1) && Valid(w) && !w.trapped && Unclaimed(w, 0)
            && w.arrays == map[0 := h] && w.memory.Keys == {0} && w.next == 1 && Elements(w, h) == items
  {
    NothingReached(k);
    hide Reachable, Valid, Filled, Places, Size, Elements, Children, NewHeader;
    OneMoreStep(k, NOTHING, 0, New(form, items));
    OnlyArray(form, items);
    NewKeeps(NOTHING, form, items);
  }

  lemma FourItems()
    ensures Size([2, 2]) == 4
    ensures FIndex(0, [2, 2]) == 0 && FIndex(1, [2, 2]) == 2 && FIndex(2, [2, 2]) == 1 && FIndex(3, [2, 2]) == 3
  {
    assert [2, 2][1..] == [2] && [2][1..] == [];
    assert Prod([2]) == 2;
  }

  /** A square array in column-major order. */
  lemma SquareFlags(dtype: DType, data: Ref)
    ensures var h := NewHeader(Form(dtype, [2, 2], true, true), data);
            h.flags == {Aligned, Writeable, OwnData, Fortran} && !Relabels(h)
  {
    var dims: seq<int> := [2, 2];
    FStridesAt(dims, dtype.elsize, 0);
    assert NonZero(dims) == dims && dims[..0] == [] && Prod([]) == 1;
    assert FStrides(dims, dtype.elsize)[0] == dtype.elsize;
    assert AllocFlags(2, true) == {Aligned, Writeable, OwnData, Fortran};
    assert dims[1..] == [2] && Prod([2]) == 2;
  }

  /** One step makes a Fortran-ordered array of shape (2, 2); two flat views of it
      are two pending copies. */
  lemma FlatViewsBreak(k: Casting, dtype: DType, items: seq<Item>)
    requires |items| == 4
    ensures Size([2, 2]) == 4
    ensures var w := Allocated(NOTHING, Form(dtype, [2, 2], true, true), items);
            && Reachable(k, w, 1) && 0 in w.arrays && w.arrays[0].data in w.memory && w.next == 1
            && var w1 := FlatView(k, w, 0, true);
               && Reachable(k, w1, 2) && 0 in w1.arrays && w1.arrays[0].data in w1.memory && w1.next == 2
               && var w2 := FlatView(k, w1, 0, true); Holds(w2, 1, 0) && Holds(w2, 2, 0) && !Valid(w2)
  {
    hide Reachable, Valid, Decref, FlatView, Size, Elements, Relabels, NewHeader, Iterated;
    FourItems();
    var form := Form(dtype, [2, 2], true, true);
    FirstArray(k, form, items);
    SquareFlags(dtype, 0);
    var w := Allocated(NOTHING, form, items);
    NewIsPlain(form, 0);
    OneMoreStep(k, w, 1, Flat(0, true));
    hide Allocated;
    TwoFlatViews(k, w, 0, true);
    FlatViewIs(k, w, 0, true);
  }

  /** Releasing an untouched flat view of that array moves its elements. */
  lemma FlatViewMoves(k: Casting, typeNum: int, elsize: ItemSize, items: seq<Item>)
    requires |items| == 4
    ensures Size([2, 2]) == 4
    ensures var w := Allocated(NOTHING, Form(DType(typeNum, elsize, true), [2, 2], true, true), items);
            && Reachable(k, w, 1) && 0 in w.arrays && w.arrays[0].data in w.memory && w.next == 1
            && 1 in FlatView(k, w, 0, true).arrays
            && var w2 := Decref(k, FlatView(k, w, 0, true), 1);
               && w2.arrays == w.arrays && w.arrays[0].data in w2.memory
               && Elements(w2, w.arrays[0]) == [items[0], items[2], items[1], items[3]]
  {
    hide Reachable, Valid, Decref, FlatView, Size, Elements, Listed, FIndex, Relabels, Iterated;
    FourItems();
    var form := Form(DType(typeNum, elsize, true), [2, 2], true, true);
    FirstArray(k, form, items);
    SquareFlags(form.dtype, 0);
    var w := Allocated(NOTHING, form, items);
    NewIsPlain(form, 0);
    hide Allocated;
    FlatViewAndBack(k, w, 0, true);
    var e := Elements(Decref(k, FlatView(k, w, 0, true), 1), w.arrays[0]);
    assert ColumnRun(w.arrays[0]);
    var l := Listed(true, [2, 2], e);
    assert l == items && l[0] == e[0] && l[1] == e[2] && l[2] == e[1] && l[3] == e[3];
  }

  /** What becomes of the array `a` and of the next two flat views of it: the iterator
      of the first flags the array row-major, so that the second is a plain view, and
      releasing the first does not bring the flag back. */
  ghost predicate FlatViewFlags(k: Casting, w: World, n: nat, a: Ref, aligned: bool) {
    && a in w.arrays && w.arrays[a].data in w.memory && w.next != a && Fortran in w.arrays[a].flags
    && var w1 := FlatView(k, w, a, aligned);
       && Reachable(k, w1, n + 1) && a in w1.arrays && w1.arrays[a].data in w1.memory && w1.next == w.next + 1
       && a != w1.next && w.next in w1.arrays
       && Contiguous in w1.arrays[a].flags && Fortran !in w1.arrays[a].flags
       && Reachable(k, FlatView(k, w1, a, aligned), n + 2)
       && var w2 := Decref(k, w1, w.next);
          a in w2.arrays && Contiguous in w2.arrays[a].flags && Fortran !in w2.arrays[a].flags
  }

  /** A Fortran-ordered array of shape (1, 1) passes the row-major test too. */
  lemma FlatViewRelabels(k: Casting, dtype: DType, item: Item)
    ensures var w := Allocated(NOTHING, OneByOneForm(dtype, true), [item]);
            Reachable(k, w, 1) && FlatViewFlags(k, w, 1, 0, true)
  {
    var form := OneByOneForm(dtype, true);
    assert |form.dims| <= SizeGuard.MAXDIMS;
    hide *;
    OneByOneHeader(dtype, true, 0);
    FirstArray(k, form, [item]);
    Relabelling(k, Allocated(NOTHING, form, [item]), 1, 0, true);
  }

  /** Flat views of an array that an iterator relabels. */
  lemma Relabelling(k: Casting, w: World, n: nat, a: Ref, aligned: bool)
    requires Reachable(k, w, n) && Valid(w) && !w.trapped && a in w.arrays && Unclaimed(w, a)
    requires Contiguous !in w.arrays[a].flags && Fortran in w.arrays[a].flags && Relabels(w.arrays[a])
    ensures FlatViewFlags(k, w, n, a, aligned)
  {
    hide Reachable, Valid, FlatView, Decref, Relabels, Iterated, Unclaimed, Around, Listed, Elements;
    NextIsNew(w);
    DataThere(w, a);
    FlatViewKeeps(k, w, a, aligned);
    FlatViewIs(k, w, a, aligned);
    IteratedPlain(w.arrays[a]);
    RelabelledFlags(w.arrays[a]);
    RelabelledFlags(Unlocked(w.arrays[a]));
    UnlockedRelabels(w.arrays[a]);
    FlatViewAndBack(k, w, a, aligned);
    FlatStep(k, w, n, a, aligned);
    FlatStep(k, FlatView(k, w, a, aligned), n + 1, a, aligned);
  }

  lemma RelabelledFlags(h: Header)
    ensures Relabels(h) ==> Contiguous in Iterated(h).flags && Fortran !in Iterated(h).flags
  {
  }

  lemma UnlockedRelabels(h: Header)
    ensures Relabels(Unlocked(h)) <==> Relabels(h)
  {
  }

  /** A safe flat view is a step. */
  lemma FlatStep(k: Casting, w: World, n: nat, a: Ref, aligned: bool)
    requires Reachable(k, w, n) && Valid(w) && !w.trapped && a in w.arrays && w.next != a
    requires w.arrays[a].data in w.memory && (Contiguous in w.arrays[a].flags || Unclaimed(w, a))
    ensures Reachable(k, FlatView(k, w, a, aligned), n + 1)
    ensures !FlatView(k, w, a, aligned).trapped
  {
    hide Valid, Reachable, FlatView;
    OneMoreStep(k, w, n, Flat(a, aligned));
    FlatFollowsNone(k, w, a, aligned);
  }

  lemma FlatFollowsNone(k: Casting, w: World, a: Ref, aligned: bool)
    requires a in w.arrays && w.arrays[a].data in w.memory && w.next != a
    ensures FlatView(k, w, a, aligned).trapped == w.trapped
  {
    hide NewHeader, Filled, Iterated, ViewHeader, Converted;
  }

  /** A type that is not in the byte order of the machine, and no axes. */
  function SwappedScalar(typeNum: int, elsize: ItemSize): (r: Form)
    ensures Size(r.dims) == 1 && |r.dims| <= SizeGuard.MAXDIMS
  {
    Form(DType(typeNum, elsize, false), [], false, true)
  }

  /** Taking a pending copy of `a` and releasing it are steps, and the second follows a
      null pointer. */
  ghost predicate ReleaseFails(k: Casting, w: World, n: nat, a: Ref) {
    && a in w.arrays && w.arrays[a].data in w.memory && w.next != a
    && var m := FromArray(k, w, a, None, {EnsureCopy, UpdateIfCopy}, true);
       && m.Made? && Reachable(k, m.world, n + 1) && m.ret in m.world.arrays && !m.world.trapped
       && var w2 := Decref(k, m.world, m.ret); Reachable(k, w2, n + 2) && w2.trapped
  }

  /** Three steps that follow a null pointer: an array without axes, of a type that is
      not in the byte order of the machine; a copy of it that is to be copied back;
      and the release of that copy. */
  lemma ReleaseTraps(k: Casting, typeNum: int, elsize: ItemSize, item: Item)
    ensures var w := Allocated(NOTHING, SwappedScalar(typeNum, elsize), [item]);
            Reachable(k, w, 1) && ReleaseFails(k, w, 1, 0)
  {
    hide *;
    var form := SwappedScalar(typeNum, elsize);
    FirstArray(k, form, [item]);
    ScalarFails(k, Allocated(NOTHING, form, [item]), 1, 0, typeNum, elsize);
  }

  lemma ScalarFails(k: Casting, w: World, n: nat, a: Ref, typeNum: int, elsize: ItemSize)
    requires Reachable(k, w, n) && Valid(w) && !w.trapped && a in w.arrays
    requires w.arrays[a] == NewHeader(SwappedScalar(typeNum, elsize), a)
    ensures ReleaseFails(k, w, n, a)
  {
    hide Reachable, Valid, FromArray, Decref, NewHeader, Children;
    DataThere(w, a);
    TakeStep(k, w, n, a, None, {EnsureCopy, UpdateIfCopy}, true);
    PendingScalar(k, w, a, SwappedScalar(typeNum, elsize));
    var m := FromArray(k, w, a, None, {EnsureCopy, UpdateIfCopy}, true);
    DropStep(k, m.world, n + 1, m.ret);
  }

  lemma TakeStep(k: Casting, w: World, n: nat, a: Ref, wanted: Option<DType>, want: set<Flag>, aligned: bool)
    requires Reachable(k, w, n) && Valid(w) && !w.trapped && a in w.arrays
    ensures w.arrays[a].data in w.memory && w.next != a
    ensures var m := FromArray(k, w, a, wanted, want, aligned);
            m.Made? ==> Reachable(k, m.world, n + 1) && !m.world.trapped && Owned(m.world, m.ret)
  {
    hide Valid, Reachable, FromArray, Children;
    FromArrayKeeps(k, w, a, wanted, want, aligned);
    OneMoreStep(k, w, n, Take(a, wanted, want, aligned));
    FollowsNone(k, w, a, wanted, want, aligned);
  }

  /** A request follows no null pointer. */
  lemma FollowsNone(k: Casting, w: World, a: Ref, wanted: Option<DType>, want: set<Flag>, aligned: bool)
    requires a in w.arrays && w.arrays[a].data in w.memory && w.next != a
    ensures var m := FromArray(k, w, a, wanted, want, aligned); m.Made? ==> m.world.trapped == w.trapped
  {
    hide NewHeader, Filled, Iterated, ViewHeader, Converted, Equiv, Misses, Fills;
  }

  lemma DropStep(k: Casting, w: World, n: nat, a: Ref)
    requires Reachable(k, w, n) && !w.trapped && Owned(w, a)
    ensures Reachable(k, Decref(k, w, a), n + 1)
  {
    hide Valid, Reachable, Decref, Children;
    OneMoreStep(k, w, n, Drop(a));
  }

  lemma PendingScalar(k: Casting, w: World, a: Ref, form: Form)
    requires Valid(w) && a in w.arrays && w.arrays[a] == NewHeader(form, a)
    requires form.dims == [] && !form.dtype.native
    ensures w.arrays[a].data in w.memory && w.next != a
    ensures var m := FromArray(k, w, a, None, {EnsureCopy, UpdateIfCopy}, true);
            && m.Made? && m.ret in m.world.arrays
            && Decref(k, m.world, m.ret).trapped
  {
    hide Valid, FromArray, Serves, Restored, Decref, Fills;
    FromArrayServes(k, w, a, None, {EnsureCopy, UpdateIfCopy}, true);
    FromArrayAndBack(k, w, a, None, {EnsureCopy, UpdateIfCopy}, true);
  }
}
