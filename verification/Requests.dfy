/**
 Requests for arrays with given properties (libndarray/src/npy_ctors.c).
 */
module Requests {
  import opened Copying
  import opened NdArray
  import opened NewArrays
  import opened Releasing
  import opened Shape
  import opened Storage
  import opened WriteBack
  import opened Wrappers

  // ----- Asking for an array

  datatype Made = Made(world: World, ret: Ref) | CannotCast | ReadOnly

  /** The array does not have what is wanted. */
  predicate Misses(want: set<Flag>, h: Header) {
    || EnsureCopy in want
    || (Contiguous in want && Contiguous !in h.flags)
    || (Aligned in want && Aligned !in h.flags)
    || (h.Nd() > 1 && Fortran in want && Fortran !in h.flags)
    || (Writeable in want && Writeable !in h.flags)
  }

  /** The new array that is filled with the elements of `h`. */
  function CopyForm(dtype: DType, h: Header, want: set<Flag>, aligned: bool): Form {
    Form(dtype, h.layout.dims, Fortran in want, aligned)
  }

  /** Filling the new array `n` makes iterators over both, except for arrays without
      axes, to which an iterator does nothing. */
  predicate Fills(k: Casting, n: Header, h: Header) {
    Stores(k, n, h) && !Simple(n, h)
  }

  ghost function MadeCopy(k: Casting, w: World, arr: Ref, dtype: DType, want: set<Flag>, aligned: bool): Made
    requires arr in w.arrays && w.arrays[arr].data in w.memory
  {
    var h := w.arrays[arr];
    var form := CopyForm(dtype, h, want, aligned);
    var walk := Fills(k, NewHeader(form, w.next), h);
    if UpdateIfCopy in want && Writeable !in h.flags then ReadOnly
    else if UpdateIfCopy in want then Made(LockedOut(k, w, arr, form, walk), w.next)
    else Made(CopiedOut(k, w, arr, form, walk), w.next)
  }

  /** `NpyArray_FromArray`; `aligned` is what the alignment test says of new memory. */
  ghost function FromArray(k: Casting, w: World, arr: Ref, wanted: Option<DType>, want: set<Flag>, aligned: bool): Made
    requires arr in w.arrays && w.arrays[arr].data in w.memory && w.next != arr
  {
    var h := w.arrays[arr];
    var dtype := if wanted.None? then h.dtype else wanted.value;
    if ForceCast !in want && h.Nd() != 0 && !k.canCast(h.dtype, dtype) then CannotCast
    else if !(EnsureCopy in want || Equiv(k, h.dtype, dtype)) || Misses(want, h) then
      MadeCopy(k, w, arr, dtype, want, aligned)
    else if EnsureArray in want then Made(Viewed(w, arr, h.layout), w.next)
    else Made(WithRefs(w, arr, h.refs + 1), arr)
  }

  /** Nobody waits to be copied back into an array that is writeable. */
  lemma WriteableIsFree(w: World, b: Ref)
    requires Valid(w) && b in w.arrays && Writeable in w.arrays[b].flags
    ensures Unclaimed(w, b)
  {
    hide Valid;
    ValidFacts(w);
  }

  lemma RaiseKeeps(w: World, a: Ref)
    requires Valid(w) && a in w.arrays
    ensures Valid(WithRefs(w, a, w.arrays[a].refs + 1))
    ensures w.arrays[a].refs >= |Children(WithRefs(w, a, w.arrays[a].refs + 1), a)|
  {
    hide Valid, Sound, Children, Holds;
    var w' := WithRefs(w, a, w.arrays[a].refs + 1);
    ValidFacts(w);
    SameLinksKeep(w, w');
    SameChildrenByBase(w, w', a);
  }

  /** The world is valid and the caller owns a reference to the array. */
  ghost predicate Owned(w: World, ret: Ref) {
    Valid(w) && ret in w.arrays && w.arrays[ret].refs > |Children(w, ret)|
  }

  lemma CopyOwned(k: Casting, w: World, arr: Ref, dtype: DType, want: set<Flag>, aligned: bool)
    requires Valid(w) && arr in w.arrays
    ensures w.arrays[arr].data in w.memory
    ensures var m := MadeCopy(k, w, arr, dtype, want, aligned); m.Made? ==> Owned(m.world, m.ret)
  {
    hide Valid, Children, CopiedOut, LockedOut, Fills, NewHeader, Unclaimed;
    DataThere(w, arr);
    var h := w.arrays[arr];
    var form := CopyForm(dtype, h, want, aligned);
    var walk := Fills(k, NewHeader(form, w.next), h);
    CopiedOutKeeps(k, w, arr, form, walk);
    LockedOutKeeps(k, w, arr, form, walk);
    CopyRefs(k, w, arr, form, walk);
    if Writeable in h.flags {
      WriteableIsFree(w, arr);
    }
  }

  lemma CopyRefs(k: Casting, w: World, arr: Ref, form: Form, walk: bool)
    requires arr in w.arrays && w.arrays[arr].data in w.memory && Size(form.dims) == w.arrays[arr].Count()
    requires w.next !in w.arrays && w.arrays[arr].data < w.next
    ensures var w0, w1 := CopiedOut(k, w, arr, form, walk), LockedOut(k, w, arr, form, walk);
            w.next in w0.arrays && w.next in w1.arrays && w0.arrays[w.next].refs == w1.arrays[w.next].refs == 1
  {
    hide NewHeader, CopiedOut, Iterated;
    CopiedOutIs(k, w, arr, form, walk);
    NewIsPlain(form, w.next);
    IteratedPlain(NewHeader(form, w.next));
  }

  lemma ViewOwned(w: World, arr: Ref, layout: Layout)
    requires Valid(w) && Viewable(w, arr, layout)
    ensures w.next != arr && Owned(Viewed(w, arr, layout), w.next)
  {
    hide Valid, Children, TestedFlags;
    ViewedKeeps(w, arr, layout);
  }

  /** An array can be viewed as it is. */
  lemma WholeViewable(w: World, arr: Ref)
    requires Valid(w) && arr in w.arrays
    ensures Viewable(w, arr, w.arrays[arr].layout)
  {
    hide Laid;
    DataThere(w, arr);
  }

  lemma SameOwned(w: World, arr: Ref)
    requires Valid(w) && arr in w.arrays
    ensures Owned(WithRefs(w, arr, w.arrays[arr].refs + 1), arr)
  {
    hide Valid, Children;
    RaiseKeeps(w, arr);
  }

  /** Whatever is asked for, the world stays valid and the caller owns a reference. */
  lemma FromArrayKeeps(k: Casting, w: World, arr: Ref, wanted: Option<DType>, want: set<Flag>, aligned: bool)
    requires Valid(w) && arr in w.arrays
    ensures w.arrays[arr].data in w.memory && w.next != arr
    ensures var m := FromArray(k, w, arr, wanted, want, aligned); m.Made? ==> Owned(m.world, m.ret)
  {
    hide Valid, Owned, MadeCopy, Viewed, Viewable, WithRefs, Misses;
    var h := w.arrays[arr];
    CopyOwned(k, w, arr, if wanted.None? then h.dtype else wanted.value, want, aligned);
    WholeViewable(w, arr);
    ViewOwned(w, arr, h.layout);
    SameOwned(w, arr);
  }

  /** What was asked for. */
  ghost predicate Meets(want: set<Flag>, h: Header) {
    !Misses(want - {EnsureCopy}, h)
  }

  /** `ret` is an array of `world` with the elements of `arr`, of the type `dtype`
      and with the wanted flags. They are missing in two cases beyond one axis. A new
      copy cannot be in both orders, and if it is filled by iterators and its
      column-major strides pass the row-major test, it is flagged row-major. A view
      has recomputed flags: a wanted `Fortran` is lost exactly if its strides pass the
      row-major test as well, a wanted `Contiguous` never. */
  ghost predicate Serves(k: Casting, w: World, world: World, arr: Ref, ret: Ref, dtype: DType, want: set<Flag>)
    requires arr in w.arrays && w.arrays[arr].data in w.memory
  {
    && ret in world.arrays
    && var h, r := w.arrays[arr], world.arrays[ret];
       && r.data in world.memory
       && Elements(world, r) == Converted(k, h.dtype, r.dtype, Elements(w, h))
       && (r.dtype == dtype || (r.dtype == h.dtype && Equiv(k, h.dtype, dtype)))
       && (ret == arr ==> Meets(want, r))
       && (r.data != h.data ==> (Meets(want, r) <==> !LosesOrder(k, h, r, ret, dtype, want)))
       && (ret != arr && r.data == h.data ==>
             (Meets(want, r) <==> (Aligned in want ==> h.layout.aligned)
                                  && !(h.Nd() > 1 && Fortran in want && COrder(h.dtype.elsize, h.layout))))
  }

  /** A new copy `r` of `h` lacks an order that is wanted. */
  ghost predicate LosesOrder(k: Casting, h: Header, r: Header, ret: Ref, dtype: DType, want: set<Flag>) {
    && h.Nd() > 1 && Fortran in want
    && (|| Contiguous in want
        || (&& Fills(k, NewHeader(CopyForm(dtype, h, want, r.layout.aligned), ret), h)
            && COrder(dtype.elsize, NewLayout(dtype.elsize, h.layout.dims, true, r.layout.aligned))))
  }

  lemma CopyServes(k: Casting, w: World, arr: Ref, dtype: DType, want: set<Flag>, aligned: bool)
    requires arr in w.arrays && w.arrays[arr].data in w.memory && w.next !in w.arrays && w.arrays[arr].data < w.next
    ensures var m := MadeCopy(k, w, arr, dtype, want, aligned);
            m.Made? ==> Serves(k, w, m.world, arr, m.ret, dtype, want)
  {
    hide CopiedOut, Fills, NewHeader, Iterated, Meets, LosesOrder, Converted, Gathered, Places;
    var h := w.arrays[arr];
    var form := CopyForm(dtype, h, want, aligned);
    var n := NewHeader(form, w.next);
    var walk := Fills(k, n, h);
    CopiedOutIs(k, w, arr, form, walk);
    NewIsPlain(form, w.next);
    IteratedPlain(n);
    var r := IteratedIf(n, walk);
    NewMeets(k, h, r, w.next, dtype, want, aligned, walk);
    var r' := r.(flags := r.flags + {UpdateIfCopy}, base := Some(arr));
    NewMeets(k, h, r', w.next, dtype, want, aligned, walk);
  }

  /** Which new copies have the wanted flags. */
  lemma NewMeets(k: Casting, h: Header, r: Header, ret: Ref, dtype: DType, want: set<Flag>, aligned: bool, walk: bool)
    requires var n := NewHeader(CopyForm(dtype, h, want, aligned), ret);
             && walk == Fills(k, n, h) && r.layout == n.layout
             && forall x :: x != UpdateIfCopy ==> (x in r.flags <==> x in IteratedIf(n, walk).flags)
    ensures Meets(want, r) <==> !LosesOrder(k, h, r, ret, dtype, want)
  {
    hide CContiguous, FContiguous, Fills, FStrides, CStrides;
    NewRelabels(dtype, h.layout.dims, aligned, ret);
  }

  /** A column-major new array is relabelled if it passes the row-major test. */
  lemma NewRelabels(dtype: DType, dims: seq<nat>, aligned: bool, ret: Ref)
    ensures Relabels(NewHeader(Form(dtype, dims, true, aligned), ret))
            <==> |dims| > 1 && COrder(dtype.elsize, NewLayout(dtype.elsize, dims, true, aligned))
    ensures !Relabels(NewHeader(Form(dtype, dims, false, aligned), ret))
  {
    hide CContiguous, FStrides, CStrides;
  }

  lemma ViewServes(k: Casting, w: World, arr: Ref, dtype: DType, want: set<Flag>)
    requires arr in w.arrays && w.arrays[arr].data in w.memory && w.next != arr && AsIs(k, w.arrays[arr], dtype, want)
    requires TrueFlags(w.arrays[arr])
    ensures Serves(k, w, Viewed(w, arr, w.arrays[arr].layout), arr, w.next, dtype, want)
  {
    hide CContiguous, FContiguous, Places, Gathered, LosesOrder;
  }

  /** The request can be met without copying. */
  ghost predicate AsIs(k: Casting, h: Header, dtype: DType, want: set<Flag>) {
    EnsureCopy !in want && Equiv(k, h.dtype, dtype) && Meets(want, h)
  }

  /** Memory is shared exactly if nothing needs copying, and exactly a requested
      copy waits to be copied back. Filling a copy by iterators brings the row-major
      flag of `arr` up to date. */
  ghost predicate Shares(k: Casting, w: World, world: World, arr: Ref, ret: Ref, dtype: DType, want: set<Flag>)
    requires arr in w.arrays
  {
    && ret in world.arrays && arr in world.arrays
    && var h, r := w.arrays[arr], world.arrays[ret];
       && (r.data == h.data <==> AsIs(k, h, dtype, want))
       && (AsIs(k, h, dtype, want) ==> world.memory == w.memory)
       && (ret == arr <==> AsIs(k, h, dtype, want) && EnsureArray !in want)
       && (ret != arr ==> (Holds(world, ret, arr) <==> UpdateIfCopy in want && !AsIs(k, h, dtype, want)))
       && var walk := !AsIs(k, h, dtype, want)
                      && Fills(k, NewHeader(CopyForm(dtype, h, want, r.layout.aligned), ret), h);
          SameOrder(IteratedIf(h, walk), world.arrays[arr])
  }

  /** The headers after a copy was made. */
  lemma MadeHeaders(k: Casting, w: World, arr: Ref, dtype: DType, want: set<Flag>, aligned: bool)
    requires arr in w.arrays && w.arrays[arr].data in w.memory && w.next !in w.arrays && w.arrays[arr].data < w.next
    ensures var m, h, c := MadeCopy(k, w, arr, dtype, want, aligned), w.arrays[arr], w.next;
            var n := NewHeader(CopyForm(dtype, h, want, aligned), c);
            var walk, back := Fills(k, n, h), UpdateIfCopy in want;
            m.Made? ==>
              && m.ret == c && c in m.world.arrays && arr in m.world.arrays
              && var r, a := m.world.arrays[c], m.world.arrays[arr];
                 && r == n.(flags := IteratedIf(n, walk).flags + (if back then {UpdateIfCopy} else {}),
                            base := if back then Some(arr) else None)
                 && a == h.(flags := IteratedIf(h, walk).flags - (if back then {Writeable} else {}),
                            refs := h.refs + if back then 1 else 0)
  {
    hide CopiedOut, Fills, Iterated, NewHeader;
    var h, form := w.arrays[arr], CopyForm(dtype, w.arrays[arr], want, aligned);
    var n := NewHeader(form, w.next);
    CopiedOutIs(k, w, arr, form, Fills(k, n, h));
    NewIsPlain(form, w.next);
    IteratedPlain(n);
    IteratedPlain(h);
  }

  lemma CopyShares(k: Casting, w: World, arr: Ref, dtype: DType, want: set<Flag>, aligned: bool)
    requires arr in w.arrays && w.arrays[arr].data in w.memory && w.next !in w.arrays && w.arrays[arr].data < w.next
    requires !AsIs(k, w.arrays[arr], dtype, want)
    ensures var m := MadeCopy(k, w, arr, dtype, want, aligned);
            m.Made? ==> Shares(k, w, m.world, arr, m.ret, dtype, want)
  {
    hide AsIs, MadeCopy, Fills, Iterated, NewHeader;
    var n := NewHeader(CopyForm(dtype, w.arrays[arr], want, aligned), w.next);
    MadeHeaders(k, w, arr, dtype, want, aligned);
    NewIsPlain(CopyForm(dtype, w.arrays[arr], want, aligned), w.next);
    NewDims(CopyForm(dtype, w.arrays[arr], want, aligned), w.next);
    IteratedPlain(n);
  }

  lemma ViewShares(k: Casting, w: World, arr: Ref, dtype: DType, want: set<Flag>, layout: Layout)
    requires arr in w.arrays && w.next != arr && AsIs(k, w.arrays[arr], dtype, want) && EnsureArray in want
    ensures Shares(k, w, Viewed(w, arr, layout), arr, w.next, dtype, want)
  {
    hide AsIs, COrder, FOrder, Fills;
  }

  lemma SameShares(k: Casting, w: World, arr: Ref, dtype: DType, want: set<Flag>)
    requires arr in w.arrays && AsIs(k, w.arrays[arr], dtype, want) && EnsureArray !in want
    ensures Shares(k, w, WithRefs(w, arr, w.arrays[arr].refs + 1), arr, arr, dtype, want)
  {
    hide AsIs, Fills;
  }

  lemma SameServes(k: Casting, w: World, arr: Ref, dtype: DType, want: set<Flag>, aligned: bool)
    requires arr in w.arrays && w.arrays[arr].data in w.memory && AsIs(k, w.arrays[arr], dtype, want)
    ensures Serves(k, w, WithRefs(w, arr, w.arrays[arr].refs + 1), arr, arr, dtype, want)
  {
    hide COrder, FOrder, LosesOrder;
  }

  /** A request is refused for an unsafe cast, or for copying back into a read-only
      array that cannot be used as it is; every array that is handed out has the
      elements, the type and the flags, and shares memory when it can. */
  lemma FromArrayServes(k: Casting, w: World, arr: Ref, wanted: Option<DType>, want: set<Flag>, aligned: bool)
    requires Valid(w) && arr in w.arrays
    ensures w.arrays[arr].data in w.memory && w.next != arr
    ensures var h, m := w.arrays[arr], FromArray(k, w, arr, wanted, want, aligned);
            var dtype := if wanted.None? then h.dtype else wanted.value;
            && (m.CannotCast? <==> ForceCast !in want && h.Nd() != 0 && !k.canCast(h.dtype, dtype))
            && (m.ReadOnly? <==>
                  !m.CannotCast? && !AsIs(k, h, dtype, want) && UpdateIfCopy in want && Writeable !in h.flags)
            && (m.Made? ==>
                  Serves(k, w, m.world, arr, m.ret, dtype, want) && Shares(k, w, m.world, arr, m.ret, dtype, want))
  {
    hide Valid;
    DataThere(w, arr);
    NextIsNew(w);
    var h := w.arrays[arr];
    var dtype := if wanted.None? then h.dtype else wanted.value;
    FromArrayBranches(k, w, arr, wanted, want, aligned);
    hide FromArray, MadeCopy, Viewed, WithRefs, Serves, Shares, AsIs;
    RefusedWhen(k, w, arr, dtype, want, aligned);
    CopyServes(k, w, arr, dtype, want, aligned);
    if AsIs(k, h, dtype, want) {
      ViewServes(k, w, arr, dtype, want);
      SameServes(k, w, arr, dtype, want, aligned);
      if EnsureArray in want {
        ViewShares(k, w, arr, dtype, want, h.layout);
      } else {
        SameShares(k, w, arr, dtype, want);
      }
    } else {
      CopyShares(k, w, arr, dtype, want, aligned);
    }
  }

  predicate HasWanted(want: set<Flag>, h: Header) {
    want * {Contiguous, Aligned, Writeable} <= h.flags && (Fortran in want ==> h.Nd() <= 1 || Fortran in h.flags)
  }

  lemma AsIsMeans(k: Casting, h: Header, dtype: DType, want: set<Flag>)
    ensures AsIs(k, h, dtype, want) <==> EnsureCopy !in want && Interchange(k, h.dtype, dtype) && HasWanted(want, h)
  {
    forall x ensures x in want * {Contiguous, Aligned, Writeable}
                     <==> x in want && (x == Contiguous || x == Aligned || x == Writeable) {
    }
  }

  /** How a request was met: by the array itself, by a view, or by a copy, which may
      have been relabelled. */
  datatype Answer = AsItIs | AsView | AsCopy(relabelled: bool)

  /** The wanted flags of the array `r` that is handed out for `h`, one by one. */
  ghost predicate Flagged(want: set<Flag>, h: Header, r: Header, how: Answer) {
    && (Writeable in want ==> Writeable in r.flags)
    && (Aligned in want ==> (Aligned in r.flags <==> how.AsView? ==> h.layout.aligned))
    && (Contiguous in want ==>
          (Contiguous in r.flags <==> how.AsCopy? && h.Nd() > 1 && Fortran in want ==> how.relabelled))
    && (Fortran in want && h.Nd() > 1 ==>
          (Fortran in r.flags <==> (how.AsView? ==> !COrder(h.dtype.elsize, h.layout))
                                   && (how.AsCopy? ==> !how.relabelled)))
  }

  /** Iterators fill a column-major copy that passes the row-major test. */
  ghost predicate Relabelled(k: Casting, h: Header, ret: Ref, dtype: DType, want: set<Flag>, aligned: bool) {
    && Fills(k, NewHeader(CopyForm(dtype, h, want, aligned), ret), h)
    && COrder(dtype.elsize, NewLayout(dtype.elsize, h.layout.dims, true, aligned))
  }

  lemma CopyFlagged(k: Casting, h: Header, r: Header, ret: Ref, dtype: DType, want: set<Flag>, aligned: bool)
    requires var n := NewHeader(CopyForm(dtype, h, want, aligned), ret);
             var f := IteratedIf(n, Fills(k, n, h)).flags;
             forall x :: x != UpdateIfCopy ==> (x in r.flags <==> x in f)
    ensures Flagged(want, h, r, AsCopy(Relabelled(k, h, ret, dtype, want, aligned)))
  {
    hide COrder, FOrder, Fills, FStrides, CStrides, NewLayout;
    NewRelabels(dtype, h.layout.dims, aligned, ret);
    hide Relabels;
  }

  lemma CopyGives(k: Casting, w: World, arr: Ref, dtype: DType, want: set<Flag>, aligned: bool)
    requires arr in w.arrays && w.arrays[arr].data in w.memory && w.next !in w.arrays && w.arrays[arr].data < w.next
    ensures var h, m := w.arrays[arr], MadeCopy(k, w, arr, dtype, want, aligned);
            m.Made? ==>
              && m.ret == w.next && m.ret in m.world.arrays && m.world.arrays[m.ret].dtype == dtype
              && Flagged(want, h, m.world.arrays[m.ret], AsCopy(Relabelled(k, h, w.next, dtype, want, aligned)))
  {
    hide MadeCopy, Flagged, Relabelled, Fills, Iterated, NewLayout;
    MadeHeaders(k, w, arr, dtype, want, aligned);
    var h, m := w.arrays[arr], MadeCopy(k, w, arr, dtype, want, aligned);
    if m.Made? {
      CopyFlagged(k, h, m.world.arrays[m.ret], w.next, dtype, want, aligned);
    }
  }

  lemma ViewFlagged(h: Header, want: set<Flag>, base: Ref)
    requires HasWanted(want, h) && TrueFlags(h)
    ensures Flagged(want, h, ViewHeader(h, h.layout, base), AsView)
  {
    hide COrder, FOrder;
    forall x | x in want && (x == Contiguous || x == Aligned || x == Writeable) ensures x in h.flags {
      assert x in want * {Contiguous, Aligned, Writeable};
    }
  }

  lemma SameFlagged(h: Header, refs: nat, want: set<Flag>)
    requires HasWanted(want, h)
    ensures Flagged(want, h, h.(refs := refs), AsItIs)
  {
    hide COrder;
    forall x | x in want && (x == Contiguous || x == Aligned || x == Writeable) ensures x in h.flags {
      assert x in want * {Contiguous, Aligned, Writeable};
    }
  }

  lemma MadeShares(k: Casting, w: World, arr: Ref, wanted: Option<DType>, want: set<Flag>, aligned: bool)
    requires Valid(w) && arr in w.arrays
    ensures w.arrays[arr].data in w.memory && w.next != arr
    ensures var h, m := w.arrays[arr], FromArray(k, w, arr, wanted, want, aligned);
            var dtype := if wanted.None? then h.dtype else wanted.value;
            && (m.ReadOnly? <==>
                  !m.CannotCast? && !AsIs(k, h, dtype, want) && UpdateIfCopy in want && Writeable !in h.flags)
            && (m.Made? ==>
                  && m.ret in m.world.arrays
                  && (m.world.arrays[m.ret].data == h.data <==> AsIs(k, h, dtype, want))
                  && (m.ret == arr <==> AsIs(k, h, dtype, want) && EnsureArray !in want))
  {
    hide Valid, AsIs, Serves, FromArray, Fills;
    FromArrayServes(k, w, arr, wanted, want, aligned);
  }

  /** What is handed out, by the branch that is taken. */
  lemma MadeFlagged(k: Casting, w: World, arr: Ref, wanted: Option<DType>, want: set<Flag>, aligned: bool)
    requires Valid(w) && arr in w.arrays
    ensures w.arrays[arr].data in w.memory && w.next != arr
    ensures var h, m := w.arrays[arr], FromArray(k, w, arr, wanted, want, aligned);
            var dtype := if wanted.None? then h.dtype else wanted.value;
            var how := if !AsIs(k, h, dtype, want) then AsCopy(Relabelled(k, h, w.next, dtype, want, aligned))
                       else if EnsureArray in want then AsView else AsItIs;
            m.Made? ==>
              && m.ret in m.world.arrays && Flagged(want, h, m.world.arrays[m.ret], how)
              && m.world.arrays[m.ret].dtype == if how.AsCopy? then dtype else h.dtype
  {
    hide Valid, Flagged, HasWanted, AsIs, Relabelled, TestedFlags;
    DataThere(w, arr);
    NextIsNew(w);
    var h := w.arrays[arr];
    var dtype := if wanted.None? then h.dtype else wanted.value;
    AsIsMeans(k, h, dtype, want);
    FromArrayBranches(k, w, arr, wanted, want, aligned);
    hide FromArray, MadeCopy, Interchange;
    if !AsIs(k, h, dtype, want) {
      CopyGives(k, w, arr, dtype, want, aligned);
    } else if EnsureArray in want {
      ViewFlagged(h, want, arr);
    } else {
      SameFlagged(h, h.refs + 1, want);
    }
  }

  /** What comes of a request, from the flags and types alone. Memory is shared exactly
      if no copy is forced, the types can stand for each other, and the array has what
      is wanted. What is handed out has the size and byte order that was asked for, and
      the wanted flags but in the two cases beyond one axis. */
  lemma FromArrayGives(k: Casting, w: World, arr: Ref, wanted: Option<DType>, want: set<Flag>, aligned: bool)
    requires Valid(w) && arr in w.arrays
    ensures w.arrays[arr].data in w.memory && w.next != arr
    ensures var h, m := w.arrays[arr], FromArray(k, w, arr, wanted, want, aligned);
            var dtype := if wanted.None? then h.dtype else wanted.value;
            var shared := EnsureCopy !in want && Interchange(k, h.dtype, dtype) && HasWanted(want, h);
            var how := if !shared then AsCopy(Relabelled(k, h, w.next, dtype, want, aligned))
                       else if EnsureArray in want then AsView else AsItIs;
            && (m.ReadOnly? <==> !m.CannotCast? && !shared && UpdateIfCopy in want && Writeable !in h.flags)
            && (m.Made? ==>
                  && m.ret in m.world.arrays
                  && var r := m.world.arrays[m.ret];
                     && (r.data == h.data <==> shared) && (m.ret == arr <==> how.AsItIs?)
                     && r.dtype == (if shared then h.dtype else dtype)
                     && r.dtype.elsize == dtype.elsize && r.dtype.native == dtype.native
                     && Flagged(want, h, r, how))
  {
    hide Valid, Flagged, HasWanted, AsIs, Relabelled, FromArray;
    var h := w.arrays[arr];
    var dtype := if wanted.None? then h.dtype else wanted.value;
    AsIsMeans(k, h, dtype, want);
    MadeShares(k, w, arr, wanted, want, aligned);
    MadeFlagged(k, w, arr, wanted, want, aligned);
  }

  lemma RefusedWhen(k: Casting, w: World, arr: Ref, dtype: DType, want: set<Flag>, aligned: bool)
    requires arr in w.arrays && w.arrays[arr].data in w.memory
    ensures var m := MadeCopy(k, w, arr, dtype, want, aligned);
            !m.CannotCast? && (m.ReadOnly? <==> UpdateIfCopy in want && Writeable !in w.arrays[arr].flags)
  {
  }

  /** Which branch is taken. */
  lemma FromArrayBranches(k: Casting, w: World, arr: Ref, wanted: Option<DType>, want: set<Flag>, aligned: bool)
    requires arr in w.arrays && w.arrays[arr].data in w.memory && w.next != arr
    ensures var h := w.arrays[arr];
            var dtype := if wanted.None? then h.dtype else wanted.value;
            FromArray(k, w, arr, wanted, want, aligned)
            == if ForceCast !in want && h.Nd() != 0 && !k.canCast(h.dtype, dtype) then CannotCast
               else if !AsIs(k, h, dtype, want) then MadeCopy(k, w, arr, dtype, want, aligned)
               else if EnsureArray in want then Made(Viewed(w, arr, h.layout), w.next)
               else Made(WithRefs(w, arr, h.refs + 1), arr)
  {
    hide MadeCopy, Viewed, WithRefs;
  }

  lemma OneByOne(elsize: ItemSize)
    ensures FStrides(NonZero([1, 1]), elsize) == CStrides(NonZero([1, 1]), elsize)
    ensures CContiguous([1, 1], FStrides(NonZero([1, 1]), elsize), elsize)
    ensures Size([1, 1]) == 1
  {
    var dims: seq<int> := [1, 1];
    FilledIsContiguous(dims, elsize);
    assert NonZero(dims) == dims && dims[1..] == [1] && [1][1..] == [];
  }

  function OneByOneForm(dtype: DType, fortran: bool): (r: Form)
    ensures Size(r.dims) == 1
  {
    OneByOne(dtype.elsize);
    Form(dtype, [1, 1], fortran, true)
  }

  /** A new array of shape (1, 1) is in both orders, whichever one it is flagged. */
  lemma OneByOneHeader(dtype: DType, fortran: bool, data: Ref)
    ensures var h := NewHeader(OneByOneForm(dtype, fortran), data);
            && h.dtype == dtype && h.layout.dims == [1, 1] && h.Nd() == 2 && (Relabels(h) <==> fortran)
            && (Fortran in h.flags <==> fortran) && (Contiguous in h.flags <==> !fortran) && Writeable in h.flags
            && COrder(dtype.elsize, NewLayout(dtype.elsize, [1, 1], true, true))
  {
    OneByOne(dtype.elsize);
    hide CContiguous, FContiguous, CStrides, FStrides, NonZero, Size;
  }

  /** The only array of a world. */
  lemma OnlyArray(form: Form, items: seq<Item>)
    requires |items| == Size(form.dims)
    ensures var w := Allocated(NOTHING, form, items);
            && Valid(w) && w.arrays == map[0 := NewHeader(form, 0)] && w.next == 1 && Unclaimed(w, 0)
            && 0 in w.memory && NewHeader(form, 0).data == 0
  {
    assert Valid(NOTHING);
    hide Valid, Filled, Places, Size, Elements, Children, NewHeader;
    NewKeeps(NOTHING, form, items);
    NewIsPlain(form, 0);
    AllocatedIs(NOTHING, form, items);
    assert Allocated(NOTHING, form, items).arrays == map[0 := NewHeader(form, 0)];
  }

  /** An array that an iterator would relabel, asked for as an exact array in Fortran
      order, gives a view without that flag. */
  lemma RelabelledView(k: Casting, w: World, arr: Ref, aligned: bool)
    requires Valid(w) && arr in w.arrays && Relabels(w.arrays[arr])
    ensures w.arrays[arr].data in w.memory && w.next != arr
    ensures var m := FromArray(k, w, arr, None, {Fortran, EnsureArray, ForceCast}, aligned);
            m.Made? && m.ret in m.world.arrays && !Meets({Fortran}, m.world.arrays[m.ret])
  {
    hide Valid, FromArray, COrder, LosesOrder, Converted, Elements, Fills;
    FromArrayServes(k, w, arr, None, {Fortran, EnsureArray, ForceCast}, aligned);
  }

  /** A new copy in Fortran order of an array flagged C-contiguous is filled by
      iterators; if its own strides pass the row-major test, it lacks the flag. */
  lemma RelabelledCopy(k: Casting, w: World, arr: Ref)
    requires Valid(w) && arr in w.arrays && w.arrays[arr].Nd() > 1
    requires Contiguous in w.arrays[arr].flags && Fortran !in w.arrays[arr].flags
    requires var e, dims := w.arrays[arr].dtype.elsize, w.arrays[arr].layout.dims;
             COrder(e, NewLayout(e, dims, true, true))
    ensures w.arrays[arr].data in w.memory && w.next != arr
    ensures var m := FromArray(k, w, arr, None, {Fortran, ForceCast}, true);
            && m.Made? && m.ret in m.world.arrays && m.world.arrays[m.ret].data != w.arrays[arr].data
            && !Meets({Fortran}, m.world.arrays[m.ret])
  {
    hide Valid, FromArray, MadeCopy, COrder, Converted, Elements, NewLayout;
    NextIsNew(w);
    var h := w.arrays[arr];
    FromArrayServes(k, w, arr, None, {Fortran, ForceCast}, true);
    FromArrayBranches(k, w, arr, None, {Fortran, ForceCast}, true);
    MadeHeaders(k, w, arr, h.dtype, {Fortran, ForceCast}, true);
    NewDims(CopyForm(h.dtype, h, {Fortran, ForceCast}, true), w.next);
  }

  /** A Fortran-ordered array of shape (1, 1) is C-ordered as well. */
  lemma ViewLosesFortran(k: Casting, dtype: DType, item: Item)
    ensures var w := Allocated(NOTHING, OneByOneForm(dtype, true), [item]);
            var m := FromArray(k, w, 0, None, {Fortran, EnsureArray, ForceCast}, true);
            && Valid(w) && Fortran in w.arrays[0].flags
            && m.Made? && m.ret in m.world.arrays && !Meets({Fortran}, m.world.arrays[m.ret])
  {
    hide *;
    OneByOneHeader(dtype, true, 0);
    OnlyArray(OneByOneForm(dtype, true), [item]);
    RelabelledView(k, Allocated(NOTHING, OneByOneForm(dtype, true), [item]), 0, true);
  }

  /** A new copy in Fortran order of a C-ordered array of shape (1, 1) lacks the flag. */
  lemma CopyLosesFortran(k: Casting, dtype: DType, item: Item)
    ensures var w := Allocated(NOTHING, OneByOneForm(dtype, false), [item]);
            var m := FromArray(k, w, 0, None, {Fortran, ForceCast}, true);
            && Valid(w) && m.Made? && m.ret in m.world.arrays && m.world.arrays[m.ret].data != w.arrays[0].data
            && !Meets({Fortran}, m.world.arrays[m.ret])
  {
    hide *;
    OneByOneHeader(dtype, false, 0);
    OnlyArray(OneByOneForm(dtype, false), [item]);
    RelabelledCopy(k, Allocated(NOTHING, OneByOneForm(dtype, false), [item]), 0);
  }

  // ----- Taking a copy and releasing it

  /** `arr` has its header back, but writeable and with its row-major flag up to
      date if iterators were made, and its elements after the round trip through
      `copy`, unless copying back comes to a null pointer; everything else is as it
      was. */
  ghost predicate GivenBack(k: Casting, w: World, w2: World, arr: Ref, copy: Header, walk: bool)
    requires arr in w.arrays
  {
    var h := w.arrays[arr];
    && h.data in w.memory && h.data in w2.memory
    && w2.arrays == w.arrays[arr := IteratedIf(Unlocked(h), walk)]
    && (w2.trapped <==> w.trapped || Traps(k, h, copy))
    && (if Traps(k, h, copy) then w2.memory[h.data] == w.memory[h.data]
        else
          && Arrived(k, h, copy, Elements(w2, h), Converted(k, h.dtype, copy.dtype, Elements(w, h)))
          && Around(w.memory[h.data].items, w2.memory[h.data].items, Places(h.layout)))
    && forall m :: m in w.memory && m < w.next && m != h.data ==> m in w2.memory && w2.memory[m] == w.memory[m]
  }

  /** Copying back makes iterators: the base `h` and the copy `n` as they are then. */
  ghost predicate WalksBack(k: Casting, h: Header, n: Header, walk: bool) {
    CopyWay(k, Unlocked(IteratedIf(h, walk)), IteratedIf(n, walk)).Walk?
  }

  /** Releasing an untouched pending copy. */
  lemma LockedOutAndBack(k: Casting, w: World, arr: Ref, form: Form, walk: bool)
    requires Valid(w) && arr in w.arrays && Unclaimed(w, arr) && Size(form.dims) == w.arrays[arr].Count()
    ensures w.arrays[arr].data in w.memory && w.next in LockedOut(k, w, arr, form, walk).arrays
    ensures var n := NewHeader(form, w.next);
            GivenBack(k, w, Decref(k, LockedOut(k, w, arr, form, walk), w.next), arr, n,
                      walk || WalksBack(k, w.arrays[arr], n, walk))
  {
    hide *;
    LockedOutKeeps(k, w, arr, form, walk);
    NextIsNew(w);
    ValidFacts(w);
    DataThere(w, arr);
    SeatedIs(w, arr);
    CopiedOutIs(k, w, arr, form, walk);
    LockedOutIs(k, w, arr, form, walk);
    var w0, c, n := CopiedOut(k, w, arr, form, walk), w.next, NewHeader(form, w.next);
    var w1 := Attached(w0, c, arr);
    NewIsPlain(form, c);
    NewIsTrue(form, c);
    IteratedPlain(n);
    IsIteratedIf(n, walk);
    PendingNow(w0, c, arr);
    LeftKeeps(k, w1, c);
    LastUnfolds(k, w1, c);
    LockedBack(k, w, w0, arr, c, n, walk, Left(k, w1, c));
    LowersTo(k, Left(k, w1, c), arr);
  }

  lemma SeatedIs(w: World, a: Ref)
    requires a in w.arrays && Linked(w, a)
    ensures TrueFlags(w.arrays[a])
  {
  }

  lemma IsIteratedIf(h: Header, walk: bool)
    ensures IteratedIf(h, walk) == if walk then Iterated(h) else h
  {
  }

  lemma NewIsTrue(form: Form, data: Ref)
    ensures TrueFlags(NewHeader(form, data))
  {
    NewIsSeated(form, data, seq(Size(form.dims), _ => []));
  }

  /** Iterators do not mind the lock, and a second one changes nothing more. */
  lemma UnlockedTwice(h: Header, locked: Header, walk: bool, back: bool)
    requires locked == IteratedIf(h, walk).(flags := IteratedIf(h, walk).flags - {Writeable}, refs := locked.refs)
    ensures IteratedIf(Unlocked(locked), back).(refs := h.refs) == IteratedIf(Unlocked(h), walk || back)
  {
    var g := IteratedIf(h, walk);
    assert g.flags - {Writeable} + {Writeable} == g.flags + {Writeable};
    assert h.flags - {Fortran} + {Contiguous} + {Writeable} == h.flags + {Writeable} - {Fortran} + {Contiguous};
    hide COrder;
  }

  /** `w3` is what is left when the copy `c` is copied back and gone. */
  lemma LockedBack(k: Casting, w: World, w0: World, arr: Ref, c: Ref, n: Header, walk: bool, w3: World)
    requires arr in w.arrays && arr < c && c !in w.arrays && w.arrays[arr].data in w.memory && w.arrays[arr].data < c
    requires w.arrays[arr].refs > 0 && w.next == c && TrueFlags(w.arrays[arr]) && TrueFlags(n)
    requires w0.arrays == w.arrays[c := IteratedIf(n, walk)][arr := IteratedIf(w.arrays[arr], walk)]
    requires w0.memory.Keys == w.memory.Keys + {c} && w0.trapped == w.trapped
    requires forall m :: m in w.memory && m != c ==> w0.memory[m] == w.memory[m]
    requires n.data == c && n.base.None? && UpdateIfCopy !in n.flags
    requires LeftAs(k, Attached(w0, c, arr), w3, c, arr)
    requires Elements(w0, n) == Converted(k, w.arrays[arr].dtype, n.dtype, Elements(w, w.arrays[arr]))
    ensures arr in w3.arrays && w3.arrays[arr].refs > 1
    ensures GivenBack(k, w, WithRefs(w3, arr, w3.arrays[arr].refs - 1), arr, n,
                      walk || WalksBack(k, w.arrays[arr], n, walk))
  {
    hide Arrived, Around, Places, Gathered, Converted, Iterated, TrueFlags, Traps, CopyWay;
    var h, w1 := w.arrays[arr], Attached(w0, c, arr);
    var b1, c1 := w1.arrays[arr], w1.arrays[c];
    IteratedPlain(h);
    IteratedPlain(n);
    assert c1.Pending() && Copied(k, w1, w3, c1, b1);
    BackAlike(k, h, b1, n, c1, walk, arr);
    BackMemory(k, w, w1, w3, h, b1, n, c1);
    hide Copied, WalksBack;
    BackHeaders(k, w, w1, w3, arr, c, h, b1, c1, w0.arrays[c], w0.arrays[arr], walk);
  }

  /** The headers when the copy is gone and the base has lost its reference. */
  lemma BackHeaders(k: Casting, w: World, w1: World, w3: World, arr: Ref, c: Ref, h: Header, b1: Header, c1: Header,
                    x: Header, y: Header, walk: bool)
    requires arr in w.arrays && c !in w.arrays && h == w.arrays[arr] && c1.Pending()
    requires b1 == IteratedIf(h, walk).(flags := IteratedIf(h, walk).flags - {Writeable}, refs := h.refs + 1)
    requires w1.arrays == w.arrays[c := x][arr := y][c := c1][arr := b1]
    requires w3.arrays == (w1.arrays - {c})[arr := BaseAfter(k, c1, b1)]
    ensures arr in w3.arrays && w3.arrays[arr].refs == h.refs + 1
    ensures WithRefs(w3, arr, h.refs).arrays
            == w.arrays[arr := IteratedIf(Unlocked(h), walk || CopyWay(k, Unlocked(b1), c1).Walk?)]
  {
    hide Iterated, CopyWay;
    var back := CopyWay(k, Unlocked(b1), c1).Walk?;
    UnlockedTwice(h, b1, walk, back);
    IteratedPlain(Unlocked(b1));
    var u := BaseAfter(k, c1, b1);
    hide BaseAfter;
    BackArrays(w.arrays, arr, c, x, y, c1, b1, u, u.(refs := h.refs));
  }

  /** The copy comes and goes. */
  lemma BackArrays(m: map<Ref, Header>, arr: Ref, c: Ref, x: Header, y: Header, x': Header, y': Header, u: Header,
                   v: Header)
    requires arr in m && c !in m
    ensures (m[c := x][arr := y][c := x'][arr := y'] - {c})[arr := u][arr := v] == m[arr := v]
  {
  }

  lemma BackMemory(k: Casting, w: World, w1: World, w3: World, h: Header, b1: Header, n: Header, c1: Header)
    requires Copied(k, w1, w3, c1, b1) && NearlyAlike(h, b1) && NearlyAlike(n, c1)
    requires Traps(k, b1, c1) == Traps(k, h, n) && b1.data == h.data && c1.data == n.data && h.data in w.memory
    requires h.data in w1.memory && w1.memory[h.data] == w.memory[h.data]
    ensures h.data in w3.memory && n.data in w3.memory
    ensures if Traps(k, h, n) then w3.memory[h.data] == w.memory[h.data]
            else
              && Arrived(k, h, n, Elements(w3, h), Elements(w3, n))
              && Around(w.memory[h.data].items, w3.memory[h.data].items, Places(h.layout))
  {
    hide Arrived, Around, Places, Gathered, Traps;
    NearlyArrives(k, h, b1, n, c1, Elements(w3, h), Elements(w3, n));
  }

  /** The headers at the time of the copy back. */
  lemma BackAlike(k: Casting, h: Header, b1: Header, n: Header, c1: Header, walk: bool, arr: Ref)
    requires TrueFlags(h) && TrueFlags(n)
    requires b1 == IteratedIf(h, walk).(flags := IteratedIf(h, walk).flags - {Writeable}, refs := b1.refs)
    requires c1 == IteratedIf(n, walk).(flags := IteratedIf(n, walk).flags + {UpdateIfCopy}, base := Some(arr))
    ensures NearlyAlike(h, b1) && NearlyAlike(n, c1) && Traps(k, b1, c1) == Traps(k, h, n)
    ensures CopyWay(k, Unlocked(b1), c1).Walk? == WalksBack(k, h, n, walk)
  {
    hide TrueFlags, Stores, Equiv;
    IteratedNearly(h);
    IteratedNearly(n);
    var h1, n1 := IteratedIf(h, walk), IteratedIf(n, walk);
    assert Alike(h1, b1) && Alike(n1, c1) && Alike(Unlocked(h1), Unlocked(b1));
    hide Iterated;
    WayAlike(k, Unlocked(h1), Unlocked(b1), n1, c1);
    TrapsNearly(k, h, b1, n, c1);
  }

  lemma IteratedNearly(h: Header)
    requires TrueFlags(h)
    ensures NearlyAlike(h, Iterated(h)) && Iterated(h).layout == h.layout && Iterated(h).dtype == h.dtype
  {
    IteratedSame(h);
    SameNearlyAlike(h, Iterated(h));
  }

  lemma WayAlike(k: Casting, dest: Header, dest': Header, src: Header, src': Header)
    requires Alike(dest, dest') && Alike(src, src') && (Writeable in dest.flags <==> Writeable in dest'.flags)
    ensures CopyWay(k, dest, src) == CopyWay(k, dest', src')
  {
    SimpleAlike(dest, dest', src, src');
    hide Simple, Equiv;
  }

  lemma TrapsNearly(k: Casting, dest: Header, dest': Header, src: Header, src': Header)
    requires NearlyAlike(dest, dest') && NearlyAlike(src, src')
    ensures Traps(k, dest', src') == Traps(k, dest, src)
  {
    if Alike(dest, dest') && Alike(src, src') {
      SimpleAlike(dest, dest', src, src');
    }
    hide Simple, Equiv;
  }

  lemma LockedOutIs(k: Casting, w: World, arr: Ref, form: Form, walk: bool)
    requires arr in w.arrays && w.arrays[arr].data in w.memory && Size(form.dims) == w.arrays[arr].Count()
    ensures w.next in CopiedOut(k, w, arr, form, walk).arrays && arr in CopiedOut(k, w, arr, form, walk).arrays
    ensures LockedOut(k, w, arr, form, walk) == Attached(CopiedOut(k, w, arr, form, walk), w.next, arr)
  {
    hide Allocated;
  }

  lemma PendingNow(w: World, c: Ref, arr: Ref)
    requires c in w.arrays && arr in w.arrays && c != arr
    ensures var w1 := Attached(w, c, arr);
            c in w1.arrays && w1.arrays[c].base == Some(arr) && w1.arrays[c].refs == w.arrays[c].refs
  {
  }

  lemma LowersTo(k: Casting, w: World, a: Ref)
    requires a in w.arrays && w.arrays[a].refs > 1
    ensures Decref(k, w, a) == WithRefs(w, a, w.arrays[a].refs - 1)
  {
  }

  /** `arr` shows its elements after a round trip through `dtype`, each where it was,
      and all other items and headers are as they were; so is its own, but for a
      row-major flag that iterators brought up to date. */
  ghost predicate Restored(k: Casting, w: World, w2: World, arr: Ref, dtype: DType, walk: bool)
    requires arr in w.arrays
  {
    var h := w.arrays[arr];
    && h.data in w.memory && h.data in w2.memory && w2.trapped == w.trapped
    && w2.arrays == w.arrays[arr := IteratedIf(h, walk)]
    && (w2.arrays == w.arrays <==> !(walk && Relabels(h)))
    && Elements(w2, h) == Converted(k, dtype, h.dtype, Converted(k, h.dtype, dtype, Elements(w, h)))
    && Around(w.memory[h.data].items, w2.memory[h.data].items, Places(h.layout))
    && forall m :: m in w.memory && m < w.next && m != h.data ==> m in w2.memory && w2.memory[m] == w.memory[m]
  }

  /** A copy that was filled in one run, or not at all, goes back likewise. */
  lemma BackLikewise(k: Casting, h: Header, n: Header)
    requires !Fills(k, n, h) && n.Count() == h.Count()
    ensures !WalksBack(k, h, n, false)
  {
  }

  lemma WriteableIs(h: Header)
    requires Writeable in h.flags
    ensures Unlocked(h) == h
  {
    assert h.flags + {Writeable} == h.flags;
  }

  lemma CopyAndBack(k: Casting, w: World, arr: Ref, dtype: DType, want: set<Flag>, aligned: bool)
    requires Valid(w) && arr in w.arrays && UpdateIfCopy in want && w.arrays[arr].data in w.memory
    ensures var h, m := w.arrays[arr], MadeCopy(k, w, arr, dtype, want, aligned);
            var n := NewHeader(CopyForm(dtype, h, want, aligned), w.next);
            m.Made? ==>
              && m.ret in m.world.arrays
              && var w2 := Decref(k, m.world, m.ret);
                 if Traps(k, h, n) then w2.trapped else Restored(k, w, w2, arr, dtype, Fills(k, n, h))
  {
    hide Valid, LockedOut, Decref, Arrived, Around, Elements, Iterated, Fills, WalksBack, Traps, Relabels;
    var h := w.arrays[arr];
    if Writeable in h.flags {
      WriteableIsFree(w, arr);
      var form := CopyForm(dtype, h, want, aligned);
      var n := NewHeader(form, w.next);
      var walk := Fills(k, n, h);
      LockedOutAndBack(k, w, arr, form, walk);
      WriteableIs(h);
      if !walk {
        BackLikewise(k, h, n);
      }
      DataThere(w, arr);
      SeatedIs(w, arr);
      IteratedTrue(h);
      SameArrays(w, arr, IteratedIf(h, walk));
      NewDims(form, w.next);
      NewIsPlain(form, w.next);
      hide NewHeader, TrueFlags;
      var m := MadeCopy(k, w, arr, dtype, want, aligned);
      if !Traps(k, h, n) {
        SameShapeArrives(k, h, n, Elements(Decref(k, m.world, m.ret), h), Converted(k, h.dtype, dtype, Elements(w, h)));
      }
    }
  }

  lemma NewDims(form: Form, data: Ref)
    ensures NewHeader(form, data).layout.dims == form.dims && NewHeader(form, data).layout.aligned == form.aligned
  {
  }

  lemma SameArrays(w: World, a: Ref, h: Header)
    requires a in w.arrays
    ensures w.arrays[a := h] == w.arrays <==> h == w.arrays[a]
  {
    if h == w.arrays[a] {
      assert w.arrays[a := h] == w.arrays;
    } else {
      assert w.arrays[a := h][a] != w.arrays[a];
    }
  }

  /** Only a copy waits to be copied back. */
  lemma PendingIsCopy(k: Casting, w: World, arr: Ref, wanted: Option<DType>, want: set<Flag>, aligned: bool)
    requires arr in w.arrays && w.arrays[arr].data in w.memory && w.next !in w.arrays && w.arrays[arr].data < w.next
    ensures var m := FromArray(k, w, arr, wanted, want, aligned);
            m.Made? && m.ret != arr && Holds(m.world, m.ret, arr) ==>
              m == MadeCopy(k, w, arr, if wanted.None? then w.arrays[arr].dtype else wanted.value, want, aligned)
              && UpdateIfCopy in want
  {
    var h := w.arrays[arr];
    FromArrayBranches(k, w, arr, wanted, want, aligned);
    ViewIsPlain(h, h.layout, arr);
    PlainCopy(k, w, arr, if wanted.None? then h.dtype else wanted.value, want, aligned);
    hide FromArray, MadeCopy, AsIs, ViewHeader;
  }

  lemma PlainCopy(k: Casting, w: World, arr: Ref, dtype: DType, want: set<Flag>, aligned: bool)
    requires arr in w.arrays && w.arrays[arr].data in w.memory && w.next !in w.arrays && w.arrays[arr].data < w.next
    ensures var m := MadeCopy(k, w, arr, dtype, want, aligned);
            m.Made? && Holds(m.world, m.ret, arr) ==> UpdateIfCopy in want
  {
    hide NewHeader, CopiedOut, LockedOut, Fills, Iterated;
    var h := w.arrays[arr];
    var form := CopyForm(dtype, h, want, aligned);
    var n := NewHeader(form, w.next);
    CopiedOutIs(k, w, arr, form, Fills(k, n, h));
    NewIsPlain(form, w.next);
    IteratedPlain(n);
  }

  /** Taking a pending copy and releasing it restores the array, whatever the memory
      order of the copy, unless the copy goes back through an axis that neither has:
      both have none, their types are equivalent, and the array is not aligned or
      not native. */
  lemma FromArrayAndBack(k: Casting, w: World, arr: Ref, wanted: Option<DType>, want: set<Flag>, aligned: bool)
    requires Valid(w) && arr in w.arrays
    ensures w.arrays[arr].data in w.memory && w.next != arr
    ensures var h, m := w.arrays[arr], FromArray(k, w, arr, wanted, want, aligned);
            var dtype := if wanted.None? then h.dtype else wanted.value;
            var n := NewHeader(CopyForm(dtype, h, want, aligned), w.next);
            m.Made? && m.ret != arr && Holds(m.world, m.ret, arr) ==>
              && (Traps(k, h, n) <==>
                    h.Nd() == 0 && Equiv(k, h.dtype, dtype) && !(h.dtype.native && Aligned in h.flags))
              && var w2 := Decref(k, m.world, m.ret);
                 if Traps(k, h, n) then w2.trapped else Restored(k, w, w2, arr, dtype, Fills(k, n, h))
  {
    hide Valid, Children, FromArray, MadeCopy, Decref, Restored, Fills, TrueFlags;
    FromArrayKeeps(k, w, arr, wanted, want, aligned);
    NextIsNew(w);
    PendingIsCopy(k, w, arr, wanted, want, aligned);
    var h := w.arrays[arr];
    var dtype := if wanted.None? then h.dtype else wanted.value;
    DataThere(w, arr);
    ZeroAxes(k, h, dtype, want, aligned, w.next);
    hide Traps, NewHeader;
    if UpdateIfCopy in want {
      CopyAndBack(k, w, arr, dtype, want, aligned);
    }
  }

  /** When a copy back comes to a null pointer. */
  lemma ZeroAxes(k: Casting, h: Header, dtype: DType, want: set<Flag>, aligned: bool, ret: Ref)
    requires TrueFlags(h)
    ensures Traps(k, h, NewHeader(CopyForm(dtype, h, want, aligned), ret)) <==>
              h.Nd() == 0 && Equiv(k, h.dtype, dtype) && !(h.dtype.native && Aligned in h.flags)
  {
  }

  /** A pending C-ordered copy of an array that an iterator relabels, taken and released
      untouched: the array has become C-contiguous. */
  lemma RelabelledBack(k: Casting, w: World, arr: Ref)
    requires Valid(w) && arr in w.arrays && Relabels(w.arrays[arr]) && Writeable in w.arrays[arr].flags
    requires Contiguous !in w.arrays[arr].flags
    ensures w.arrays[arr].data in w.memory && w.next != arr
    ensures var m := FromArray(k, w, arr, None, {Contiguous, UpdateIfCopy, ForceCast}, true);
            && m.Made? && m.ret in m.world.arrays
            && var w2 := Decref(k, m.world, m.ret);
               arr in w2.arrays && Contiguous in w2.arrays[arr].flags && Fortran !in w2.arrays[arr].flags
  {
    hide Valid, FromArray, MadeCopy, COrder, Converted, Elements, NewLayout, Decref, Serves, Around, Traps;
    var h, want := w.arrays[arr], {Contiguous, UpdateIfCopy, ForceCast};
    NextIsNew(w);
    FromArrayServes(k, w, arr, None, want, true);
    FromArrayAndBack(k, w, arr, None, want, true);
    NewDims(CopyForm(h.dtype, h, want, true), w.next);
  }

  lemma CopyBackRelabels(k: Casting, dtype: DType, item: Item)
    ensures var w := Allocated(NOTHING, OneByOneForm(dtype, true), [item]);
            var m := FromArray(k, w, 0, None, {Contiguous, UpdateIfCopy, ForceCast}, true);
            && Valid(w) && Fortran in w.arrays[0].flags && m.Made? && m.ret in m.world.arrays
            && var w2 := Decref(k, m.world, m.ret);
               0 in w2.arrays && Contiguous in w2.arrays[0].flags && Fortran !in w2.arrays[0].flags
  {
    hide *;
    OneByOneHeader(dtype, true, 0);
    OnlyArray(OneByOneForm(dtype, true), [item]);
    RelabelledBack(k, Allocated(NOTHING, OneByOneForm(dtype, true), [item]), 0);
  }

  // ----- What the lock protects

  /** Which memory a copy writes. */
  lemma CopyChanges(k: Casting, w: World, d: Ref, s: Ref, m: Ref)
    requires d in w.arrays && w.arrays[d].data in w.memory && s in w.arrays && w.arrays[s].data in w.memory
    requires m in w.memory
    ensures var w', way := CopyAnyInto(k, w, d, s), CopyWay(k, w.arrays[d], w.arrays[s]);
            && m in w'.memory
            && (w'.memory[m] != w.memory[m] <==> m == w.arrays[d].data && (way.OneRun? || way.Walk?))
            && (way.Nothing? ==> w' == w)
  {
    hide Scattered, Gathered, Order, Converted, Iterated, Stores, Traps, Simple;
    assert With(w, s, w.arrays[s]).arrays == w.arrays;
  }

  /** While `c` waits to be copied back into `b`, a copy into any array writes the
      memory of `b` exactly if that array shares it and is writeable, and the copy
      is neither refused nor empty nor comes to a null pointer; a copy into `b`
      itself does nothing. */
  lemma LockHolds(k: Casting, w: World, c: Ref, b: Ref, dest: Ref, src: Ref)
    requires Valid(w) && Holds(w, c, b) && dest in w.arrays && src in w.arrays
    ensures b in w.arrays && w.arrays[b].data in w.memory
    ensures w.arrays[dest].data in w.memory && w.arrays[src].data in w.memory
    ensures var w', d, s := CopyAnyInto(k, w, dest, src), w.arrays[dest], w.arrays[src];
            && w.arrays[b].data in w'.memory
            && (w'.memory[w.arrays[b].data] != w.memory[w.arrays[b].data]
                <==> d.data == w.arrays[b].data && Writeable in d.flags && Stores(k, d, s) && d.Count() == s.Count()
                     && !Traps(k, d, s))
            && (dest == b ==> w' == w)
  {
    hide Valid, CopyAnyInto, Stores, Traps, Simple;
    HolderSound(w, c, b);
    DataThere(w, dest);
    DataThere(w, src);
    CopyChanges(k, w, dest, src, w.arrays[b].data);
    OneRunOrTrap(k, w.arrays[dest], w.arrays[src]);
  }

  lemma OneRunOrTrap(k: Casting, d: Header, s: Header)
    ensures !(Simple(d, s) && Traps(k, d, s))
  {
  }

  /** A view made before the lock stays writeable and shares the memory. */
  lemma ViewBeforeLock(k: Casting, w: World, arr: Ref, layout: Layout, form: Form, walk: bool)
    requires Valid(w) && Viewable(w, arr, layout) && Writeable in w.arrays[arr].flags
    requires Size(form.dims) == w.arrays[arr].Count()
    ensures w.next != arr && w.arrays[arr].data in w.memory
    ensures var w1 := Viewed(w, arr, layout);
            var w2 := LockedOut(k, w1, arr, form, walk);
            && Valid(w2) && Holds(w2, w1.next, arr)
            && w.next in w2.arrays && Writeable in w2.arrays[w.next].flags
            && w2.arrays[w.next].data == w2.arrays[arr].data
  {
    hide Valid, Children, CopiedOut, TestedFlags, NewHeader, Iterated;
    NextIsNew(w);
    DataThere(w, arr);
    ViewedKeeps(w, arr, layout);
    var w1 := Viewed(w, arr, layout);
    WriteableIsFree(w1, arr);
    LockedOutKeeps(k, w1, arr, form, walk);
    NextIsNew(w1);
    CopiedOutIs(k, w1, arr, form, walk);
    IteratedPlain(NewHeader(form, w1.next));
    IteratedPlain(w1.arrays[arr]);
  }
}
