/**
 The table of live arrays and the routines that change it, statement by statement
 (libndarray/src/npy_ctors.c, npy_convert_datatype.c, npy_iterators.c,
 npy_arrayobject.c, npy_shape.c, npy_mapping.c). The state after each routine is the
 one that the other copy-back modules reason about.
 */
module ArrayHeap {
  import opened Copying
  import opened NdArray
  import opened NewArrays
  import opened Releasing
  import opened Shape
  import opened Storage
  import opened WriteBack
  import opened Wrappers
  import A = Assignments
  import B = Broadcasts
  import F = ForcedUpdates
  import FL = Fillings
  import FV = FlatViews
  import I = Indexing
  import M = Moves
  import O = Overlaps
  import R = Requests
  import SizeGuard
  import Sub = Subscripts
  import V = IndexViews

  datatype Status = Done | CastError | ReadOnlyError

  class Heap {
    const casting: Casting
    var arrays: map<Ref, Header>
    var memory: map<Ref, Block>
    var next: Ref
    var trapped: bool

    constructor (casting: Casting)
      ensures this.casting == casting && Now() == NOTHING && Valid(Now())
    {
      this.casting, arrays, memory, next, trapped := casting, map[], map[], 0, false;
    }

    function Now(): World
      reads this
    {
      World(arrays, memory, next, trapped)
    }

    ghost predicate There(a: Ref)
      reads this
    {
      a in arrays && Seated(Now(), arrays[a])
    }

    lemma ThereWhenValid(a: Ref)
      requires Valid(Now()) && a in arrays
      ensures There(a)
    {
      hide Seated;
      DataThere(Now(), a);
    }

    // ----- Iterators

    static method AsObject(elsize: ItemSize, layout: Layout, flags: set<Flag>) returns (ao: ArrayObject)
      ensures fresh(ao) && ao.Valid() && ao.flags == flags && ao.dims.Length == |layout.dims|
      ensures ao.C() == COrder(elsize, layout) && ao.F() == FOrder(elsize, layout)
    {
      hide CContiguous, FContiguous;
      var n := |layout.dims|;
      var dims := new int[n](i requires 0 <= i < n => layout.dims[i]);
      var strides := new int[n](i requires 0 <= i < n => layout.strides[i]);
      assert dims[..] == layout.dims && strides[..] == layout.strides;
      ao := new ArrayObject(dims, strides, elsize, flags);
    }

    /** `NpyArray_IterNew`: `NpyArray_UpdateFlags(ao, NPY_CONTIGUOUS)` */
    method IterNew(a: Ref)
      requires a in arrays && TrueFlags(arrays[a])
      modifies this`arrays
      ensures Now() == old(With(Now(), a, Iterated(arrays[a])))
    {
      hide ArrayObject.C, ArrayObject.F, ArrayObject.Valid, COrder, FOrder;
      var h := arrays[a];
      var ao := AsObject(h.dtype.elsize, h.layout, h.flags);
      ao.UpdateFlags({Contiguous}, h.layout.aligned, false);
      assert forall x :: x in ao.flags <==> x in Iterated(h).flags;
      assert ao.flags == Iterated(h).flags;
      arrays := arrays[a := h.(flags := ao.flags)];
    }

    static ghost function IteratedBoth(arrays: map<Ref, Header>, d: Ref, s: Ref): map<Ref, Header>
      requires d in arrays && s in arrays
    {
      var first := arrays[d := Iterated(arrays[d])];
      first[s := Iterated(first[s])]
    }

    method IterBoth(dest: Ref, src: Ref)
      requires dest in arrays && src in arrays && TrueFlags(arrays[dest]) && TrueFlags(arrays[src])
      modifies this`arrays
      ensures arrays == IteratedBoth(old(arrays), dest, src)
    {
      hide TrueFlags, Iterated;
      IteratedTrue(arrays[dest]);
      IterNew(dest);
      IterNew(src);
    }

    /** The places that two iterators walk over can be read, and are not overwritten. */
    static ghost predicate Walkable(w: World, d: Header, s: Header, dl: Layout, sl: Layout) {
      && d.data in w.memory && s.data in w.memory && Size(dl.dims) == Size(sl.dims)
      && (forall p :: p in Places(sl) ==> p in w.memory[s.data].items)
      && (d.data == s.data ==> forall p :: p in Places(sl) ==> p !in Places(dl))
    }

    /** The state after `i` items. */
    static ghost function CopiedUpTo(k: Casting, w: World, d: Header, s: Header, dl: Layout, sl: Layout, i: nat): World
      requires d.data in w.memory && s.data in w.memory && i <= Size(dl.dims) == Size(sl.dims)
    {
      var values := Converted(k, s.dtype, d.dtype, Gathered(w.memory[s.data].items, Places(sl)));
      WithBlock(w, d.data, Scattered(w.memory[d.data].items, Places(dl)[..i], values[..i]))
    }

    /** What is read has not been overwritten. */
    static lemma ReadsOld(k: Casting, w: World, d: Header, s: Header, dl: Layout, sl: Layout, i: nat)
      requires Walkable(w, d, s, dl, sl) && i < Size(dl.dims)
      ensures var w' := CopiedUpTo(k, w, d, s, dl, sl, i);
              && s.data in w'.memory && Place(sl, i) in w'.memory[s.data].items
              && w'.memory[s.data].items[Place(sl, i)] == Gathered(w.memory[s.data].items, Places(sl))[i]
    {
      hide Place, Scattered;
      var values := Converted(k, s.dtype, d.dtype, Gathered(w.memory[s.data].items, Places(sl)));
      ScatteredKeys(w.memory[d.data].items, Places(dl)[..i], values[..i]);
      assert Places(sl)[i] in Places(sl);
    }

    static lemma OneItemMore(k: Casting, w: World, d: Header, s: Header, dl: Layout, sl: Layout, i: nat)
      requires d.data in w.memory && s.data in w.memory && i < Size(dl.dims) == Size(sl.dims)
      ensures var values := Converted(k, s.dtype, d.dtype, Gathered(w.memory[s.data].items, Places(sl)));
              var w', w2 := CopiedUpTo(k, w, d, s, dl, sl, i), CopiedUpTo(k, w, d, s, dl, sl, i + 1);
              && d.data in w'.memory
              && w2 == w'.(memory := w'.memory[d.data := w'.memory[d.data].(items :=
                             w'.memory[d.data].items[Place(dl, i) := values[i]])])
    {
      hide Place, Scattered, Converted, Gathered;
      var values := Converted(k, s.dtype, d.dtype, Gathered(w.memory[s.data].items, Places(sl)));
      OneMore(w.memory[d.data].items, Places(dl), values, i);
    }

    method CopyItem(ghost w: World, d: Header, s: Header, dl: Layout, sl: Layout, i: nat)
      requires Walkable(w, d, s, dl, sl) && i < Size(dl.dims) && Now() == CopiedUpTo(casting, w, d, s, dl, sl, i)
      modifies this`memory
      ensures Now() == CopiedUpTo(casting, w, d, s, dl, sl, i + 1)
    {
      hide Place, Places, CopiedUpTo, Gathered;
      ReadsOld(casting, w, d, s, dl, sl, i);
      OneItemMore(casting, w, d, s, dl, sl, i);
      var item := memory[s.data].items[Place(sl, i)];
      var value := if Equiv(casting, d.dtype, s.dtype) then item else casting.cast(s.dtype, d.dtype, item);
      var block := memory[d.data];
      memory := memory[d.data := block.(items := block.items[Place(dl, i) := value])];
    }

    static lemma NoneCopied(k: Casting, w: World, d: Header, s: Header, dl: Layout, sl: Layout)
      requires d.data in w.memory && s.data in w.memory && Size(dl.dims) == Size(sl.dims)
      ensures CopiedUpTo(k, w, d, s, dl, sl, 0) == WithBlock(w, d.data, w.memory[d.data].items)
    {
      hide Places, Gathered, Converted;
    }

    static lemma AllCopied(k: Casting, w: World, d: Header, s: Header, dl: Layout, sl: Layout)
      requires d.data in w.memory && s.data in w.memory && Size(dl.dims) == Size(sl.dims)
      ensures var values := Converted(k, s.dtype, d.dtype, Gathered(w.memory[s.data].items, Places(sl)));
              CopiedUpTo(k, w, d, s, dl, sl, Size(dl.dims))
              == WithBlock(w, d.data, Scattered(w.memory[d.data].items, Places(dl), values))
    {
      hide Place, Scattered, Gathered, Converted;
      var n := Size(dl.dims);
      var values := Converted(k, s.dtype, d.dtype, Gathered(w.memory[s.data].items, Places(sl)));
      assert Places(dl)[..n] == Places(dl) && values[..n] == values;
    }

    /** Two iterators walk over the arrays, laid out as `dl` and `sl`. */
    method CopyItems(d: Header, s: Header, dl: Layout, sl: Layout)
      requires Walkable(Now(), d, s, dl, sl)
      modifies this`memory
      ensures Now() == old(WithBlock(Now(), d.data, Scattered(memory[d.data].items, Places(dl),
                Converted(casting, s.dtype, d.dtype, Gathered(memory[s.data].items, Places(sl))))))
    {
      hide Place, Places, CopiedUpTo, Gathered, Walkable, Converted, Scattered;
      ghost var w := Now();
      WalkableNow(w, d, s, dl, sl);
      NoneCopied(casting, w, d, s, dl, sl);
      memory := memory[d.data := memory[d.data].(writes := memory[d.data].writes + 1)];
      for i := 0 to Size(dl.dims)
        invariant Now() == CopiedUpTo(casting, w, d, s, dl, sl, i)
      {
        CopyItem(w, d, s, dl, sl, i);
      }
      AllCopied(casting, w, d, s, dl, sl);
    }

    static lemma WalkableNow(w: World, d: Header, s: Header, dl: Layout, sl: Layout)
      requires Walkable(w, d, s, dl, sl)
      ensures d.data in w.memory && s.data in w.memory && Size(dl.dims) == Size(sl.dims)
    {
    }

    // ----- Copying

    /** `memcpy`, or the cast function on all items at once. */
    method CopyRun(d: Header, s: Header)
      requires d.data in memory && s.data in memory && Simple(d, s) && d.Count() == s.Count()
      modifies this`memory
      ensures Now() == old(Stored(casting, Now(), d, s))
    {
      hide Run, Scattered, Gathered, Converted, Equiv, Simple;
      var block := memory[d.data];
      var run := Gathered(memory[s.data].items, Run(s.layout, s.dtype.elsize));
      var items := Scattered(block.items, Run(d.layout, d.dtype.elsize), Converted(casting, s.dtype, d.dtype, run));
      memory := memory[d.data := Block(items, block.writes + 1)];
    }

    /** Iterators are made over both arrays and walk over them in row-major order. */
    method CopyByIterators(dest: Ref, src: Ref)
      requires There(dest) && There(src) && M.Apart(arrays[dest], arrays[src])
      requires arrays[dest].Count() == arrays[src].Count() && !Simple(arrays[dest], arrays[src])
      modifies this`arrays, this`memory
      ensures arrays == IteratedBoth(old(arrays), dest, src)
      ensures memory == old(Stored(casting, Now(), arrays[dest], arrays[src]).memory)
    {
      hide TrueFlags, Laid, Place, Scattered, Gathered, Converted, Iterated, IteratedBoth, Equiv, Simple;
      var d, s := arrays[dest], arrays[src];
      ghost var w := Now();
      SeatedWalks(w, d, s);
      IterBoth(dest, src);
      CopyItems(d, s, d.layout, s.layout);
    }

    static lemma SeatedWalks(w: World, d: Header, s: Header)
      requires Seated(w, d) && Seated(w, s) && M.Apart(d, s) && d.Count() == s.Count()
      ensures forall v: World :: v.memory == w.memory ==> Walkable(v, d, s, d.layout, s.layout)
    {
      hide TrueFlags, Places;
    }

    /** The state after `t` items in turn. */
    static ghost function TurnedUpTo(w: World, d: Header, s: Header, to: seq<int>, from: seq<int>, t: nat): World
      requires d.data in w.memory && s.data in w.memory && t <= |to| == |from|
    {
      WithBlock(w, d.data, M.ItemByItem(w.memory[d.data].items, d.data == s.data, w.memory[s.data].items,
                                        to[..t], from[..t]))
    }

    static lemma OneTurnMore(w: World, d: Header, s: Header, to: seq<int>, from: seq<int>, t: nat)
      requires d.data in w.memory && s.data in w.memory && t < |to| == |from|
      requires forall p :: p in from ==> p in w.memory[s.data].items
      ensures var w', w2 := TurnedUpTo(w, d, s, to, from, t), TurnedUpTo(w, d, s, to, from, t + 1);
              && d.data in w'.memory && s.data in w'.memory && from[t] in w'.memory[s.data].items
              && w2 == w'.(memory := w'.memory[d.data := w'.memory[d.data].(items :=
                             w'.memory[d.data].items[to[t] := w'.memory[s.data].items[from[t]]])])
    {
      assert to[..t + 1][..t] == to[..t] && from[..t + 1][..t] == from[..t];
      var p := from[t];
      assert p in from;
      if d.data == s.data {
        O.InTurnKeys(w.memory[d.data].items, to[..t], from[..t]);
      } else {
        OneMore(w.memory[d.data].items, to[..t + 1], Gathered(w.memory[s.data].items, from[..t + 1]), t);
        assert Gathered(w.memory[s.data].items, from[..t + 1])[..t] == Gathered(w.memory[s.data].items, from[..t]);
      }
    }

    static lemma NoTurn(w: World, d: Header, s: Header, to: seq<int>, from: seq<int>)
      requires d.data in w.memory && s.data in w.memory && |to| == |from|
      ensures TurnedUpTo(w, d, s, to, from, 0) == WithBlock(w, d.data, w.memory[d.data].items)
    {
    }

    static lemma AllTurns(w: World, d: Header, s: Header, to: seq<int>, from: seq<int>)
      requires d.data in w.memory && s.data in w.memory && |to| == |from|
      ensures TurnedUpTo(w, d, s, to, from, |to|)
              == WithBlock(w, d.data, M.ItemByItem(w.memory[d.data].items, d.data == s.data, w.memory[s.data].items,
                                                   to, from))
    {
      hide M.ItemByItem;
      assert to[..|to|] == to && from[..|to|] == from;
    }

    /** The strided copy of one line, item by item. */
    method CopyLine(ghost w: World, d: Header, s: Header, ghost to: seq<int>, ghost from: seq<int>, ghost t: nat,
                    dptr: int, dstride: int, sptr: int, sstride: int, n: nat)
      requires d.data in w.memory && s.data in w.memory && t + n <= |to| == |from|
      requires forall p :: p in from ==> p in w.memory[s.data].items
      requires forall x: nat :: x < n ==> to[t + x] == dptr + x * dstride && from[t + x] == sptr + x * sstride
      requires Now() == TurnedUpTo(w, d, s, to, from, t)
      modifies this`memory
      ensures Now() == TurnedUpTo(w, d, s, to, from, t + n)
    {
      hide TurnedUpTo;
      var tout, tin := dptr, sptr;
      for x := 0 to n
        invariant tout == dptr + x * dstride && tin == sptr + x * sstride
        invariant Now() == TurnedUpTo(w, d, s, to, from, t + x)
      {
        OneTurnMore(w, d, s, to, from, t + x);
        var block := memory[d.data];
        memory := memory[d.data := block.(items := block.items[tout := memory[s.data].items[tin]])];
        tout, tin := tout + dstride, tin + sstride;
      }
    }

    /** Line `o` along `axis`. */
    method CopyLineAt(ghost w: World, d: Header, s: Header, dl: Layout, sl: Layout, axis: nat, o: nat)
      requires d.data in w.memory && s.data in w.memory && dl.dims == sl.dims && axis < |dl.dims|
      requires forall p :: p in O.VisitedPlaces(sl, axis) ==> p in w.memory[s.data].items
      requires Positive(dl.dims[axis := 1]) && o * dl.dims[axis] + dl.dims[axis] <= Size(dl.dims)
      requires Now() == TurnedUpTo(w, d, s, O.VisitedPlaces(dl, axis), O.VisitedPlaces(sl, axis), o * dl.dims[axis])
      modifies this`memory
      ensures Now() == TurnedUpTo(w, d, s, O.VisitedPlaces(dl, axis), O.VisitedPlaces(sl, axis),
                                  o * dl.dims[axis] + dl.dims[axis])
    {
      hide Place, O.Visit, M.ItemByItem, O.LineStart, TurnedUpTo;
      ghost var to, from := O.VisitedPlaces(dl, axis), O.VisitedPlaces(sl, axis);
      var n := dl.dims[axis];
      forall x: nat | x < n
        ensures to[o * n + x] == O.LineStart(dl, axis, o) + x * dl.strides[axis]
        ensures from[o * n + x] == O.LineStart(sl, axis, o) + x * sl.strides[axis]
      {
        O.LinePlace(dl, axis, o, x);
        O.LinePlace(sl, axis, o, x);
      }
      hide O.VisitedPlaces;
      CopyLine(w, d, s, to, from, o * n, O.LineStart(dl, axis, o), dl.strides[axis],
               O.LineStart(sl, axis, o), sl.strides[axis], n);
    }

    /** One line after the other along `axis`, whose length goes into the size. */
    method CopyLines(d: Header, s: Header, dl: Layout, sl: Layout, axis: nat)
      requires d.data in memory && s.data in memory && dl.dims == sl.dims && axis < |dl.dims|
      requires forall p :: p in O.VisitedPlaces(sl, axis) ==> p in memory[s.data].items
      modifies this`memory
      ensures Now() == old(WithBlock(Now(), d.data, M.ItemByItem(memory[d.data].items, d.data == s.data,
                memory[s.data].items, O.VisitedPlaces(dl, axis), O.VisitedPlaces(sl, axis))))
    {
      hide Place, Places, O.Visit, M.ItemByItem, O.VisitedPlaces, TurnedUpTo, Size;
      ghost var w := Now();
      ghost var to, from := O.VisitedPlaces(dl, axis), O.VisitedPlaces(sl, axis);
      NoTurn(w, d, s, to, from);
      AllTurns(w, d, s, to, from);
      memory := memory[d.data := memory[d.data].(writes := memory[d.data].writes + 1)];
      var n, size := dl.dims[axis], Size(dl.dims);
      if size != 0 {
        O.LinesFit(dl.dims, axis);
        var lines := size / n;
        for o := 0 to lines
          invariant o * n <= size && Now() == TurnedUpTo(w, d, s, to, from, o * n)
        {
          LineWithin(o, lines, n);
          CopyLineAt(w, d, s, dl, sl, axis, o);
        }
      }
    }

    static lemma LineWithin(o: nat, lines: nat, n: nat)
      requires o < lines
      ensures o * n + n == (o + 1) * n <= lines * n
    {
      ProductLess(o + 1, lines, n);
    }

    static lemma ProductLess(a: nat, b: nat, n: nat)
      requires a <= b
      ensures a * n <= b * n
    {
    }

    /** `_copy_from_same_shape`: without axes there is no axis to copy along. */
    method CopyFromSameShape(dest: Ref, src: Ref)
      requires There(dest) && There(src)
      requires arrays[dest].layout.dims == arrays[src].layout.dims
      modifies this`arrays, this`memory, this`trapped
      ensures trapped == (old(trapped) || old(arrays[dest]).Nd() == 0)
      ensures B.Fits(old(arrays[dest]).layout.dims, old(arrays[src]).layout.dims)
      ensures if old(arrays[dest]).Nd() == 0 then arrays == old(arrays) && memory == old(memory)
              else
                && arrays == IteratedBoth(old(arrays), dest, src)
                && memory == old(TurnedTogether(Now(), arrays[dest], arrays[src]).memory)
    {
      hide TrueFlags, Laid, IteratedBoth, M.ItemByItem, O.VisitedPlaces, O.LeastAxis, Places;
      var d, s := arrays[dest], arrays[src];
      B.SameShapeMeets(d.layout.dims, seq(d.Count(), _ => 0));
      if d.Nd() == 0 {
        NoAxesStay(arrays, dest, src);
        IterBoth(dest, src);
        trapped := true;
      } else {
        SameShapePlaces(d.layout, s.layout);
        ReadsInside(Now(), s, O.LeastAxis(d.layout.strides));
        IterBoth(dest, src);
        var axis := O.FindLeastAxis(d.layout.strides);
        CopyLines(d, s, d.layout, s.layout, axis);
      }
    }

    /** What copying item by item makes of the world. */
    static ghost function TurnedTogether(w: World, d: Header, s: Header): World
      requires d.data in w.memory && s.data in w.memory && B.Fits(d.layout.dims, s.layout.dims) && s.Nd() > 0
    {
      WithBlock(w, d.data, M.ItemByItem(w.memory[d.data].items, d.data == s.data, w.memory[s.data].items,
                                        M.WrittenPlaces(d.layout, s.layout), M.ReadPlaces(d.layout, s.layout)))
    }

    static lemma SameShapePlaces(dl: Layout, sl: Layout)
      requires dl.dims == sl.dims && dl.dims != []
      ensures B.Fits(dl.dims, sl.dims)
      ensures M.WrittenPlaces(dl, sl) == O.VisitedPlaces(dl, O.LeastAxis(dl.strides))
      ensures M.ReadPlaces(dl, sl) == O.VisitedPlaces(sl, O.LeastAxis(dl.strides))
    {
      B.SameShapeMeets(dl.dims, seq(Size(dl.dims), _ => 0));
      assert B.Stretched(dl, dl.dims) == dl && B.Stretched(sl, sl.dims) == sl;
    }

    static lemma ReadsInside(w: World, s: Header, axis: nat)
      requires Seated(w, s) && axis < s.Nd()
      ensures forall p :: p in O.VisitedPlaces(s.layout, axis) ==> p in w.memory[s.data].items
    {
      hide TrueFlags, Places, O.VisitedPlaces;
      O.VisitedAll(s.layout, axis);
    }

    static lemma NoAxesStay(arrays: map<Ref, Header>, d: Ref, s: Ref)
      requires d in arrays && s in arrays && arrays[d].Nd() == arrays[s].Nd() == 0
      ensures IteratedBoth(arrays, d, s) == arrays
    {
      assert arrays[d := arrays[d]] == arrays && arrays[s := arrays[s]] == arrays;
    }

    static lemma CopiedEither(k: Casting, w: World, d: Ref, s: Ref)
      requires d in w.arrays && w.arrays[d].data in w.memory && s in w.arrays && w.arrays[s].data in w.memory
      ensures var w', way := Copying.CopyAnyInto(k, w, d, s), CopyWay(k, w.arrays[d], w.arrays[s]);
              && (way.Nothing? ==> w' == w)
              && (way.Trap? ==> w' == w.(trapped := true))
              && (way.OneRun? ==> w' == Stored(k, w, w.arrays[d], w.arrays[s]))
              && (way.Walk? ==> w' == World(IteratedBoth(w.arrays, d, s),
                                            Stored(k, w, w.arrays[d], w.arrays[s]).memory, w.next, w.trapped))
    {
      hide Iterated, Scattered, Gathered, Converted, Order, CopyWay;
      assert w.arrays[s := w.arrays[s]] == w.arrays;
    }

    method CopyAnyInto(dest: Ref, src: Ref) returns (ok: bool)
      requires There(dest) && There(src) && M.Apart(arrays[dest], arrays[src])
      modifies this`arrays, this`memory, this`trapped
      ensures ok <==> !old(Refused(casting, arrays[dest], arrays[src]))
      ensures Now() == old(Copying.CopyAnyInto(casting, Now(), dest, src))
    {
      hide TrueFlags, Laid, Stored, Simple, Copying.CopyAnyInto, Equiv, IteratedBoth, TurnedTogether;
      hide B.Fits, M.Apart;
      CopiedEither(casting, Now(), dest, src);
      var d, s := arrays[dest], arrays[src];
      if !Equiv(casting, d.dtype, s.dtype) {
        ok := CastAnyTo(dest, src);
        return;
      }
      if Writeable !in d.flags {
        return false;
      }
      if d.Count() != s.Count() {
        return false;
      }
      if Simple(d, s) {
        CopyRun(d, s);
      } else if d.layout.dims == s.layout.dims {
        ApartTurned(casting, Now(), d, s);
        CopyFromSameShape(dest, src);
      } else {
        CopyByIterators(dest, src);
      }
      return true;
    }

    /** Between arrays that have no memory in common the order is no matter. */
    static lemma ApartTurned(k: Casting, w: World, d: Header, s: Header)
      requires Seated(w, d) && Seated(w, s) && M.Apart(d, s) && d.layout.dims == s.layout.dims && !Simple(d, s)
      requires Equiv(k, d.dtype, s.dtype) && Writeable in d.flags
      ensures d.Count() == s.Count()
      ensures d.Nd() > 0 ==>
                B.Fits(d.layout.dims, s.layout.dims) && TurnedTogether(w, d, s) == Stored(k, w, d, s)
    {
      hide TrueFlags, Laid, Simple, Equiv, B.Fits, M.WrittenPlaces, M.ReadPlaces, M.ItemByItem, Stored, M.Apart;
      B.SameShapeMeets(d.layout.dims, seq(d.Count(), _ => 0));
      if d.Nd() > 0 {
        M.ApartInTurn(k, w, d, s);
      }
    }

    method CastAnyTo(dest: Ref, src: Ref) returns (ok: bool)
      requires There(dest) && There(src) && M.Apart(arrays[dest], arrays[src])
      requires !Equiv(casting, arrays[dest].dtype, arrays[src].dtype)
      modifies this`arrays, this`memory
      ensures ok <==> !old(Refused(casting, arrays[dest], arrays[src]))
      ensures Now() == old(Copying.CopyAnyInto(casting, Now(), dest, src))
    {
      hide TrueFlags, Laid, Stored, Simple, Copying.CopyAnyInto, Equiv, IteratedBoth;
      CopiedEither(casting, Now(), dest, src);
      var d, s := arrays[dest], arrays[src];
      if s.Count() == 0 {
        return true;
      }
      if Writeable !in d.flags {
        return false;
      }
      if s.Count() != d.Count() {
        return false;
      }
      if Simple(d, s) {
        CopyRun(d, s);
      } else {
        CopyByIterators(dest, src);
      }
      return true;
    }

    // ----- Moving

    static lemma MovedEither(k: Casting, w: World, d: Ref, s: Ref)
      requires d in w.arrays && w.arrays[d].data in w.memory && s in w.arrays && w.arrays[s].data in w.memory
      ensures var w', m := M.MoveInto(k, w, d, s), M.HowMoved(k, w.arrays[d], w.arrays[s]);
              && (m.Skip? || m.Forbidden? ==> w' == w)
              && (m.AsRun? ==> w' == Stored(k, w, w.arrays[d], w.arrays[s]))
              && (m.Fill? ==> w' == M.Filling(k, w, w.arrays[d], w.arrays[s]))
              && (m.Together? ==>
                    && B.Fits(w.arrays[d].layout.dims, w.arrays[s].layout.dims)
                    && w' == World(IteratedBoth(w.arrays, d, s),
                                   M.MovedTogether(k, w, w.arrays[d], w.arrays[s]).memory, w.next, w.trapped)
                    && (Equiv(k, w.arrays[d].dtype, w.arrays[s].dtype) && w.arrays[s].Nd() > 0 ==>
                          M.MovedTogether(k, w, w.arrays[d], w.arrays[s])
                          == TurnedTogether(w, w.arrays[d], w.arrays[s])))
              && (m.Mismatch? ==> w' == w.(arrays := IteratedBoth(w.arrays, d, s)))
    {
      hide Iterated, Scattered, Gathered, Converted, Order, M.FillOrder, B.Fits, B.Broadcast, Equiv, Simple;
      hide M.ItemByItem, M.WrittenPlaces, M.ReadPlaces;
      assert w.arrays[s := w.arrays[s]] == w.arrays;
    }

    /** `NpyArray_MoveInto` */
    method MoveInto(dest: Ref, src: Ref) returns (ok: bool)
      requires There(dest) && There(src) && M.Movable(casting, arrays[dest], arrays[src])
      modifies this`arrays, this`memory, this`trapped
      ensures ok <==> !old(M.HowMoved(casting, arrays[dest], arrays[src])).Fails()
      ensures Now() == old(M.MoveInto(casting, Now(), dest, src))
    {
      hide TrueFlags, Laid, Stored, Simple, M.MoveInto, Equiv, B.Fits, M.Filling, M.MovedTogether, IteratedBoth;
      hide M.Apart;
      MovedEither(casting, Now(), dest, src);
      var d, s := arrays[dest], arrays[src];
      if !Equiv(casting, d.dtype, s.dtype) {
        ok := CastTo(dest, src);
        return;
      }
      if Writeable !in d.flags {
        return false;
      }
      var same := d.layout.dims == s.layout.dims;
      if same && Simple(d, s) {
        CopyRun(d, s);
        return true;
      }
      if s.Nd() == 0 {
        if d.Count() > 0 {
          CopyFrom0d(d, s);
        }
        return true;
      }
      if same {
        CopyFromSameShape(dest, src);
        return true;
      }
      ok := BroadcastCopy(dest, src);
    }

    /** `NpyArray_CastTo` */
    method CastTo(dest: Ref, src: Ref) returns (ok: bool)
      requires There(dest) && There(src) && M.Movable(casting, arrays[dest], arrays[src])
      requires !Equiv(casting, arrays[dest].dtype, arrays[src].dtype)
      modifies this`arrays, this`memory
      ensures ok <==> !old(M.HowMoved(casting, arrays[dest], arrays[src])).Fails()
      ensures Now() == old(M.MoveInto(casting, Now(), dest, src))
    {
      hide TrueFlags, Laid, Stored, Simple, M.MoveInto, Equiv, B.Fits, M.MovedTogether, IteratedBoth, M.Apart;
      MovedEither(casting, Now(), dest, src);
      var d, s := arrays[dest], arrays[src];
      if s.Count() == 0 {
        return true;
      }
      if Writeable !in d.flags {
        return false;
      }
      if d.layout.dims == s.layout.dims && Simple(d, s) {
        CopyRun(d, s);
        return true;
      }
      BlocksApart(d, s);
      ok := BroadcastCast(dest, src);
    }

    /** The arrays are relabelled before their shapes are compared. */
    method BroadcastCopy(dest: Ref, src: Ref) returns (ok: bool)
      requires There(dest) && There(src) && arrays[src].Nd() > 0
      requires arrays[dest].layout.dims != arrays[src].layout.dims
      modifies this`arrays, this`memory
      ensures ok <==> B.Fits(old(arrays[dest]).layout.dims, old(arrays[src]).layout.dims)
      ensures arrays == IteratedBoth(old(arrays), dest, src)
      ensures memory == if ok then old(TurnedTogether(Now(), arrays[dest], arrays[src]).memory) else old(memory)
    {
      hide TrueFlags, IteratedBoth, Places, B.Broadcast, B.Stretched, M.ItemByItem, O.VisitedPlaces, O.SmallestAxis;
      var d, s := arrays[dest], arrays[src];
      ghost var w := Now();
      IterBoth(dest, src);
      var shape := B.BroadcastShape(d.layout.dims, s.layout.dims);
      if shape.None? {
        return false;
      }
      var b := shape.value;
      if Size(b) != d.Count() {
        return false;
      }
      M.FitsHas(d.layout.dims, s.layout.dims);
      var ds := B.StretchedStrides(d.layout, b);
      var ss := B.StretchedStrides(s.layout, b);
      B.StretchedIs(d.layout, b);
      B.StretchedIs(s.layout, b);
      var axis := O.FindSmallestAxis(ds, ss);
      StretchReads(w, d, s);
      CopyLines(d, s, Layout(b, ds, d.layout.offset, d.layout.aligned),
                Layout(b, ss, s.layout.offset, s.layout.aligned), axis);
      return true;
    }

    static lemma StretchReads(w: World, d: Header, s: Header)
      requires Seated(w, d) && Seated(w, s) && B.Fits(d.layout.dims, s.layout.dims) && s.Nd() > 0
      ensures forall p :: p in M.ReadPlaces(d.layout, s.layout) ==> p in w.memory[s.data].items
    {
      hide TrueFlags, Places, M.ReadPlaces, B.Fits;
      M.ReadInside(d.layout, s.layout, w.memory[s.data].items);
    }

    static lemma BlocksApart(d: Header, s: Header)
      ensures d.data != s.data ==> M.Apart(d, s)
    {
    }

    /** `_broadcast_cast` */
    method BroadcastCast(dest: Ref, src: Ref) returns (ok: bool)
      requires There(dest) && There(src) && !Equiv(casting, arrays[dest].dtype, arrays[src].dtype)
      requires M.Apart(arrays[dest], arrays[src])
      modifies this`arrays, this`memory
      ensures ok <==> B.Fits(old(arrays[dest]).layout.dims, old(arrays[src]).layout.dims)
      ensures arrays == IteratedBoth(old(arrays), dest, src)
      ensures memory == if ok then old(M.MovedTogether(casting, Now(), arrays[dest], arrays[src]).memory)
                        else old(memory)
    {
      hide TrueFlags, Laid, IteratedBoth, Places, Converted, Scattered, Gathered, B.Broadcast, B.Stretched, M.Apart;
      hide Equiv;
      var d, s := arrays[dest], arrays[src];
      ghost var w := Now();
      IterBoth(dest, src);
      var shape := B.BroadcastShape(d.layout.dims, s.layout.dims);
      if shape.None? {
        return false;
      }
      var b := shape.value;
      if Size(b) != d.Count() {
        return false;
      }
      StretchWalks(w, Now(), d, s);
      M.FitsHas(d.layout.dims, s.layout.dims);
      var ds := B.StretchedStrides(d.layout, b);
      var ss := B.StretchedStrides(s.layout, b);
      B.StretchedIs(d.layout, b);
      B.StretchedIs(s.layout, b);
      var dl := Layout(b, ds, d.layout.offset, d.layout.aligned);
      var sl := Layout(b, ss, s.layout.offset, s.layout.aligned);
      CopyItems(d, s, dl, sl);
      return true;
    }

    /** What is walked in the common shape are elements of the arrays. */
    static lemma StretchWalks(w: World, v: World, d: Header, s: Header)
      requires Seated(w, d) && Seated(w, s) && B.Fits(d.layout.dims, s.layout.dims) && M.Apart(d, s)
      requires v.memory == w.memory
      ensures var b := B.Broadcast(d.layout.dims, s.layout.dims).value;
              && |d.layout.dims| <= |b| && |s.layout.dims| <= |b|
              && Walkable(v, d, s, B.Stretched(d.layout, b), B.Stretched(s.layout, b))
    {
      hide TrueFlags, Place, B.Fits, B.Broadcast, B.Stretched;
      M.FitsHas(d.layout.dims, s.layout.dims);
      var b := B.Broadcast(d.layout.dims, s.layout.dims).value;
      B.StretchedIs(d.layout, b);
      B.StretchedIs(s.layout, b);
      if d.Count() > 0 {
        B.PlacesTogether(d.layout, s.layout);
      } else {
        M.NoPlaces(d.layout, B.Stretched(d.layout, b));
        assert Places(B.Stretched(s.layout, b)) == [];
      }
    }

    /** `_copy_from0d` */
    method CopyFrom0d(d: Header, s: Header)
      requires Seated(Now(), d) && Seated(Now(), s) && s.Nd() == 0
      modifies this`memory
      ensures Now() == old(M.Filling(casting, Now(), d, s))
    {
      hide TrueFlags, M.FillOrder, Scattered, Elements;
      ghost var w := Now();
      FirstItem(w, s);
      var item := memory[s.data].items[Place(s.layout, 0)];
      var order := M.FillOrder(d);
      memory := memory[d.data := memory[d.data].(writes := memory[d.data].writes + 1)];
      FillItems(w, d, order, item);
    }

    static lemma FirstItem(w: World, s: Header)
      requires Seated(w, s) && s.Nd() == 0
      ensures s.Count() == 1 && Place(s.layout, 0) in w.memory[s.data].items
      ensures Elements(w, s) == [w.memory[s.data].items[Place(s.layout, 0)]]
    {
      hide TrueFlags, Place;
      assert Places(s.layout)[0] in Places(s.layout);
    }

    static lemma OneFillMore(items: map<int, Item>, order: seq<int>, item: Item, i: nat)
      requires i < |order|
      ensures Scattered(items, order[..i + 1], seq(i + 1, _ => item))
              == Scattered(items, order[..i], seq(i, _ => item))[order[i] := item]
    {
      var values := seq(|order|, _ => item);
      OneMore(items, order, values, i);
      assert values[..i] == seq(i, _ => item) && values[..i + 1] == seq(i + 1, _ => item);
    }

    /** The same item at each of the places in turn. */
    method FillItems(ghost w: World, d: Header, order: seq<int>, item: Item)
      requires d.data in w.memory && Now() == WithBlock(w, d.data, w.memory[d.data].items)
      modifies this`memory
      ensures Now() == WithBlock(w, d.data, Scattered(w.memory[d.data].items, order, seq(|order|, _ => item)))
    {
      ghost var items := w.memory[d.data].items;
      assert order[..0] == [] && order[..|order|] == order;
      assert Scattered(items, order[..0], seq(0, _ => item)) == items;
      hide Scattered;
      for i := 0 to |order|
        invariant Now() == WithBlock(w, d.data, Scattered(items, order[..i], seq(i, _ => item)))
      {
        OneFillMore(items, order, item, i);
        var block := memory[d.data];
        memory := memory[d.data := block.(items := block.items[order[i] := item])];
      }
    }

    // ----- References

    method Incref(a: Ref)
      requires a in arrays
      modifies this`arrays
      ensures Now() == old(WithRefs(Now(), a, arrays[a].refs + 1))
    {
      arrays := arrays[a := arrays[a].(refs := arrays[a].refs + 1)];
    }

    /** `Npy_DECREF` by an owner that is not one of the arrays based on `a`. */
    method Decref(a: Ref)
      requires Valid(Now()) && a in arrays && arrays[a].refs > |Children(Now(), a)|
      modifies this`arrays, this`memory, this`trapped
      ensures Now() == old(WriteBack.Decref(casting, Now(), a))
      ensures Valid(Now())
      decreases a, 1
    {
      hide Valid, Children;
      ghost var w := Now();
      DecrefSettles(casting, w, a);
      arrays := arrays[a := arrays[a].(refs := arrays[a].refs - 1)];
      if arrays[a].refs == 0 {
        Dealloc(a, w);
      }
    }

    /** A pending array that goes is copied back. */
    method CopyBack(self: Ref, b: Ref, ghost w: World)
      requires Valid(w) && self in w.arrays && w.arrays[self].Pending() && w.arrays[self].base == Some(b)
      requires w.arrays[self].refs == 1 && Now() == WithRefs(w, self, 0)
      modifies this`arrays, this`memory, this`trapped
      ensures HasBase(w, self) && Without(Now(), self) == Left(casting, w, self)
    {
      hide Valid, TrueFlags, Laid, CopiedIn, Iterated, CopyWay, Refused;
      SoundFacts(w, self);
      PendingApart(w, self, b);
      arrays := arrays[b := arrays[b].(flags := arrays[b].flags + {Writeable})];
      arrays := arrays[self := arrays[self].(refs := arrays[self].refs + 1)];
      assert arrays == With(w, b, Unlocked(w.arrays[b])).arrays;
      var ok := CopyAnyInto(b, self);
      CopiedInHeaders(casting, With(w, b, Unlocked(w.arrays[b])), w.arrays[self], b);
      assert Without(Now(), self).arrays == Left(casting, w, self).arrays;
    }

    /** A pending array and its base can be copied. */
    static lemma PendingApart(w: World, self: Ref, b: Ref)
      requires Valid(w) && self in w.arrays && w.arrays[self].Pending() && w.arrays[self].base == Some(b)
      ensures b in w.arrays && b != self && w.arrays[b].data != w.arrays[self].data
      ensures Seated(w, w.arrays[self]) && Seated(w, w.arrays[b])
      ensures Seated(w, Unlocked(w.arrays[b]))
    {
      hide Valid, TrueFlags, Laid;
      SoundFacts(w, self);
      DataThere(w, self);
      DataThere(w, b);
      HolderSound(w, self, b);
      StaysTrue(w.arrays[b], Unlocked(w.arrays[b]));
    }

    /** `NpyArray_dealloc`. The header leaves the table just before the base loses its
        reference. `w` is the state before `self` lost its last reference. */
    method Dealloc(self: Ref, ghost w: World)
      requires Valid(w) && self in w.arrays && w.arrays[self].refs == 1 > |Children(w, self)|
      requires Now() == WithRefs(w, self, 0)
      modifies this`arrays, this`memory, this`trapped
      ensures Now() == WriteBack.Decref(casting, w, self)
      decreases self, 0
    {
      hide Valid, Children, Left;
      var h := arrays[self];
      if h.base.Some? {
        var b := h.base.value;
        SoundFacts(w, self);
        LeftKeeps(casting, w, self);
        LeftUnchanged(w, self);
        if UpdateIfCopy in h.flags {
          CopyBack(self, b, w);
        }
        arrays := arrays - {self};
        Decref(b);
      } else {
        arrays := arrays - {self};
      }
    }

    lemma LeftUnchanged(w: World, self: Ref)
      requires HasBase(w, self)
      ensures !w.arrays[self].Pending() ==> Left(casting, w, self) == Without(WithRefs(w, self, 0), self)
    {
    }

    // ----- Forced updates and abandoned copies

    /** The base is given up just before its reference is. */
    method ForceUpdate(self: Ref)
      requires Valid(Now()) && self in arrays
      modifies this`arrays, this`memory, this`trapped
      ensures Now() == old(F.ForceUpdate(casting, Now(), self))
      ensures Valid(Now())
    {
      hide Valid, Children, Settled, LeftAs, Freed, Walked, Visited, Copied, TrueFlags, Laid, CopiedIn, Refused;
      hide BaseAfter, CopyWay, Iterated;
      ghost var w := Now();
      var h := arrays[self];
      if UpdateIfCopy in h.flags && h.base.Some? {
        var b := h.base.value;
        F.ForceBegins(casting, w, self);
        F.ForceSettles(casting, w, self);
        PendingApart(w, self, b);
        StaysTrue(h, h.(flags := h.flags - {UpdateIfCopy}));
        arrays := arrays[self := h.(flags := h.flags - {UpdateIfCopy})];
        arrays := arrays[b := arrays[b].(flags := arrays[b].flags + {Writeable})];
        ghost var w1 := Now();
        var ok := CopyAnyInto(b, self);
        arrays := arrays[self := arrays[self].(base := None)];
        ForcedIs(casting, w, self, b, w1, Now());
        Decref(b);
      }
    }

    /** Clearing the flag first and giving up the base last makes no difference. */
    static lemma ForcedIs(k: Casting, w: World, self: Ref, b: Ref, w1: World, w3: World)
      requires HasBase(w, self) && w.arrays[self].Pending() && w.arrays[self].base == Some(b) && b != self
      requires var h := w.arrays[self];
               var h1 := h.(flags := h.flags - {UpdateIfCopy});
               && w1 == With(With(w, self, h1), b, Unlocked(w.arrays[b]))
               && var w2 := Copying.CopyAnyInto(k, w1, b, self);
                  self in w2.arrays && w3 == With(w2, self, w2.arrays[self].(base := None))
      ensures w3 == CopiedBack(k, F.Detached(w, self, F.Walks(k, w, self)), w.arrays[self], b)
    {
      hide CopiedIn, Iterated, CopyWay;
      var h, u := w.arrays[self], Unlocked(w.arrays[b]);
      var h1, walk := h.(flags := h.flags - {UpdateIfCopy}), F.Walks(k, w, self);
      WayAlike(k, u, u, h, h1);
      CopiedAlikeIn(k, w1, h, h1, b);
      var v := With(F.Detached(w, self, walk), b, u);
      CopiedOthers(k, w1, v, h, b, self);
      CopiedInHeaders(k, w1, h, b);
      CopiedInHeaders(k, v, h, b);
      BaseApart(h1);
      assert CopiedIn(k, v, h, b).arrays == w3.arrays;
    }

    static lemma BaseApart(h: Header)
      ensures Iterated(h).(base := None) == Iterated(h.(base := None))
    {
    }

    static lemma WayAlike(k: Casting, dest: Header, dest': Header, src: Header, src': Header)
      requires dest' == dest && Alike(src, src')
      ensures CopyWay(k, dest, src) == CopyWay(k, dest', src')
    {
      R.WayAlike(k, dest, dest', src, src');
    }

    static lemma CopiedAlikeIn(k: Casting, w: World, src: Header, src': Header, d: Ref)
      requires d in w.arrays && w.arrays[d].data in w.memory && src.data in w.memory
      requires Alike(src, src') && src'.data == src.data
      ensures CopiedIn(k, w, src', d) == CopiedIn(k, w, src, d)
    {
      WayAlike(k, w.arrays[d], w.arrays[d], src, src');
      SimpleAlike(w.arrays[d], w.arrays[d], src, src');
      hide CopyWay, Simple, Iterated, Scattered, Gathered, Converted;
    }

    /** The header of an array that takes no part does not matter. */
    static lemma CopiedOthers(k: Casting, w: World, v: World, src: Header, d: Ref, c: Ref)
      requires d in w.arrays && d in v.arrays && d != c && c in w.arrays && c in v.arrays
      requires v.memory == w.memory && v.next == w.next && v.trapped == w.trapped && v.arrays[d] == w.arrays[d]
      requires v.arrays == w.arrays[c := v.arrays[c]] && w.arrays[d].data in w.memory && src.data in w.memory
      ensures var w', v' := CopiedIn(k, w, src, d), CopiedIn(k, v, src, d);
              && v'.memory == w'.memory && v'.next == w'.next && v'.trapped == w'.trapped
              && v'.arrays[d] == w'.arrays[d]
    {
      hide CopyWay, Iterated, Scattered, Gathered, Converted, Order;
    }

    /** `NpyArray_XDECREF_ERR` */
    method Abandon(a: Ref)
      requires Valid(Now()) && a in arrays && arrays[a].refs > |Children(Now(), a)|
      modifies this`arrays, this`memory, this`trapped
      ensures Now() == old(F.Abandon(casting, Now(), a))
      ensures Valid(Now())
    {
      hide Valid, Children, Settled, Freed, Walked;
      ghost var w := Now();
      if UpdateIfCopy in arrays[a].flags {
        DataThere(w, a);
        SoundFacts(w, a);
        F.AbandonedIs(w, a);
        F.AbandonedValid(w, a);
        var b := arrays[a].base.value;
        arrays := arrays[b := arrays[b].(flags := arrays[b].flags + {Writeable})];
        arrays := arrays[a := arrays[a].(flags := arrays[a].flags - {UpdateIfCopy})];
      }
      Decref(a);
    }

    // ----- New arrays

    /** New memory holds whatever `items` happens to lie there. */
    method Alloc(form: Form, items: seq<Item>) returns (ret: Ref)
      requires |items| == Size(form.dims)
      modifies this`arrays, this`memory, this`next
      ensures Now() == old(Allocated(Now(), form, items)) && ret == old(next)
    {
      hide NonZero, CStrides, FStrides, Scattered, Places, Size;
      var nd := |form.dims|;
      ret := next;
      next := next + 1;
      var flags := {Contiguous, Aligned, Writeable};
      if form.fortran {
        flags := flags + {Fortran};
        if nd > 1 {
          flags := flags - {Contiguous};
        }
      }
      var strides: seq<int> := [];
      if nd > 0 {
        strides, flags := Strided(form.dtype.elsize, form.dims, form.fortran, flags);
      }
      flags := flags + {OwnData};
      assert flags == AllocFlags(nd, form.fortran);
      assert strides == NewLayout(form.dtype.elsize, form.dims, form.fortran, form.aligned).strides by {
        NoAxes(form.dims, form.dtype.elsize);
      }
      var layout := Layout(form.dims, strides, 0, form.aligned);
      memory := memory[ret := Block(Filled(layout, items), 0)];
      arrays := arrays[ret := Header(form.dtype, layout, ret, flags, None, 1)];
    }

    static lemma NoAxes(dims: seq<int>, elsize: int)
      ensures dims == [] ==> CStrides(NonZero(dims), elsize) == [] && FStrides(NonZero(dims), elsize) == []
    {
    }

    /** The strides, and the order flags that go with them. */
    static method Strided(elsize: nat, dims: seq<nat>, fortran: bool, flags: set<Flag>)
      returns (strides: seq<int>, r: set<Flag>)
      ensures strides == if fortran then FStrides(NonZero(dims), elsize) else CStrides(NonZero(dims), elsize)
      ensures forall x :: x != Contiguous && x != Fortran ==> (x in r <==> x in flags)
      ensures Contiguous in r <==> !fortran || |dims| <= 1
      ensures Fortran in r <==> fortran || |dims| <= 1
    {
      var buffer := new int[|dims|];
      var size;
      size, r := FillStrides(buffer, dims, elsize, if fortran then {Fortran} else {}, flags);
      strides := buffer[..];
      forall x | x != Contiguous && x != Fortran ensures x in r <==> x in flags {
        assert x in r - {Contiguous, Fortran} <==> x in flags - {Contiguous, Fortran};
      }
    }

    /** Copy-back is set up: the base is locked. */
    method Lock(ret: Ref, arr: Ref)
      requires ret in arrays && arr in arrays && ret != arr
      modifies this`arrays
      ensures Now() == old(Attached(Now(), ret, arr))
    {
      arrays := arrays[ret := arrays[ret].(flags := arrays[ret].flags + {UpdateIfCopy})];
      arrays := arrays[ret := arrays[ret].(base := Some(arr))];
      arrays := arrays[arr := arrays[arr].(flags := arrays[arr].flags - {Writeable})];
      Incref(arr);
    }

    /** `NpyArray_UpdateFlags(result, NPY_UPDATE_ALL)` */
    static method Recomputed(elsize: ItemSize, layout: Layout, flags: set<Flag>) returns (r: set<Flag>)
      requires flags <= {Writeable}
      ensures r == flags + TestedFlags(elsize, layout)
    {
      hide ArrayObject.C, ArrayObject.F, ArrayObject.Valid, COrder, FOrder;
      var ao := AsObject(elsize, layout, flags);
      ao.UpdateFlags({Contiguous, Fortran, Aligned}, layout.aligned, false);
      r := ao.flags;
      assert forall x :: x in r <==> x in flags + TestedFlags(elsize, layout);
    }

    /** `NpyArray_NewView` for any layout in the memory of `arr`. */
    method NewView(arr: Ref, layout: Layout) returns (ret: Ref)
      requires arr in arrays && next != arr
      modifies this
      ensures Now() == old(Viewed(Now(), arr, layout)) && ret == old(next)
    {
      hide TestedFlags;
      var a := arrays[arr];
      ret := next;
      next := next + 1;
      arrays := arrays[ret := Header(a.dtype, layout, a.data, a.flags * {Writeable}, None, 1)];
      arrays := arrays[ret := arrays[ret].(base := Some(arr))];
      Incref(arr);
      var flags := Recomputed(a.dtype.elsize, layout, arrays[ret].flags);
      arrays := arrays[ret := arrays[ret].(flags := flags)];
    }

    /** A new array that is filled by `NpyArray_CopyInto` or `NpyArray_CastTo`. */
    method Copy(arr: Ref, form: Form) returns (ret: Ref)
      requires Valid(Now()) && arr in arrays && form.dims == arrays[arr].layout.dims
      modifies this
      ensures old(There(arr)) && ret == old(next)
      ensures var walk := R.Fills(casting, NewHeader(form, old(next)), old(arrays[arr]));
              Now() == old(CopiedOut(casting, Now(), arr, form, walk))
    {
      hide Valid, TrueFlags, Laid, Allocated, Places, M.MoveInto, M.HowMoved, M.Movable, R.Fills, CopiedOut;
      ThereWhenValid(arr);
      var junk: seq<Item> := seq(Size(form.dims), _ => []);
      FL.FilledByMove(casting, Now(), arr, form, junk);
      ret := Alloc(form, junk);
      var ok := MoveInto(ret, arr);
    }

    /** `NpyArray_FromArray` */
    method FromArray(arr: Ref, wanted: Option<DType>, want: set<Flag>, aligned: bool) returns (status: Status, ret: Ref)
      requires Valid(Now()) && arr in arrays
      modifies this
      ensures Valid(Now())
      ensures arr != old(next) && old(There(arr))
      ensures var m := old(R.FromArray(casting, Now(), arr, wanted, want, aligned));
              && (m.Made? ==> status == Done && Now() == m.world && ret == m.ret)
              && (m.CannotCast? ==> status == CastError && Now() == old(Now()))
              && (m.ReadOnly? ==> status == ReadOnlyError && Now() == old(Now()))
    {
      hide Valid, Children, R.MadeCopy, Viewed, WithRefs, TrueFlags, Laid;
      ThereWhenValid(arr);
      R.FromArrayKeeps(casting, Now(), arr, wanted, want, aligned);
      var h := arrays[arr];
      var dtype := if wanted.None? then h.dtype else wanted.value;
      R.RefusedWhen(casting, Now(), arr, dtype, want, aligned);
      if ForceCast !in want && h.Nd() != 0 && !casting.canCast(h.dtype, dtype) {
        return CastError, 0;
      }
      if EnsureCopy in want || Equiv(casting, h.dtype, dtype) {
        var copy := EnsureCopy in want
          || (Contiguous in want && Contiguous !in h.flags)
          || (Aligned in want && Aligned !in h.flags)
          || (h.Nd() > 1 && Fortran in want && Fortran !in h.flags)
          || (Writeable in want && Writeable !in h.flags);
        if copy {
          status, ret := FromCopy(arr, dtype, want, aligned);
        } else if EnsureArray in want {
          ret := NewView(arr, h.layout);
          status := Done;
        } else {
          ret := arr;
          Incref(arr);
          status := Done;
        }
      } else {
        status, ret := FromCopy(arr, dtype, want, aligned);
      }
    }

    /** The part that both copying branches share. */
    method FromCopy(arr: Ref, dtype: DType, want: set<Flag>, aligned: bool) returns (status: Status, ret: Ref)
      requires Valid(Now()) && arr in arrays
      modifies this
      ensures old(There(arr)) && arr != old(next)
      ensures var m := old(R.MadeCopy(casting, Now(), arr, dtype, want, aligned));
              && (m.Made? ==> status == Done && Now() == m.world && ret == m.ret)
              && (m.ReadOnly? ==> status == ReadOnlyError && Now() == old(Now()))
    {
      hide Valid, R.Fills, NewHeader, TrueFlags, Laid;
      ThereWhenValid(arr);
      NextIsNew(Now());
      if UpdateIfCopy in want && Writeable !in arrays[arr].flags {
        return ReadOnlyError, 0;
      }
      var form := R.CopyForm(dtype, arrays[arr], want, aligned);
      CopiedOutHas(casting, Now(), arr, form);
      ret := Copy(arr, form);
      if UpdateIfCopy in want {
        Lock(ret, arr);
      }
      status := Done;
    }

    static lemma CopiedOutHas(k: Casting, w: World, arr: Ref, form: Form)
      requires arr in w.arrays && w.arrays[arr].data in w.memory && Size(form.dims) == w.arrays[arr].Count()
      ensures forall walk :: w.next in CopiedOut(k, w, arr, form, walk).arrays
                             && arr in CopiedOut(k, w, arr, form, walk).arrays
    {
      hide NewHeader, Filled, Converted, Iterated, Stores;
    }

    /** `NpyArray_FlatView` */
    method FlatView(a: Ref, aligned: bool) returns (ret: Ref)
      requires Valid(Now()) && a in arrays
      modifies this
      ensures a != old(next) && old(There(a))
      ensures Now() == old(FV.FlatView(casting, Now(), a, aligned)) && ret == old(next)
      ensures Valid(Now()) <==> Contiguous in old(arrays[a].flags) || Unclaimed(old(Now()), a)
    {
      hide Valid, Viewed, CopiedOut, TrueFlags, Laid, Unclaimed;
      ThereWhenValid(a);
      FV.FlatViewKeeps(casting, Now(), a, aligned);
      var h := arrays[a];
      FV.FlatSize(h.Count());
      if Contiguous in h.flags {
        ret := NewView(a, FV.FlatLayout(h, aligned));
      } else {
        CopiedOutHas(casting, Now(), a, FV.FlatForm(h, aligned));
        ret := Flatten(a, aligned);
        Lock(ret, a);
      }
    }

    /** A new array of one axis that is filled by `_flat_copyinto`, which makes an
        iterator over the old one, unless that has no axes. */
    method Flatten(a: Ref, aligned: bool) returns (ret: Ref)
      requires Valid(Now()) && a in arrays
      modifies this
      ensures old(There(a)) && ret == old(next) && a != old(next)
      ensures Now() == old(CopiedOut(casting, Now(), a, FV.FlatForm(arrays[a], aligned), true))
    {
      hide Valid, TrueFlags, Laid, Allocated, Places, CopiedOut, NewHeader, Iterated, Converted, Gathered, Scattered;
      ThereWhenValid(a);
      var h := arrays[a];
      var form := FV.FlatForm(h, aligned);
      var junk: seq<Item> := seq(h.Count(), _ => []);
      ghost var w := Now();
      NextIsNew(w);
      FL.FilledFlat(casting, w, a, aligned, junk);
      FL.NewMemory(w, form, junk);
      ret := Alloc(form, junk);
      if h.Nd() > 0 {
        IterNew(a);
      } else {
        FV.OneAxisStays(h, true);
        assert arrays[a := h] == arrays;
      }
      FlatWalks(w, Now(), arrays[ret], h);
      CopyItems(arrays[ret], h, arrays[ret].layout, h.layout);
    }

    static lemma FlatWalks(w: World, v: World, n: Header, h: Header)
      requires Seated(w, h) && h.data in v.memory && v.memory[h.data] == w.memory[h.data]
      requires n.data in v.memory && n.data != h.data && n.Count() == h.Count()
      ensures Walkable(v, n, h, n.layout, h.layout)
    {
      hide TrueFlags, Places;
    }

    // ----- Subscripts

    /** `NpyArray_IndexSimple` */
    method IndexSimple(a: Ref, indexes: seq<I.Index>, aligned: bool) returns (r: Option<Ref>)
      requires Valid(Now()) && a in arrays && V.Plain(indexes) && I.StepsNonZero(indexes)
      modifies this
      ensures Valid(Now())
      ensures r.Some? <==> Sub.Accepts(old(arrays[a]), indexes)
      ensures r.Some? <==> Sub.Binds(old(arrays[a]), indexes)
                           && |Sub.IndexLayout(old(arrays[a]), indexes, true).dims| <= 32
      ensures r.Some? ==>
                && a != old(next) && r.value == old(next) && Sub.Binds(old(arrays[a]), indexes)
                && Now() == old(Viewed(Now(), a, Sub.IndexLayout(arrays[a], indexes, aligned)))
      ensures r.None? ==> Now() == old(Now())
    {
      hide Valid, V.Plain, I.StepsNonZero, I.Bind, I.ToView, Viewable, Sub.Shown;
      var h := arrays[a];
      var bound := I.IndexBind(indexes, h.layout.dims);
      if bound.Err? {
        return None;
      }
      Sub.AcceptedIndex(h, indexes);
      var view := I.IndexToDimsEtc(h.layout.dims, h.layout.strides, bound.value, false);
      if |view.value.dims| > SizeGuard.MAXDIMS {
        return None;
      }
      Sub.IndexedView(Now(), a, indexes, aligned);
      ViewedKeeps(Now(), a, Sub.IndexLayout(h, indexes, aligned));
      hide Viewed;
      var ret := NewView(a, Layout(view.value.dims, view.value.strides, h.layout.offset + view.value.offset, aligned));
      return Some(ret);
    }

    /** Move into a view and release it. */
    method MoveAndDrop(v: Ref, s: Ref) returns (ok: bool)
      requires Valid(Now()) && v in arrays && s in arrays && M.Movable(casting, arrays[v], arrays[s])
      requires arrays[v].refs > |Children(Now(), v)|
      modifies this`arrays, this`memory, this`trapped
      ensures old(There(v)) && old(There(s))
      ensures ok <==> !old(M.HowMoved(casting, arrays[v], arrays[s])).Fails()
      ensures Now() == old(A.MoveAndDrop(casting, Now(), v, s))
      ensures Valid(Now())
    {
      hide Valid, Children, TrueFlags, Laid, M.MoveInto, M.Movable, M.HowMoved, M.Delivered, Iterated;
      ThereWhenValid(v);
      ThereWhenValid(s);
      ghost var w := Now();
      M.MoveKeeps(casting, w, v, s);
      M.MoveMeans(casting, w, v, s);
      MovedRefs(w, M.MoveInto(casting, w, v, s), v, s, M.HowMoved(casting, w.arrays[v], w.arrays[s]).Iterates());
      ok := MoveInto(v, s);
      Decref(v);
    }

    /** Iterators change neither counts nor bases. */
    static lemma MovedRefs(w: World, w': World, v: Ref, s: Ref, walk: bool)
      requires v in w.arrays && s in w.arrays
      requires w'.arrays == w.arrays[v := IteratedIf(w.arrays[v], walk)][s := IteratedIf(w.arrays[s], walk)]
      ensures v in w'.arrays && w'.arrays[v].refs == w.arrays[v].refs && Children(w', v) == Children(w, v)
    {
      hide Iterated;
      IteratedPlain(w.arrays[v]);
      IteratedPlain(w.arrays[s]);
      SameChildrenByBase(w, w', v);
    }

    /** `NpyArray_SubscriptAssign` for simple indices. */
    method SubscriptAssign(a: Ref, indexes: seq<I.Index>, s: Ref, aligned: bool) returns (ok: bool)
      requires Valid(Now()) && a in arrays && s in arrays && V.Plain(indexes) && I.StepsNonZero(indexes)
      modifies this
      ensures ok <==> A.Assigns(casting, old(arrays[a]), indexes, old(arrays[s]))
      ensures ok ==> Writeable in old(arrays[a]).flags && Sub.Binds(old(arrays[a]), indexes)
      ensures Now() == old(A.SubscriptAssign(casting, Now(), a, indexes, s, aligned))
      ensures Valid(Now())
    {
      hide Valid, V.Plain, I.StepsNonZero, Sub.Binds, Sub.Accepts, Sub.IndexLayout, Viewed, TestedFlags, Children;
      hide A.MoveAndDrop, M.MoveInto, M.HowMoved, M.Movable, TrueFlags, Laid, A.Target, A.Outcome, A.Assigns, A.Whole;
      A.AssignSelects(casting, Now(), a, indexes, s, aligned);
      ghost var w := Now();
      ThereWhenValid(a);
      ThereWhenValid(s);
      var h := arrays[a];
      NotAttempted(casting, h, indexes, arrays[s]);
      if Writeable !in h.flags {
        return false;
      }
      if indexes == [] || indexes == [I.Ellipsis] {
        A.WholeLayout(h, indexes, aligned);
        WholeTarget(h, a, indexes, aligned);
        A.AssignSucceeds(casting, h, a, indexes, arrays[s], aligned);
        A.AlwaysMovable(casting, w, h, a, s);
        ok := MoveInto(a, s);
        return;
      }
      var view := IndexSimple(a, indexes, aligned);
      if view.None? {
        return false;
      }
      A.AssignSucceeds(casting, h, a, indexes, w.arrays[s], aligned);
      A.ViewMade(w, a, indexes, s, aligned);
      TargetInView(casting, w, a, indexes, s, aligned);
      ok := MoveAndDrop(view.value, s);
    }

    static lemma NotAttempted(k: Casting, h: Header, indexes: seq<I.Index>, v: Header)
      ensures A.Assigns(k, h, indexes, v) ==> A.Attempted(h, indexes)
      ensures A.Whole(indexes) <==> indexes == [] || indexes == [I.Ellipsis]
    {
    }

    static lemma WholeTarget(h: Header, a: Ref, indexes: seq<I.Index>, aligned: bool)
      requires A.Whole(indexes) && Sub.Binds(h, indexes)
      ensures A.Target(h, a, indexes, aligned) == h
    {
    }

    /** The view is the target, and the value is as it was, but for its count. */
    static lemma TargetInView(k: Casting, w: World, a: Ref, indexes: seq<I.Index>, s: Ref, aligned: bool)
      requires a in w.arrays && s in w.arrays && w.next !in w.arrays && !A.Whole(indexes)
      requires Sub.Binds(w.arrays[a], indexes) && Valid(w)
      ensures var l := Sub.IndexLayout(w.arrays[a], indexes, aligned);
              var w1, t := Viewed(w, a, l), A.Target(w.arrays[a], a, indexes, aligned);
              && w.next in w1.arrays && w1.arrays[w.next] == t && s in w1.arrays
              && M.HowMoved(k, t, w1.arrays[s]) == M.HowMoved(k, t, w.arrays[s])
              && M.Movable(k, t, w1.arrays[s])
              && t.refs > |Children(w1, w.next)|
    {
      hide Sub.Binds, Sub.IndexLayout, TestedFlags, M.HowMoved, Valid, Children, Places;
      var l := Sub.IndexLayout(w.arrays[a], indexes, aligned);
      NextIsNew(w);
      NextIsRoot(w);
      A.ViewedIs(w, a, l, s);
      ViewedChildren(w, a, l, w.next);
      A.SameMove(k, ViewHeader(w.arrays[a], l, a), w.arrays[s], Viewed(w, a, l).arrays[s]);
      A.AlwaysMovable(k, w, ViewHeader(w.arrays[a], l, a), a, s);
    }
  }
}
