/**
 Arrays, the memory they share, and copying one array into another
 (libndarray/src/npy_ctors.c, npy_convert_datatype.c, npy_iterators.c).
 */
module Copying {
  import opened CInt
  import opened NdArray
  import opened Shape
  import opened Storage
  import opened Wrappers

  type Ref = nat

  /** `native` says that the bytes of an item are in the order of the machine. */
  datatype DType = DType(typeNum: int, elsize: ItemSize, native: bool)

  /** The type system as far as copying needs it. */
  datatype Casting = Casting(sameKind: (DType, DType) -> bool,
                             canCast: (DType, DType) -> bool,
                             cast: (DType, DType, Item) -> Item)

  /** `NpyArray_EquivTypes`, which is symmetric: no conversion is needed. */
  predicate Equiv(k: Casting, d: DType, e: DType) {
    d == e || (d.elsize == e.elsize && d.native == e.native && k.sameKind(d, e) && k.sameKind(e, d))
  }

  /** The elements `items` of type `from` as they arrive in an array of type `to`. */
  function Converted(k: Casting, from: DType, to: DType, items: seq<Item>): (r: seq<Item>)
    ensures |r| == |items|
    ensures forall i :: 0 <= i < |r| ==> r[i] == if Equiv(k, to, from) then items[i] else k.cast(from, to, items[i])
  {
    if Equiv(k, to, from) then items else seq(|items|, i requires 0 <= i < |items| => k.cast(from, to, items[i]))
  }

  /** Types of one size, byte order and kind: items can be taken over as they are. */
  predicate Interchange(k: Casting, d: DType, e: DType) {
    d.elsize == e.elsize && d.native == e.native && (d == e || (k.sameKind(d, e) && k.sameKind(e, d)))
  }

  function CastAll(k: Casting, from: DType, to: DType, items: seq<Item>): (r: seq<Item>)
    ensures |r| == |items| && forall i :: 0 <= i < |r| ==> r[i] == k.cast(from, to, items[i])
  {
    seq(|items|, i requires 0 <= i < |items| => k.cast(from, to, items[i]))
  }

  /** Between such types items stay as they are, between all others every one is cast. */
  lemma ConvertedMeans(k: Casting, from: DType, to: DType, items: seq<Item>)
    ensures Converted(k, from, to, items)
            == if Interchange(k, from, to) then items else CastAll(k, from, to, items)
  {
    assert Converted(k, from, to, items) == if Equiv(k, to, from) then items else CastAll(k, from, to, items);
  }

  /** An array. */
  datatype Header = Header(dtype: DType, layout: Layout, data: Ref, flags: set<Flag>, base: Option<Ref>, refs: nat)
  {
    predicate Pending() {
      UpdateIfCopy in flags && base.Some?
    }

    function Nd(): nat {
      |layout.dims|
    }

    function Count(): nat {
      Size(layout.dims)
    }
  }

  /** Memory by the offset at which an item starts, shared by an array and its views. */
  datatype Block = Block(items: map<int, Item>, writes: nat)

  /** All arrays of a process. References are handed out in increasing order and
      a block has the reference of the array that it was allocated for. `trapped`
      says that a null pointer was followed, so that nothing after it is real. */
  datatype World = World(arrays: map<Ref, Header>, memory: map<Ref, Block>, next: Ref, trapped: bool)

  const NOTHING := World(map[], map[], 0, false)

  function With(w: World, a: Ref, h: Header): World {
    w.(arrays := w.arrays[a := h])
  }

  /** The elements of an array in row-major order. */
  function Elements(w: World, h: Header): (r: seq<Item>)
    requires h.data in w.memory
    ensures |r| == h.Count()
  {
    Gathered(w.memory[h.data].items, Places(h.layout))
  }

  /** The order flags are only set when they are true, and beyond one axis only one
      of them; a row-major array is flagged so, unless it is flagged column-major. */
  ghost predicate TrueFlags(h: Header) {
    && (Contiguous in h.flags ==> COrder(h.dtype.elsize, h.layout))
    && (Fortran in h.flags ==> FOrder(h.dtype.elsize, h.layout))
    && !(h.Nd() > 1 && Contiguous in h.flags && Fortran in h.flags)
    && (COrder(h.dtype.elsize, h.layout) ==> Contiguous in h.flags || (h.Nd() > 1 && Fortran in h.flags))
  }

  /** The elements lie at different places of the block. */
  ghost predicate Laid(l: Layout, items: map<int, Item>) {
    Distinct(Places(l)) && forall p :: p in Places(l) ==> p in items
  }

  // ----- Iterators

  /** The array passes the row-major test but is flagged column-major. */
  ghost predicate Relabels(h: Header) {
    h.Nd() > 1 && Fortran in h.flags && COrder(h.dtype.elsize, h.layout)
  }

  /** The header after an iterator was made: it brings the row-major flag up to date. */
  ghost function Iterated(h: Header): Header {
    if Relabels(h) then h.(flags := h.flags - {Fortran} + {Contiguous}) else h
  }

  ghost function IteratedIf(h: Header, walk: bool): Header {
    if walk then Iterated(h) else h
  }

  predicate SameOrder(h: Header, h': Header) {
    (Contiguous in h'.flags <==> Contiguous in h.flags) && (Fortran in h'.flags <==> Fortran in h.flags)
  }

  lemma IteratedTrue(h: Header)
    requires TrueFlags(h)
    ensures TrueFlags(Iterated(h)) && Iterated(Iterated(h)) == Iterated(h)
    ensures Iterated(h) == h <==> !Relabels(h)
  {
    if Relabels(h) {
      assert Fortran !in Iterated(h).flags;
    }
  }

  lemma {:induction false} AllOnes(dims: seq<int>, n: nat)
    requires Positive(dims) && n <= |dims| && Prod(dims[..n]) == 1 && n > 0
    ensures dims[0] == 1
  {
    var p := dims[..n];
    ProdPositive(p[1..]);
    assert Prod(p) == p[0] * Prod(p[1..]);
    ProductAtLeast(p[0], Prod(p[1..]));
  }

  /** Beyond one axis, both orders at once take all axes of one item, or none. */
  lemma BothOrders(h: Header)
    requires h.Nd() > 1 && COrder(h.dtype.elsize, h.layout) && FOrder(h.dtype.elsize, h.layout)
    ensures h.Count() <= 1
  {
    var dims, e, n := h.layout.dims, h.dtype.elsize, h.Nd();
    SizePositive(dims);
    if h.Count() > 0 {
      ContiguousIsFilled(dims, h.layout.strides, e);
      CStridesAt(dims, e, 0);
      FStridesAt(dims, e, 0);
      CStridesAt(dims, e, n - 1);
      FStridesAt(dims, e, n - 1);
      assert dims[..0] == [] && dims[n..] == [] && Prod(dims[..0]) == Prod(dims[n..]) == 1;
      ScaleInjective(Prod(dims[1..]), 1, e);
      ScaleInjective(Prod(dims[..n - 1]), 1, e);
      AllOnes(dims, n - 1);
    }
  }

  // ----- Copying

  /** The test for copying in one run; it does not compare the shapes. */
  predicate Simple(dest: Header, src: Header) {
    && dest.dtype.native && src.dtype.native && Aligned in dest.flags && Aligned in src.flags
    && ((Contiguous in src.flags && Contiguous in dest.flags) || (Fortran in src.flags && Fortran in dest.flags))
  }

  /** The items that are copied, in the order in which they are paired. */
  function Order(h: Header, simple: bool): (r: seq<int>)
    ensures |r| == h.Count()
  {
    if simple then Run(h.layout, h.dtype.elsize) else Places(h.layout)
  }

  /** Casting an empty array succeeds without a look at the destination. */
  predicate Stores(k: Casting, dest: Header, src: Header) {
    Equiv(k, dest.dtype, src.dtype) || src.Count() > 0
  }

  function Stored(k: Casting, w: World, dest: Header, src: Header): World
    requires dest.data in w.memory && src.data in w.memory && dest.Count() == src.Count()
  {
    var simple := Simple(dest, src);
    var values := Converted(k, src.dtype, dest.dtype, Gathered(w.memory[src.data].items, Order(src, simple)));
    WithBlock(w, dest.data, Scattered(w.memory[dest.data].items, Order(dest, simple), values))
  }

  /** Other items in one block, by one write. */
  function WithBlock(w: World, m: Ref, items: map<int, Item>): World
    requires m in w.memory
  {
    w.(memory := w.memory[m := Block(items, w.memory[m].writes + 1)])
  }

  predicate Refused(k: Casting, dest: Header, src: Header) {
    Stores(k, dest, src) && (Writeable !in dest.flags || dest.Count() != src.Count())
  }

  /** Two arrays without axes and of equal types are copied through an axis that
      they do not have, unless they are copied in one run. */
  predicate Traps(k: Casting, dest: Header, src: Header) {
    Equiv(k, dest.dtype, src.dtype) && dest.Nd() == src.Nd() == 0 && !Simple(dest, src)
  }

  /** What copying comes to: nothing, a null pointer, one run, or iterators. */
  datatype Way = Nothing | Trap | OneRun | Walk

  function CopyWay(k: Casting, dest: Header, src: Header): Way {
    if Refused(k, dest, src) || !Stores(k, dest, src) then Nothing
    else if Simple(dest, src) then OneRun
    else if Traps(k, dest, src) then Trap
    else Walk
  }

  /** Copying from an array with the header `src`, up to the header of the source. */
  ghost function CopiedIn(k: Casting, w: World, src: Header, d: Ref): World
    requires d in w.arrays && w.arrays[d].data in w.memory && src.data in w.memory
  {
    var dest := w.arrays[d];
    match CopyWay(k, dest, src)
    case Nothing => w
    case Trap => w.(trapped := true)
    case OneRun => Stored(k, w, dest, src)
    case Walk => With(Stored(k, w, dest, src), d, Iterated(dest))
  }

  /** `NpyArray_CopyAnyInto`; a refused copy changes nothing. */
  ghost function CopyAnyInto(k: Casting, w: World, d: Ref, s: Ref): World
    requires d in w.arrays && w.arrays[d].data in w.memory && s in w.arrays && w.arrays[s].data in w.memory
  {
    var w1 := CopiedIn(k, w, w.arrays[s], d);
    With(w1, s, IteratedIf(w1.arrays[s], CopyWay(k, w.arrays[d], w.arrays[s]).Walk?))
  }

  // ----- What a copy does

  /** The one run pairs the elements in column-major order. */
  predicate ByFortran(dest: Header, src: Header) {
    Simple(dest, src) && !(Contiguous in src.flags && Contiguous in dest.flags)
  }

  /** Outside `places` the items are as they were. */
  ghost predicate Around(items: map<int, Item>, items': map<int, Item>, places: seq<int>) {
    items'.Keys == items.Keys && forall p :: p in items && p !in places ==> items'[p] == items[p]
  }

  /** `dest`, which shows `before` and then `after`, has got the elements `given` of
      `src`: paired in row-major order, unless two Fortran arrays are copied as one run. */
  ghost predicate Arrived(k: Casting, dest: Header, src: Header, after: seq<Item>, given: seq<Item>) {
    && |after| == dest.Count() && |given| == src.Count() && dest.Count() == src.Count()
    && var f := ByFortran(dest, src);
       Listed(f, dest.layout.dims, after)
       == Converted(k, src.dtype, dest.dtype, Listed(f, src.layout.dims, given))
  }

  lemma OrderIs(dest: Header, src: Header, h: Header)
    requires TrueFlags(h) && (h == dest || h == src)
    ensures Order(h, Simple(dest, src)) == Listed(ByFortran(dest, src), h.layout.dims, Places(h.layout))
  {
    ContiguousRun(h.layout, h.dtype.elsize);
  }

  /** A copy writes exactly the elements of `dest`. */
  lemma StoredMeans(k: Casting, w: World, dest: Header, src: Header)
    requires dest.data in w.memory && src.data in w.memory && dest.Count() == src.Count()
    requires TrueFlags(dest) && TrueFlags(src) && Laid(dest.layout, w.memory[dest.data].items)
    ensures var w' := Stored(k, w, dest, src);
            && Arrived(k, dest, src, Elements(w', dest), Elements(w, src))
            && Around(w.memory[dest.data].items, w'.memory[dest.data].items, Places(dest.layout))
  {
    hide Places, Listed, Gathered, Scattered, Converted, TrueFlags;
    var f, simple := ByFortran(dest, src), Simple(dest, src);
    var items, order := w.memory[dest.data].items, Order(dest, simple);
    OrderIs(dest, src, dest);
    OrderIs(dest, src, src);
    hide Order;
    GatheredListed(w.memory[src.data].items, f, src.layout.dims, Places(src.layout));
    var values := Converted(k, src.dtype, dest.dtype, Gathered(w.memory[src.data].items, Order(src, simple)));
    var items' := Scattered(items, order, values);
    OrderDistinct(dest, src);
    WrittenIsRead(items, order, values);
    GatheredListed(items', f, dest.layout.dims, Places(dest.layout));
    ScatteredKeys(items, order, values);
    forall p ensures p in order <==> p in Places(dest.layout) {
      ListedMembers(f, dest.layout.dims, Places(dest.layout), p);
    }
    forall p ensures p in items' <==> p in items {
    }
  }

  lemma OrderDistinct(dest: Header, src: Header)
    requires Distinct(Places(dest.layout))
    ensures Distinct(Order(dest, Simple(dest, src)))
  {
    hide Places;
    RunDistinct(dest.layout, dest.dtype.elsize);
  }

  /** Arrays of one shape are paired element by element. */
  lemma SameShapeArrives(k: Casting, dest: Header, src: Header, after: seq<Item>, given: seq<Item>)
    requires Arrived(k, dest, src, after, given) && dest.layout.dims == src.layout.dims
    ensures after == Converted(k, src.dtype, dest.dtype, given)
  {
    var f, dims := ByFortran(dest, src), dest.layout.dims;
    ListedConverted(k, src.dtype, dest.dtype, f, dims, given);
    ListedInjective(f, dims, after, Converted(k, src.dtype, dest.dtype, given));
  }

  lemma ListedConverted(k: Casting, from: DType, to: DType, fortran: bool, dims: seq<nat>, s: seq<Item>)
    requires |s| == Size(dims)
    ensures Listed(fortran, dims, Converted(k, from, to, s)) == Converted(k, from, to, Listed(fortran, dims, s))
  {
    hide FIndex;
  }
}
