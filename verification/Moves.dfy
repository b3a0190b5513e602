/**
 Assigning one array to another with broadcasting (`NpyArray_MoveInto`:
 libndarray/src/npy_ctors.c, npy_convert_datatype.c).
 */
module Moves {
  import opened Broadcasts
  import opened Copying
  import opened NdArray
  import opened Overlaps
  import opened Shape
  import opened Storage
  import opened WriteBack

  /** What a move comes to: nothing to do, a read-only destination, one run, one
      element for all, two iterators, or shapes that do not fit. */
  datatype Move = Skip | Forbidden | AsRun | Fill | Together | Mismatch
  {
    predicate Fails() {
      Forbidden? || Mismatch?
    }

    /** Iterators are made before the shapes are compared. */
    predicate Iterates() {
      Together? || Mismatch?
    }

    predicate Delivers() {
      AsRun? || Fill? || Together?
    }
  }

  /** Unlike copying, a move in one run compares the shapes. */
  predicate SameRun(dest: Header, src: Header) {
    dest.layout.dims == src.layout.dims && Simple(dest, src)
  }

  function HowMoved(k: Casting, dest: Header, src: Header): Move {
    if !Equiv(k, dest.dtype, src.dtype) && src.Count() == 0 then Skip
    else if Writeable !in dest.flags then Forbidden
    else if SameRun(dest, src) then AsRun
    else if Equiv(k, dest.dtype, src.dtype) && src.Nd() == 0 then (if dest.Count() == 0 then Skip else Fill)
    else if Fits(dest.layout.dims, src.layout.dims) then Together
    else Mismatch
  }

  /** The places that one element is copied to, in their order. */
  function FillOrder(h: Header): (r: seq<int>)
    ensures |r| == h.Count()
  {
    if h.Nd() == 1 then seq(h.Count(), j => h.layout.offset + j * h.layout.strides[0])
    else if h.Nd() == 0 || Contiguous in h.flags || Fortran in h.flags then Run(h.layout, h.dtype.elsize)
    else Places(h.layout)
  }

  /** The axis that is taken innermost: the densest one of the destination, or of both
      together if they differ in shape. */
  function InnerAxis(dest: Layout, src: Layout): (r: nat)
    requires Fits(dest.dims, src.dims) && src.dims != []
    ensures r < |Broadcast(dest.dims, src.dims).value|
  {
    if dest.dims == src.dims then
      SameShapeMeets(dest.dims, seq(Size(dest.dims), _ => 0));
      LeastAxis(dest.strides)
    else
      var b := Broadcast(dest.dims, src.dims).value;
      SmallestAxis(Stretched(dest, b).strides, Stretched(src, b).strides)
  }

  /** The places that are written and read, in their order. */
  function WrittenPlaces(dest: Layout, src: Layout): (r: seq<int>)
    requires Fits(dest.dims, src.dims) && src.dims != []
    ensures |r| == Size(Broadcast(dest.dims, src.dims).value)
  {
    VisitedPlaces(Stretched(dest, Broadcast(dest.dims, src.dims).value), InnerAxis(dest, src))
  }

  function ReadPlaces(dest: Layout, src: Layout): (r: seq<int>)
    requires Fits(dest.dims, src.dims) && src.dims != []
    ensures |r| == Size(Broadcast(dest.dims, src.dims).value)
  {
    VisitedPlaces(Stretched(src, Broadcast(dest.dims, src.dims).value), InnerAxis(dest, src))
  }

  /** Walking both arrays in their common shape: item by item, or through buffers if
      there is a cast. */
  function MovedTogether(k: Casting, w: World, dest: Header, src: Header): World
    requires dest.data in w.memory && src.data in w.memory && Fits(dest.layout.dims, src.layout.dims)
  {
    var items := w.memory[dest.data].items;
    if Equiv(k, dest.dtype, src.dtype) && src.Nd() > 0 then
      WithBlock(w, dest.data, ItemByItem(items, dest.data == src.data, w.memory[src.data].items,
                                         WrittenPlaces(dest.layout, src.layout), ReadPlaces(dest.layout, src.layout)))
    else
      var b := Broadcast(dest.layout.dims, src.layout.dims).value;
      var values := Gathered(w.memory[src.data].items, Places(Stretched(src.layout, b)));
      WithBlock(w, dest.data, Scattered(items, Places(Stretched(dest.layout, b)),
                                        Converted(k, src.dtype, dest.dtype, values)))
  }

  /** `same` says that what is written is what is read from. */
  function ItemByItem(items: map<int, Item>, same: bool, source: map<int, Item>, to: seq<int>, from: seq<int>)
    : map<int, Item>
    requires |to| == |from|
  {
    if same then InTurn(items, to, from) else Scattered(items, to, Gathered(source, from))
  }

  function Filling(k: Casting, w: World, dest: Header, src: Header): World
    requires dest.data in w.memory && src.data in w.memory && src.Nd() == 0
  {
    var value := Elements(w, src)[0];
    WithBlock(w, dest.data, Scattered(w.memory[dest.data].items, FillOrder(dest), seq(dest.Count(), _ => value)))
  }

  /** Moving from an array with the header `src`, up to the header of the source. */
  ghost function MovedIn(k: Casting, w: World, src: Header, d: Ref): World
    requires d in w.arrays && w.arrays[d].data in w.memory && src.data in w.memory
  {
    var dest := w.arrays[d];
    match HowMoved(k, dest, src)
    case Skip => w
    case Forbidden => w
    case AsRun => Stored(k, w, dest, src)
    case Fill => Filling(k, w, dest, src)
    case Together => With(MovedTogether(k, w, dest, src), d, Iterated(dest))
    case Mismatch => With(w, d, Iterated(dest))
  }

  /** `NpyArray_MoveInto` */
  ghost function MoveInto(k: Casting, w: World, d: Ref, s: Ref): World
    requires d in w.arrays && w.arrays[d].data in w.memory && s in w.arrays && w.arrays[s].data in w.memory
  {
    var w1 := MovedIn(k, w, w.arrays[s], d);
    With(w1, s, IteratedIf(w1.arrays[s], HowMoved(k, w.arrays[d], w.arrays[s]).Iterates()))
  }

  /** The arrays have no memory in common, as copying demands. */
  ghost predicate Apart(h: Header, g: Header) {
    h.data != g.data || forall p :: p in Places(h.layout) ==> p !in Places(g.layout)
  }

  /** Arrays that share a block have items of one type, so a cast never overlaps. */
  ghost predicate Movable(k: Casting, dest: Header, src: Header) {
    !Equiv(k, dest.dtype, src.dtype) ==> dest.data != src.data
  }

  /** Iterators over one block never read an item that they have replaced. */
  ghost predicate Undisturbed(k: Casting, dest: Header, src: Header) {
    HowMoved(k, dest, src).Together? && Equiv(k, dest.dtype, src.dtype) && dest.data == src.data && src.Nd() > 0 ==>
      Clean(WrittenPlaces(dest.layout, src.layout), ReadPlaces(dest.layout, src.layout))
  }

  /** Arrays apart do not disturb each other. */
  lemma ApartClean(k: Casting, dest: Header, src: Header)
    requires Apart(dest, src)
    ensures Undisturbed(k, dest, src)
  {
    hide Equiv, Fits, Places, VisitedPlaces, Simple;
    if HowMoved(k, dest, src).Together? && dest.data == src.data && src.Nd() > 0 {
      var to, from := WrittenPlaces(dest.layout, src.layout), ReadPlaces(dest.layout, src.layout);
      FitsHas(dest.layout.dims, src.layout.dims);
      if dest.Count() > 0 {
        VisitedPlacesIn(dest.layout, src.layout);
        forall i, j | 0 <= i < j < |to| ensures to[i] != from[j] {
          assert to[i] in to && from[j] in from;
        }
      }
    }
  }

  /** What is written and read are elements of the arrays. */
  lemma VisitedPlacesIn(dl: Layout, sl: Layout)
    requires Fits(dl.dims, sl.dims) && sl.dims != [] && Size(dl.dims) > 0
    ensures forall p :: p in WrittenPlaces(dl, sl) <==> p in Places(dl)
    ensures forall p :: p in ReadPlaces(dl, sl) ==> p in Places(sl)
    ensures Distinct(Places(dl)) ==> Distinct(WrittenPlaces(dl, sl))
  {
    hide Fits, Broadcast, Stretched, Places, VisitedPlaces, LeastAxis, SmallestAxis, Size;
    FitsHas(dl.dims, sl.dims);
    var b, axis := Broadcast(dl.dims, sl.dims).value, InnerAxis(dl, sl);
    StretchedIs(dl, b);
    StretchedIs(sl, b);
    VisitedAll(Stretched(dl, b), axis);
    VisitedAll(Stretched(sl, b), axis);
    PlacesTogether(dl, sl);
  }

  // ----- What a move does

  /** `dest` has got the elements of `src` that meet its own, and nothing around them
      changed. */
  ghost predicate Delivered(k: Casting, w: World, w': World, dest: Header, src: Header) {
    && src.data in w.memory && dest.data in w.memory && dest.data in w'.memory
    && Fits(dest.layout.dims, src.layout.dims)
    && Elements(w', dest)
       == Spread(dest.layout.dims, src.layout.dims, Converted(k, src.dtype, dest.dtype, Elements(w, src)))
    && Around(w.memory[dest.data].items, w'.memory[dest.data].items, Places(dest.layout))
  }

  /** One block is written, once. */
  predicate OneBlock(w: World, w': World, m: Ref) {
    m in w.memory && m in w'.memory && w' == WithBlock(w, m, w'.memory[m].items)
  }

  lemma StoredIsBlock(k: Casting, w: World, dest: Header, src: Header)
    requires dest.data in w.memory && src.data in w.memory && dest.Count() == src.Count()
    ensures OneBlock(w, Stored(k, w, dest, src), dest.data)
  {
    hide Scattered, Order, Gathered, Converted;
  }

  lemma RunDelivers(k: Casting, w: World, dest: Header, src: Header)
    requires Seated(w, dest) && Seated(w, src) && SameRun(dest, src) && dest.Count() == src.Count()
    ensures Delivered(k, w, Stored(k, w, dest, src), dest, src)
    ensures OneBlock(w, Stored(k, w, dest, src), dest.data)
  {
    StoredIsBlock(k, w, dest, src);
    hide TrueFlags, Laid, Arrived, Around, Stored, Places, Gathered, Converted, Simple;
    StoredMeans(k, w, dest, src);
    var w' := Stored(k, w, dest, src);
    SameShapeArrives(k, dest, src, Elements(w', dest), Elements(w, src));
    SameShapeMeets(dest.layout.dims, Elements(w', dest));
  }

  lemma {:induction false} AllTheSame(items: map<int, Item>, places: seq<int>, value: Item)
    ensures forall p :: p in places ==>
              var r := Scattered(items, places, seq(|places|, _ => value)); p in r && r[p] == value
  {
    if places != [] {
      var n := |places| - 1;
      AllTheSame(items, places[..n], value);
      assert seq(|places|, _ => value)[..n] == seq(n, _ => value);
      assert places == places[..n] + [places[n]];
    }
  }

  lemma FewFills(h: Header, j: nat)
    requires h.Nd() < 2 && j < h.Count()
    ensures FillOrder(h)[j] == Place(h.layout, j)
  {
    var l := h.layout;
    FewAxes(l.dims, j);
    if l.dims != [] {
      assert Digits(j, l.dims)[1..] == [] && l.strides[1..] == [];
      assert Dot(Digits(j, l.dims), l.strides) == j * l.strides[0];
    }
  }

  /** Filling reaches every element. */
  lemma FillsAll(h: Header)
    requires TrueFlags(h)
    ensures forall p :: p in FillOrder(h) <==> p in Places(h.layout)
  {
    var l := h.layout;
    if h.Nd() < 2 {
      forall j: nat | j < h.Count() ensures FillOrder(h)[j] == Places(l)[j] {
        FewFills(h, j);
      }
      assert FillOrder(h) == Places(l);
    } else if Contiguous in h.flags || Fortran in h.flags {
      var f := Contiguous !in h.flags;
      ContiguousRun(l, h.dtype.elsize);
      hide Places, Listed;
      forall p ensures p in FillOrder(h) <==> p in Places(l) {
        ListedMembers(f, l.dims, Places(l), p);
      }
    }
  }

  lemma FillDelivers(k: Casting, w: World, dest: Header, src: Header)
    requires Seated(w, dest) && Seated(w, src) && src.Nd() == 0 && Equiv(k, dest.dtype, src.dtype)
    ensures Delivered(k, w, Filling(k, w, dest, src), dest, src)
    ensures OneBlock(w, Filling(k, w, dest, src), dest.data)
  {
    hide TrueFlags, Equiv, Scattered;
    var value, items := Elements(w, src)[0], w.memory[dest.data].items;
    FillsAll(dest);
    hide FillOrder;
    AllTheSame(items, FillOrder(dest), value);
    ScatteredKeys(items, FillOrder(dest), seq(dest.Count(), _ => value));
    ScalarMeets(dest.layout.dims, Elements(w, src));
    var items' := Scattered(items, FillOrder(dest), seq(dest.Count(), _ => value));
    FilledEverywhere(dest, items', value);
    forall p ensures p in items' <==> p in items {
    }
  }

  lemma FilledEverywhere(h: Header, items: map<int, Item>, value: Item)
    requires forall p :: p in Places(h.layout) ==> p in items && items[p] == value
    ensures Gathered(items, Places(h.layout)) == seq(h.Count(), _ => value)
  {
    hide Place;
    forall n | 0 <= n < h.Count() ensures Gathered(items, Places(h.layout))[n] == value {
      assert Places(h.layout)[n] in Places(h.layout);
    }
  }

  lemma SpreadConverted(k: Casting, from: DType, to: DType, d: seq<nat>, s: seq<nat>, items: seq<Item>)
    requires Fits(d, s) && |items| == Size(s)
    ensures Spread(d, s, Converted(k, from, to, items)) == Converted(k, from, to, Spread(d, s, items))
  {
    hide Meeting, Fits;
  }

  lemma TogetherDelivers(k: Casting, w: World, dest: Header, src: Header)
    requires Seated(w, dest) && Seated(w, src) && HowMoved(k, dest, src).Together? && Undisturbed(k, dest, src)
    ensures Fits(dest.layout.dims, src.layout.dims)
    ensures Delivered(k, w, MovedTogether(k, w, dest, src), dest, src)
  {
    hide TrueFlags, Fits, Equiv, Laid, Simple;
    if Equiv(k, dest.dtype, src.dtype) && src.Nd() > 0 {
      InTurnDelivers(k, w, dest, src);
    } else {
      BuffersDeliver(k, w, dest, src);
    }
  }

  lemma TogetherIsBlock(k: Casting, w: World, dest: Header, src: Header)
    requires dest.data in w.memory && src.data in w.memory && Fits(dest.layout.dims, src.layout.dims)
    ensures OneBlock(w, MovedTogether(k, w, dest, src), dest.data)
  {
    hide ItemByItem, Scattered, Fits, Broadcast, WrittenPlaces, ReadPlaces, Equiv, Stretched, Converted, Gathered;
  }

  /** Through buffers, with a cast. */
  lemma BuffersDeliver(k: Casting, w: World, dest: Header, src: Header)
    requires Seated(w, dest) && Seated(w, src) && Fits(dest.layout.dims, src.layout.dims)
    requires !(Equiv(k, dest.dtype, src.dtype) && src.Nd() > 0)
    ensures Delivered(k, w, MovedTogether(k, w, dest, src), dest, src)
  {
    hide TrueFlags, Places, Gathered, Scattered, Converted, Spread, Fits, Broadcast, Stretched, Size, Equiv;
    var d, s := dest.layout.dims, src.layout.dims;
    FitsHas(d, s);
    var b := Broadcast(d, s).value;
    StretchedIs(dest.layout, b);
    StretchedIs(src.layout, b);
    var items := w.memory[dest.data].items;
    var values := Gathered(w.memory[src.data].items, Places(Stretched(src.layout, b)));
    var given := Converted(k, src.dtype, dest.dtype, values);
    SpreadConverted(k, src.dtype, dest.dtype, d, s, Elements(w, src));
    if dest.Count() > 0 {
      WalkedTogether(dest.layout, src.layout, w.memory[src.data].items);
    } else {
      NoPlaces(dest.layout, Stretched(dest.layout, b));
    }
    var places := Places(Stretched(dest.layout, b));
    WrittenIsRead(items, places, given);
    ScatteredKeys(items, places, given);
    forall p ensures p in Scattered(items, places, given) <==> p in items {
    }
  }

  /** What item by item comes to: every element keeps its place, and exactly the
      places of the destination are written. */
  lemma ByItemKeys(items: map<int, Item>, same: bool, source: map<int, Item>, to: seq<int>, from: seq<int>)
    requires |to| == |from| && forall p :: p in to ==> p in items
    ensures forall p :: p in ItemByItem(items, same, source, to, from) <==> p in items
    ensures Around(items, ItemByItem(items, same, source, to, from), to)
  {
    if same {
      InTurnKeys(items, to, from);
    } else {
      ScatteredKeys(items, to, Gathered(source, from));
    }
    hide InTurn, Scattered, Gathered;
    forall p ensures p in ItemByItem(items, same, source, to, from) <==> p in items {
    }
  }

  lemma ByItemGives(items: map<int, Item>, same: bool, source: map<int, Item>, to: seq<int>, from: seq<int>)
    requires |to| == |from| && Distinct(to) && (same ==> source == items && Clean(to, from))
    ensures Gathered(ItemByItem(items, same, source, to, from), to) == Gathered(source, from)
  {
    if same {
      CleanDelivers(items, to, from);
    } else {
      WrittenIsRead(items, to, Gathered(source, from));
    }
  }

  /** In row-major order, item by item delivers exactly if it does in its own order. */
  lemma ByItemMeans(dl: Layout, sl: Layout, items': map<int, Item>, items: map<int, Item>)
    requires Fits(dl.dims, sl.dims) && sl.dims != [] && Size(dl.dims) > 0
    ensures Gathered(items', WrittenPlaces(dl, sl)) == Gathered(items, ReadPlaces(dl, sl))
            <==> Gathered(items', Places(dl)) == Spread(dl.dims, sl.dims, Gathered(items, Places(sl)))
  {
    hide Fits, Broadcast, Stretched, Places, VisitedPlaces, LeastAxis, SmallestAxis, Size, Spread, Gathered;
    FitsHas(dl.dims, sl.dims);
    var b, axis := Broadcast(dl.dims, sl.dims).value, InnerAxis(dl, sl);
    StretchedIs(dl, b);
    StretchedIs(sl, b);
    VisitedSame(Stretched(dl, b), Stretched(sl, b), axis, items', items);
    WalkedTogether(dl, sl, items);
  }

  lemma NothingVisited(dl: Layout, sl: Layout)
    requires Fits(dl.dims, sl.dims) && sl.dims != [] && Size(dl.dims) == 0
    ensures WrittenPlaces(dl, sl) == [] && ReadPlaces(dl, sl) == [] && Places(dl) == []
  {
    FitsHas(dl.dims, sl.dims);
  }

  /** Item by item: delivered exactly if what was read in turn are the items that
      were there at first. */
  lemma InTurnMeans(k: Casting, w: World, dest: Header, src: Header)
    requires Seated(w, dest) && Seated(w, src) && Fits(dest.layout.dims, src.layout.dims) && src.Nd() > 0
    requires Equiv(k, dest.dtype, src.dtype)
    ensures var to, from := WrittenPlaces(dest.layout, src.layout), ReadPlaces(dest.layout, src.layout);
            var w' := MovedTogether(k, w, dest, src);
            && dest.data in w'.memory
            && Around(w.memory[dest.data].items, w'.memory[dest.data].items, Places(dest.layout))
            && w'.memory[dest.data].items == ItemByItem(w.memory[dest.data].items, dest.data == src.data,
                                                        w.memory[src.data].items, to, from)
            && (Delivered(k, w, w', dest, src)
                <==> Gathered(w'.memory[dest.data].items, to) == Gathered(w.memory[src.data].items, from))
  {
    hide TrueFlags, Places, Gathered, Spread, Fits, Equiv, WrittenPlaces, ReadPlaces, ItemByItem, Distinct;
    var dl, sl := dest.layout, src.layout;
    var to, from := WrittenPlaces(dl, sl), ReadPlaces(dl, sl);
    var items, source := w.memory[dest.data].items, w.memory[src.data].items;
    var items' := ItemByItem(items, dest.data == src.data, source, to, from);
    if dest.Count() > 0 {
      VisitedPlacesIn(dl, sl);
      ByItemKeys(items, dest.data == src.data, source, to, from);
      ByItemMeans(dl, sl, items', source);
    } else {
      NothingVisited(dl, sl);
      ByItemKeys(items, dest.data == src.data, source, to, from);
      NoneSpread(dl, sl, items', source);
    }
  }

  lemma NoneSpread(dl: Layout, sl: Layout, items': map<int, Item>, items: map<int, Item>)
    requires Fits(dl.dims, sl.dims) && Size(dl.dims) == 0
    ensures Gathered(items', Places(dl)) == [] == Spread(dl.dims, sl.dims, Gathered(items, Places(sl)))
    ensures Gathered(items', []) == [] == Gathered(items, [])
  {
    hide Fits;
  }

  lemma InTurnDelivers(k: Casting, w: World, dest: Header, src: Header)
    requires Seated(w, dest) && Seated(w, src) && HowMoved(k, dest, src).Together? && Undisturbed(k, dest, src)
    requires Equiv(k, dest.dtype, src.dtype) && src.Nd() > 0
    ensures Fits(dest.layout.dims, src.layout.dims)
    ensures Delivered(k, w, MovedTogether(k, w, dest, src), dest, src)
  {
    hide TrueFlags, Fits, Equiv, Simple, Delivered, Gathered, Places, WrittenPlaces, ReadPlaces, Clean, MovedTogether;
    hide ItemByItem;
    InTurnMeans(k, w, dest, src);
    var to, from := WrittenPlaces(dest.layout, src.layout), ReadPlaces(dest.layout, src.layout);
    WrittenOnce(dest.layout, src.layout);
    ByItemGives(w.memory[dest.data].items, dest.data == src.data, w.memory[src.data].items, to, from);
  }

  lemma WrittenOnce(dl: Layout, sl: Layout)
    requires Fits(dl.dims, sl.dims) && sl.dims != [] && Distinct(Places(dl))
    ensures Distinct(WrittenPlaces(dl, sl))
  {
    hide Fits, Places, WrittenPlaces, ReadPlaces;
    if Size(dl.dims) > 0 {
      VisitedPlacesIn(dl, sl);
    } else {
      NothingVisited(dl, sl);
    }
  }

  /** The block holds other items. */
  function Refill(w: World, m: Ref, items: map<int, Item>): World
    requires m in w.memory
  {
    w.(memory := w.memory[m := Block(items, w.memory[m].writes)])
  }

  /** Moving by iterators within one block delivers whatever the block holds, exactly
      if no item is read after another one has replaced it. */
  lemma MoveExact(k: Casting, w: World, dest: Header, src: Header)
    requires Seated(w, dest) && Seated(w, src) && dest.data == src.data && HowMoved(k, dest, src).Together?
    requires Equiv(k, dest.dtype, src.dtype) && src.Nd() > 0
    ensures Fits(dest.layout.dims, src.layout.dims)
    ensures (forall items: map<int, Item> :: items.Keys == w.memory[dest.data].items.Keys ==>
               var v := Refill(w, dest.data, items);
               Delivered(k, v, MovedTogether(k, v, dest, src), dest, src))
            <==> Undisturbed(k, dest, src)
  {
    hide TrueFlags, Fits, Equiv, Simple, Delivered, Gathered, Places, WrittenPlaces, ReadPlaces, Clean, InTurn;
    hide MovedTogether;
    var to, from := WrittenPlaces(dest.layout, src.layout), ReadPlaces(dest.layout, src.layout);
    var keys := w.memory[dest.data].items.Keys;
    forall items: map<int, Item> | items.Keys == keys
      ensures var v := Refill(w, dest.data, items);
              Delivered(k, v, MovedTogether(k, v, dest, src), dest, src)
              <==> Gathered(InTurn(items, to, from), to) == Gathered(items, from)
    {
      var v := Refill(w, dest.data, items);
      SeatedAgain(w, v, dest);
      SeatedAgain(w, v, src);
      InTurnMeans(k, v, dest, src);
    }
    WrittenOnce(dest.layout, src.layout);
    ReadInside(dest.layout, src.layout, w.memory[dest.data].items);
    InTurnExact(keys, to, from);
  }

  lemma OneAxisPlaces(dl: Layout, sl: Layout)
    requires dl.dims == sl.dims && |dl.dims| == 1
    ensures Fits(dl.dims, sl.dims)
    ensures WrittenPlaces(dl, sl) == Along(Size(dl.dims), dl.offset, dl.strides[0])
    ensures ReadPlaces(dl, sl) == Along(Size(sl.dims), sl.offset, sl.strides[0])
  {
    SameShapeMeets(dl.dims, seq(Size(dl.dims), _ => 0));
    assert Stretched(dl, dl.dims) == dl && Stretched(sl, sl.dims) == sl;
    OneAxisVisited(dl);
    OneAxisVisited(sl);
    hide VisitedPlaces, Fits;
  }

  /** Along one axis, at the same distances, a value is disturbed exactly if the
      destination starts at one of its later elements. */
  lemma OneAxisDisturbed(k: Casting, dest: Header, src: Header)
    requires dest.data == src.data && HowMoved(k, dest, src).Together? && Equiv(k, dest.dtype, src.dtype)
    requires dest.layout.dims == src.layout.dims && dest.Nd() == 1
    requires dest.layout.strides == src.layout.strides && dest.layout.strides[0] != 0
    ensures Undisturbed(k, dest, src)
            <==> !exists q: nat :: 0 < q < src.Count() && Places(src.layout)[q] == dest.layout.offset
  {
    hide Fits, Equiv, Simple, HowMoved, WrittenPlaces, ReadPlaces, Clean, Places, VisitedPlaces;
    var dl, sl := dest.layout, src.layout;
    OneAxisPlaces(dl, sl);
    OneAxisVisited(sl);
    OneAxisClean(src.Count(), dl.offset, sl.offset, sl.strides[0]);
  }

  lemma SeatedAgain(w: World, v: World, h: Header)
    requires Seated(w, h) && h.data in v.memory && v.memory[h.data].items.Keys == w.memory[h.data].items.Keys
    ensures Seated(v, h)
  {
    hide TrueFlags, Places, Distinct;
    forall p | p in Places(h.layout) ensures p in v.memory[h.data].items {
      assert p in w.memory[h.data].items.Keys;
    }
  }

  lemma ReadInside(dl: Layout, sl: Layout, items: map<int, Item>)
    requires Fits(dl.dims, sl.dims) && sl.dims != [] && forall p :: p in Places(sl) ==> p in items
    ensures forall p :: p in ReadPlaces(dl, sl) ==> p in items.Keys
  {
    hide Fits, Places, WrittenPlaces, ReadPlaces;
    if Size(dl.dims) > 0 {
      VisitedPlacesIn(dl, sl);
    } else {
      NothingVisited(dl, sl);
    }
  }

  lemma FitsHas(d: seq<nat>, s: seq<nat>)
    requires Fits(d, s)
    ensures Broadcast(d, s).Some? && Size(Broadcast(d, s).value) == Size(d)
    ensures |d| <= |Broadcast(d, s).value| && |s| <= |Broadcast(d, s).value|
  {
  }

  lemma NoPlaces(l: Layout, t: Layout)
    requires Size(l.dims) == Size(t.dims) == 0
    ensures Places(t) == Places(l) == []
  {
  }

  /** The places of the destination are the only ones that are written. */
  lemma TogetherAround(k: Casting, w: World, dest: Header, src: Header)
    requires Seated(w, dest) && Seated(w, src) && HowMoved(k, dest, src).Together?
    ensures Fits(dest.layout.dims, src.layout.dims)
    ensures var w' := MovedTogether(k, w, dest, src);
            dest.data in w'.memory
            && Around(w.memory[dest.data].items, w'.memory[dest.data].items, Places(dest.layout))
  {
    hide TrueFlags, Fits, Equiv, Simple, Delivered, Gathered, Places, WrittenPlaces, ReadPlaces, ItemByItem, Laid;
    hide MovedTogether;
    if Equiv(k, dest.dtype, src.dtype) && src.Nd() > 0 {
      InTurnMeans(k, w, dest, src);
    } else {
      BuffersDeliver(k, w, dest, src);
      DeliveredAround(k, w, MovedTogether(k, w, dest, src), dest, src);
    }
  }

  lemma DeliveredAround(k: Casting, w: World, w': World, dest: Header, src: Header)
    requires Delivered(k, w, w', dest, src)
    ensures dest.data in w.memory && dest.data in w'.memory
    ensures Around(w.memory[dest.data].items, w'.memory[dest.data].items, Places(dest.layout))
  {
    hide Fits, Around, Spread;
  }

  lemma MoveWrites(k: Casting, w: World, src: Header, d: Ref)
    requires d in w.arrays && Seated(w, w.arrays[d]) && Seated(w, src)
    ensures var w', dest := MovedIn(k, w, src, d), w.arrays[d];
            var m := HowMoved(k, dest, src);
            && w'.arrays == w.arrays[d := IteratedIf(dest, m.Iterates())]
            && w'.memory.Keys == w.memory.Keys && w'.next == w.next && w'.trapped == w.trapped
            && (forall m :: m in w.memory ==> w'.memory[m].items.Keys == w.memory[m].items.Keys)
            && (forall m :: m in w.memory && m != dest.data ==> w'.memory[m] == w.memory[m])
            && Around(w.memory[dest.data].items, w'.memory[dest.data].items, Places(dest.layout))
            && (m.Delivers() && Undisturbed(k, dest, src) ==> Delivered(k, w, w', dest, src))
            && (if m.Delivers() then w'.memory[dest.data].writes == w.memory[dest.data].writes + 1
                else w'.memory == w.memory)
  {
    hide TrueFlags, Laid, Fits, Equiv, SameRun, Iterated, Stored, Filling, MovedTogether, Delivered, Around;
    hide OneBlock, Undisturbed;
    var dest := w.arrays[d];
    assert w.arrays == w.arrays[d := dest];
    AroundItself(w.memory[dest.data].items, Places(dest.layout));
    match HowMoved(k, dest, src)
    case Skip =>
    case Forbidden =>
    case AsRun =>
      SameRunCounts(dest, src);
      RunDelivers(k, w, dest, src);
      DeliveredAround(k, w, Stored(k, w, dest, src), dest, src);
      BlockFacts(w, Stored(k, w, dest, src), dest);
    case Fill =>
      FillDelivers(k, w, dest, src);
      DeliveredAround(k, w, Filling(k, w, dest, src), dest, src);
      BlockFacts(w, Filling(k, w, dest, src), dest);
    case Together =>
      TogetherAround(k, w, dest, src);
      TogetherIsBlock(k, w, dest, src);
      BlockFacts(w, MovedTogether(k, w, dest, src), dest);
      if Undisturbed(k, dest, src) {
        TogetherDelivers(k, w, dest, src);
        SameBlocks(k, w, MovedTogether(k, w, dest, src), MovedIn(k, w, src, d), dest, src);
      }
    case Mismatch =>
  }

  lemma AroundItself(items: map<int, Item>, places: seq<int>)
    ensures Around(items, items, places)
  {
  }

  lemma SameBlocks(k: Casting, w: World, w': World, v: World, dest: Header, src: Header)
    requires Delivered(k, w, w', dest, src) && v.memory == w'.memory
    ensures Delivered(k, w, v, dest, src)
  {
    hide Fits, Around;
  }

  lemma BlockFacts(w: World, w': World, dest: Header)
    requires OneBlock(w, w', dest.data)
    requires Around(w.memory[dest.data].items, w'.memory[dest.data].items, Places(dest.layout))
    ensures w'.arrays == w.arrays && w'.next == w.next && w'.trapped == w.trapped
    ensures w'.memory.Keys == w.memory.Keys
    ensures forall m :: m in w.memory ==> w'.memory[m].items.Keys == w.memory[m].items.Keys
    ensures forall m :: m in w.memory && m != dest.data ==> w'.memory[m] == w.memory[m]
    ensures w'.memory[dest.data].writes == w.memory[dest.data].writes + 1
  {
    hide Places;
  }

  lemma SameRunCounts(dest: Header, src: Header)
    requires SameRun(dest, src)
    ensures dest.Count() == src.Count()
  {
  }

  lemma MovedInKeeps(k: Casting, w: World, src: Header, d: Ref)
    requires Valid(w) && d in w.arrays && Seated(w, w.arrays[d]) && Seated(w, src)
    ensures Valid(MovedIn(k, w, src, d)) && SameLinks(w, MovedIn(k, w, src, d))
  {
    hide Valid, Sound, Children, TrueFlags, Laid, MovedIn, Delivered, Iterated, SameHeader, HowMoved, Around;
    hide Undisturbed, Places;
    var w' := MovedIn(k, w, src, d);
    ValidFacts(w);
    MoveWrites(k, w, src, d);
    forall a | a in w.arrays ensures SameHeader(w.arrays[a], w'.arrays[a]) {
      IteratedSame(w.arrays[a]);
    }
    IteratedPlain(w.arrays[d]);
    SameLinksKeep(w, w');
  }

  lemma MoveKeeps(k: Casting, w: World, d: Ref, s: Ref)
    requires Valid(w) && d in w.arrays && s in w.arrays && Seated(w, w.arrays[d]) && Seated(w, w.arrays[s])
    ensures Valid(MoveInto(k, w, d, s))
  {
    hide Valid, MovedIn, HowMoved, TrueFlags, Laid;
    MovedInKeeps(k, w, w.arrays[s], d);
    var w1 := MovedIn(k, w, w.arrays[s], d);
    IterateKeeps(w1, s);
    assert With(w1, s, w1.arrays[s]).arrays == w1.arrays;
  }

  /** A move into `d`. If it comes to anything, and unless it reads what it has itself
      replaced, every element gets the one that meets it. Both headers have their
      row-major flag brought up to date if iterators were made, even if the shapes
      then do not fit. */
  lemma MoveMeans(k: Casting, w: World, d: Ref, s: Ref)
    requires d in w.arrays && s in w.arrays && Seated(w, w.arrays[d]) && Seated(w, w.arrays[s])
    ensures var w', dest, src := MoveInto(k, w, d, s), w.arrays[d], w.arrays[s];
            var m := HowMoved(k, dest, src);
            && w'.arrays == w.arrays[d := IteratedIf(dest, m.Iterates())][s := IteratedIf(src, m.Iterates())]
            && w'.memory.Keys == w.memory.Keys && w'.next == w.next && w'.trapped == w.trapped
            && (forall m :: m in w.memory && m != dest.data ==> w'.memory[m] == w.memory[m])
            && Around(w.memory[dest.data].items, w'.memory[dest.data].items, Places(dest.layout))
            && (m.Delivers() && Undisturbed(k, dest, src) ==> Delivered(k, w, w', dest, src))
            && (if m.Delivers() then w'.memory[dest.data].writes == w.memory[dest.data].writes + 1
                else w'.memory == w.memory)
  {
    hide MovedIn, HowMoved, TrueFlags, Laid, Delivered, Iterated, Undisturbed, Around, Places;
    MoveWrites(k, w, w.arrays[s], d);
    IteratedTrue(w.arrays[s]);
    var w1 := MovedIn(k, w, w.arrays[s], d);
    if HowMoved(k, w.arrays[d], w.arrays[s]).Delivers() && Undisturbed(k, w.arrays[d], w.arrays[s]) {
      SameBlocks(k, w, w1, MoveInto(k, w, d, s), w.arrays[d], w.arrays[s]);
    }
  }

  /** Whether a move into a writeable array succeeds. */
  lemma MoveSucceeds(k: Casting, dest: Header, src: Header)
    requires Writeable in dest.flags
    ensures var fits := Fits(dest.layout.dims, src.layout.dims);
            && (HowMoved(k, dest, src).Fails()
                <==> !fits && !(src.Count() == 0 && !Equiv(k, dest.dtype, src.dtype)))
            && (!HowMoved(k, dest, src).Delivers() && fits ==> dest.Count() == 0)
            && (HowMoved(k, dest, src).Delivers() ==> fits)
  {
    hide Simple, Equiv, Fits, Spread, Size;
    var d, s := dest.layout.dims, src.layout.dims;
    SameShapeMeets(d, seq(Size(d), _ => 0));
    ScalarMeets(d, [0]);
    FitsCounts(d, s);
  }

  lemma FitsCounts(d: seq<nat>, s: seq<nat>)
    ensures Fits(d, s) && Size(d) > 0 ==> Size(s) > 0
  {
    hide Fits, Size;
    if Fits(d, s) && Size(d) > 0 {
      var m := Meeting(d, s, 0);
    }
  }

  /** What a move comes to, from the types, flags and shapes alone. It fails for a
      read-only destination and for shapes that do not fit, unless there is nothing to
      cast; the destination is written once unless it is empty, and iterators are made
      unless one run or one element is copied. */
  lemma MoveOutcome(k: Casting, w: World, d: Ref, s: Ref)
    requires d in w.arrays && s in w.arrays && Seated(w, w.arrays[d]) && Seated(w, w.arrays[s])
    ensures var w', dest, src := MoveInto(k, w, d, s), w.arrays[d], w.arrays[s];
            var plain, both := Interchange(k, src.dtype, dest.dtype), dest.flags * src.flags;
            var run := dest.layout.dims == src.layout.dims && dest.dtype.native && src.dtype.native
                       && Aligned in both && (Contiguous in both || Fortran in both);
            var fits, empty := Fits(dest.layout.dims, src.layout.dims), !plain && src.Count() == 0;
            var fails := !empty && (Writeable !in dest.flags || !fits);
            var fill := plain && src.Nd() == 0;
            var walk := !empty && Writeable in dest.flags && !run && !fill;
            && (HowMoved(k, dest, src).Fails() <==> fails)
            && w'.trapped == w.trapped
            && (fails || empty ==> w'.memory == w.memory)
            && (!fails && !empty && dest.Count() > 0 ==>
                  dest.data in w.memory && dest.data in w'.memory
                  && w'.memory[dest.data].writes == w.memory[dest.data].writes + 1)
            && w'.arrays == w.arrays[d := if walk then Iterated(dest) else dest]
                                    [s := if walk then Iterated(src) else src]
  {
    hide MoveInto, TrueFlags, Laid, Around, Gathered, Places, Iterated, Delivered, Fits, Undisturbed;
    MoveMeans(k, w, d, s);
    ScalarMeets(w.arrays[d].layout.dims, [0]);
    SameShapeMeets(w.arrays[d].layout.dims, seq(Size(w.arrays[d].layout.dims), _ => 0));
  }

  lemma NothingSpread(k: Casting, w: World, dest: Header, src: Header, given: seq<Item>)
    requires dest.data in w.memory && Fits(dest.layout.dims, src.layout.dims) && dest.Count() == 0
    requires |given| == src.Count()
    ensures Elements(w, dest) == Spread(dest.layout.dims, src.layout.dims, given)
  {
    hide Fits, Places, Meeting;
  }

  /** Into a writeable array that the value fits every element is moved, and cast exactly
      if its type cannot be taken over. */
  lemma MoveConverts(k: Casting, w: World, d: Ref, s: Ref)
    requires d in w.arrays && s in w.arrays && Seated(w, w.arrays[d]) && Seated(w, w.arrays[s])
    requires Writeable in w.arrays[d].flags && Fits(w.arrays[d].layout.dims, w.arrays[s].layout.dims)
    ensures var w', dest, src := MoveInto(k, w, d, s), w.arrays[d], w.arrays[s];
            && dest.data in w'.memory
            && (!Interchange(k, src.dtype, dest.dtype) ==>
                  Elements(w', dest) == Spread(dest.layout.dims, src.layout.dims,
                                               CastAll(k, src.dtype, dest.dtype, Elements(w, src))))
            && (Interchange(k, src.dtype, dest.dtype) && Apart(dest, src) ==>
                  Elements(w', dest) == Spread(dest.layout.dims, src.layout.dims, Elements(w, src)))
  {
    hide MoveInto, TrueFlags, Laid, Around, Fits, Simple, Places, Converted, Undisturbed, Apart, Spread, HowMoved;
    var w', dest, src := MoveInto(k, w, d, s), w.arrays[d], w.arrays[s];
    MoveMeans(k, w, d, s);
    MoveSucceeds(k, dest, src);
    ConvertedMeans(k, src.dtype, dest.dtype, Elements(w, src));
    if HowMoved(k, dest, src).Delivers() {
      if !Interchange(k, src.dtype, dest.dtype) {
        CastClean(k, dest, src);
      }
      if Apart(dest, src) {
        ApartClean(k, dest, src);
      }
    } else {
      NothingSpread(k, w', dest, src, Elements(w, src));
      NothingSpread(k, w', dest, src, CastAll(k, src.dtype, dest.dtype, Elements(w, src)));
    }
  }

  /** A cast goes through buffers. */
  lemma CastClean(k: Casting, dest: Header, src: Header)
    requires !Interchange(k, src.dtype, dest.dtype)
    ensures Undisturbed(k, dest, src)
  {
    hide Fits, WrittenPlaces, ReadPlaces, Clean;
  }

  /** One axis of the same block, by iterators, from each item to the next. */
  ghost predicate Shifted(k: Casting, dest: Header, src: Header) {
    && dest.data == src.data && Equiv(k, dest.dtype, src.dtype) && HowMoved(k, dest, src).Together?
    && dest.layout.dims == src.layout.dims && dest.Nd() == 1 && src.Count() > 0
    && dest.layout.strides == src.layout.strides
    && dest.layout.offset == src.layout.offset + src.layout.strides[0]
  }

  /** Moving to the next items repeats the first item. */
  lemma ShiftRepeats(k: Casting, w: World, d: Ref, s: Ref)
    requires d in w.arrays && s in w.arrays && Seated(w, w.arrays[d]) && Seated(w, w.arrays[s])
    requires Shifted(k, w.arrays[d], w.arrays[s])
    ensures var w', src := MoveInto(k, w, d, s), w.arrays[s];
            && src.Nd() == 1 && src.data in w'.memory && src.layout.offset in w.memory[src.data].items
            && forall p :: p in Along(src.Count() + 1, src.layout.offset, src.layout.strides[0]) ==>
                 p in w'.memory[src.data].items
                 && w'.memory[src.data].items[p] == w.memory[src.data].items[src.layout.offset]
  {
    hide TrueFlags, Laid, Fits, Equiv, Simple, HowMoved, MoveInto, InTurn, Along;
    var src := w.arrays[s];
    FirstInside(w, src);
    ShiftItems(k, w, d, s);
    Smears(w.memory[src.data].items, src.Count(), src.layout.offset, src.layout.strides[0]);
  }

  lemma FirstInside(w: World, src: Header)
    requires Seated(w, src) && src.Nd() == 1 && src.Count() > 0
    ensures src.layout.offset in w.memory[src.data].items
  {
    OneAxisPlace(src.layout, 0);
    assert Place(src.layout, 0) == src.layout.offset;
    hide TrueFlags, Place;
    var p := Places(src.layout)[0];
    assert p in Places(src.layout);
  }

  lemma ShiftItems(k: Casting, w: World, d: Ref, s: Ref)
    requires d in w.arrays && s in w.arrays && Seated(w, w.arrays[d]) && Seated(w, w.arrays[s])
    requires Shifted(k, w.arrays[d], w.arrays[s])
    ensures var src := w.arrays[s];
            var n, first, stride := src.Count(), src.layout.offset, src.layout.strides[0];
            && src.data in MoveInto(k, w, d, s).memory && src.data in w.memory
            && MoveInto(k, w, d, s).memory[src.data].items
               == InTurn(w.memory[src.data].items, Along(n, first + stride, stride), Along(n, first, stride))
  {
    hide TrueFlags, Laid, Fits, Equiv, Simple, Delivered, WrittenPlaces, ReadPlaces, Around, MoveInto, MovedTogether;
    var dest, src := w.arrays[d], w.arrays[s];
    InTurnMeans(k, w, dest, src);
    OneAxisPlaces(dest.layout, src.layout);
    MovedMemory(k, w, d, s);
  }

  lemma MovedMemory(k: Casting, w: World, d: Ref, s: Ref)
    requires d in w.arrays && w.arrays[d].data in w.memory && s in w.arrays && w.arrays[s].data in w.memory
    requires HowMoved(k, w.arrays[d], w.arrays[s]).Together?
    ensures Fits(w.arrays[d].layout.dims, w.arrays[s].layout.dims)
    ensures MoveInto(k, w, d, s).memory == MovedTogether(k, w, w.arrays[d], w.arrays[s]).memory
  {
    hide Fits, Equiv, Simple, MovedTogether, Iterated;
  }

  /** Arrays of one shape that have no memory in common are moved as they are copied. */
  lemma ApartInTurn(k: Casting, w: World, dest: Header, src: Header)
    requires Seated(w, dest) && Seated(w, src) && Apart(dest, src) && HowMoved(k, dest, src).Together?
    requires dest.layout.dims == src.layout.dims && !Simple(dest, src)
    ensures Fits(dest.layout.dims, src.layout.dims) && dest.Count() == src.Count()
    ensures MovedTogether(k, w, dest, src) == Stored(k, w, dest, src)
  {
    hide TrueFlags, Laid, Fits, Equiv, Simple, Delivered, Undisturbed, Around, Places, MovedTogether, Stored, Arrived;
    ApartClean(k, dest, src);
    TogetherDelivers(k, w, dest, src);
    TogetherIsBlock(k, w, dest, src);
    StoredIsBlock(k, w, dest, src);
    StoredMeans(k, w, dest, src);
    var w', w2 := MovedTogether(k, w, dest, src), Stored(k, w, dest, src);
    SameShapeArrives(k, dest, src, Elements(w2, dest), Elements(w, src));
    DeliveredElements(k, w, w', dest, src);
    SameAround(w.memory[dest.data].items, w'.memory[dest.data].items, w2.memory[dest.data].items, Places(dest.layout));
  }

  lemma DeliveredElements(k: Casting, w: World, w': World, dest: Header, src: Header)
    requires Delivered(k, w, w', dest, src) && dest.layout.dims == src.layout.dims
    ensures dest.data in w'.memory && dest.data in w.memory && src.data in w.memory
    ensures Around(w.memory[dest.data].items, w'.memory[dest.data].items, Places(dest.layout))
    ensures Elements(w', dest) == Converted(k, src.dtype, dest.dtype, Elements(w, src))
  {
    hide Fits, Around, Converted;
    SameShapeMeets(dest.layout.dims, Converted(k, src.dtype, dest.dtype, Elements(w, src)));
  }

  lemma SameAround(items: map<int, Item>, a: map<int, Item>, b: map<int, Item>, places: seq<int>)
    requires Around(items, a, places) && Around(items, b, places) && Gathered(a, places) == Gathered(b, places)
    ensures a == b
  {
    forall p | p in a ensures p in b && a[p] == b[p] {
      assert p in items.Keys;
      if p in places {
        var i :| 0 <= i < |places| && places[i] == p;
        assert Gathered(a, places)[i] == Gathered(b, places)[i];
      }
    }
    assert a.Keys == b.Keys;
  }
}
