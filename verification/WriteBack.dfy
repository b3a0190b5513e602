/**
 Arrays that stand in for another one and are copied back into it
 (UPDATEIFCOPY): libndarray/src/npy_ctors.c, npy_arrayobject.c, npy_shape.c.
 */
module WriteBack {
  import opened Copying
  import opened NdArray
  import opened Storage
  import opened Wrappers

  // ----- The invariant

  function Children(w: World, a: Ref): set<Ref> {
    set c | c in w.arrays && w.arrays[c].base == Some(a)
  }

  /** `a` waits to be copied back into `b`. */
  predicate Holds(w: World, a: Ref, b: Ref) {
    a in w.arrays && UpdateIfCopy in w.arrays[a].flags && w.arrays[a].base == Some(b)
  }

  /** The elements lie in the block, and the order flags are true. */
  ghost predicate Seated(w: World, h: Header) {
    h.data in w.memory && TrueFlags(h) && Laid(h.layout, w.memory[h.data].items)
  }

  /** Memory belongs to the array with its reference; arrays without have a base. */
  ghost predicate Linked(w: World, a: Ref)
    requires a in w.arrays
  {
    var h := w.arrays[a];
    && |Children(w, a)| <= h.refs && a < w.next && h.data <= a && Seated(w, h)
    && (UpdateIfCopy in h.flags ==> h.base.Some?)
    && (h.base.Some? ==> h.base.value < a && h.base.value in w.arrays)
    && (OwnData in h.flags <==> h.data == a)
    && (h.base.None? || UpdateIfCopy in h.flags ==> h.data == a)
  }

  /** A pending copy has its own memory and locks its base, alone. */
  ghost predicate Locked(w: World, a: Ref, b: Ref) {
    && a in w.arrays && b in w.arrays && w.arrays[a].data in w.memory && w.arrays[b].data in w.memory
    && Writeable !in w.arrays[b].flags && w.arrays[b].data < w.arrays[a].data
    && w.arrays[a].Count() == w.arrays[b].Count()
    && forall c :: Holds(w, c, b) ==> c == a
  }

  /** Items of one type in one block. */
  predicate SameMemory(h: Header, h': Header) {
    h'.data == h.data && h'.dtype == h.dtype
  }

  ghost predicate Sound(w: World, a: Ref)
    requires a in w.arrays
  {
    var h := w.arrays[a];
    && Linked(w, a)
    && (h.base.Some? && UpdateIfCopy in h.flags ==> Locked(w, a, h.base.value))
    && (h.base.Some? && OwnData !in h.flags ==> SameMemory(w.arrays[h.base.value], h))
  }

  ghost predicate Valid(w: World) {
    forall a {:trigger Sound(w, a)} :: a in w.arrays ==> Sound(w, a) && w.arrays[a].refs > 0
  }

  // ----- Dropping references

  function WithRefs(w: World, a: Ref, refs: nat): World
    requires a in w.arrays
  {
    w.(arrays := w.arrays[a := w.arrays[a].(refs := refs)])
  }

  function Without(w: World, a: Ref): World {
    w.(arrays := w.arrays - {a})
  }

  function Unlocked(h: Header): Header {
    h.(flags := h.flags + {Writeable})
  }

  /** Unlock the base `b` and copy into it from an array with the header `self`. */
  ghost function CopiedBack(k: Casting, w: World, self: Header, b: Ref): World
    requires b in w.arrays && self.data in w.memory && w.arrays[b].data in w.memory
  {
    CopiedIn(k, With(w, b, Unlocked(w.arrays[b])), self, b)
  }

  /** The base of `a` is there; in a valid world it always is. */
  predicate HasBase(w: World, a: Ref) {
    && a in w.arrays && w.arrays[a].base.Some? && w.arrays[a].data in w.memory
    && var b := w.arrays[a].base.value; b < a && b in w.arrays && w.arrays[b].data in w.memory
  }

  /** `NpyArray_dealloc` up to the point where the base loses its reference. */
  ghost function Left(k: Casting, w: World, a: Ref): World
    requires HasBase(w, a)
  {
    var h := w.arrays[a];
    var w1 := if h.Pending() then CopiedBack(k, w, h, h.base.value) else w;
    Without(w1, a)
  }

  /** `Npy_DECREF`: what loses its last reference goes, and its base loses one. */
  ghost function Decref(k: Casting, w: World, a: Ref): World
    requires a in w.arrays
    decreases a
  {
    if w.arrays[a].refs > 1 then WithRefs(w, a, w.arrays[a].refs - 1)
    else if !HasBase(w, a) then Without(w, a)
    else Decref(k, Left(k, w, a), w.arrays[a].base.value)
  }

  // ----- Each step keeps the invariant

  lemma SoundFacts(w: World, a: Ref)
    requires Valid(w) && a in w.arrays && w.arrays[a].base.Some?
    ensures HasBase(w, a) && w.arrays[w.arrays[a].base.value].data <= w.arrays[a].data
  {
    hide Children, TrueFlags, Laid;
    assert Sound(w, a) && Sound(w, w.arrays[a].base.value);
  }

  lemma DataThere(w: World, a: Ref)
    requires Valid(w) && a in w.arrays
    ensures Linked(w, a) && w.arrays[a].data in w.memory
  {
    assert Sound(w, a);
  }

  lemma InUse(w: World, a: Ref)
    requires Valid(w) && a in w.arrays
    ensures w.arrays[a].refs > 0
  {
    assert Sound(w, a);
  }

  /** The arrays differ in counts and locks at most, and memory keeps its places. */
  ghost predicate SameLinks(w: World, w': World) {
    && w'.arrays.Keys == w.arrays.Keys && w'.memory.Keys == w.memory.Keys && w'.next == w.next
    && (forall a :: a in w.arrays ==> SameHeader(w.arrays[a], w'.arrays[a]))
    && (forall m :: m in w.memory ==> w'.memory[m].items.Keys == w.memory[m].items.Keys)
  }

  /** The flags agree, but for the lock. */
  ghost predicate SameFlags(f: set<Flag>, g: set<Flag>) {
    forall x :: x != Writeable ==> (x in g <==> x in f)
  }

  /** The header is the same but for count and lock, or an iterator was made. */
  ghost predicate SameHeader(h: Header, h': Header) {
    && h' == h.(flags := h'.flags, refs := h'.refs)
    && (SameFlags(h.flags, h'.flags) || SameFlags(Iterated(h).flags, h'.flags))
  }

  /** The other flags, the base and the count do not matter. */
  lemma StaysTrue(h: Header, h': Header)
    requires TrueFlags(h) && h'.dtype == h.dtype && h'.layout == h.layout
    requires Contiguous in h'.flags <==> Contiguous in h.flags
    requires Fortran in h'.flags <==> Fortran in h.flags
    ensures TrueFlags(h')
  {
  }

  lemma SameTrue(h: Header, h': Header)
    requires TrueFlags(h) && SameHeader(h, h')
    ensures TrueFlags(h')
  {
    IteratedTrue(h);
    hide TrueFlags;
    if SameFlags(h.flags, h'.flags) {
      StaysTrue(h, h');
    } else {
      StaysTrue(Iterated(h), h');
    }
  }

  lemma SameRest(h: Header, h': Header)
    requires SameHeader(h, h')
    ensures forall x :: x != Writeable && x != Contiguous && x != Fortran ==> (x in h'.flags <==> x in h.flags)
  {
    hide Relabels;
  }

  lemma IteratedSame(h: Header)
    ensures SameHeader(h, Iterated(h)) && SameHeader(h, Unlocked(h)) && SameHeader(h, Iterated(Unlocked(h)))
    ensures SameHeader(h, h)
  {
  }

  /** Everything but the order flags stays. */
  lemma IteratedPlain(h: Header)
    ensures var g := Iterated(h);
            && g == h.(flags := g.flags)
            && forall x :: x != Contiguous && x != Fortran ==> (x in g.flags <==> x in h.flags)
  {
    hide Relabels;
  }

  lemma SeatedKept(w: World, w': World, h: Header, h': Header)
    requires Seated(w, h) && SameHeader(h, h') && h.data in w'.memory
    requires w'.memory[h.data].items.Keys == w.memory[h.data].items.Keys
    ensures Seated(w', h')
  {
    hide Places, Distinct, TrueFlags;
    SameTrue(h, h');
    hide SameHeader;
    forall p | p in w.memory[h.data].items ensures p in w'.memory[h.data].items {
      assert p in w'.memory[h.data].items.Keys;
    }
  }

  lemma LockedKept(w: World, w': World, a: Ref, b: Ref)
    requires SameLinks(w, w') && Locked(w, a, b) && Holds(w, a, b) && Writeable !in w'.arrays[b].flags
    ensures Locked(w', a, b)
  {
    assert SameHeader(w.arrays[a], w'.arrays[a]) && SameHeader(w.arrays[b], w'.arrays[b]);
    forall c | Holds(w', c, b) ensures c == a {
      assert SameHeader(w.arrays[c], w'.arrays[c]);
      assert Holds(w, c, b);
    }
  }

  lemma SameChildren(w: World, w': World, a: Ref)
    requires SameLinks(w, w')
    ensures Children(w', a) == Children(w, a)
  {
  }

  lemma SameChildrenByBase(w: World, w': World, b: Ref)
    requires w'.arrays.Keys == w.arrays.Keys && forall x :: x in w.arrays ==> w'.arrays[x].base == w.arrays[x].base
    ensures Children(w', b) == Children(w, b)
  {
  }

  lemma SoundKept(w: World, w': World, a: Ref)
    requires SameLinks(w, w') && a in w.arrays && Sound(w, a) && w'.arrays[a].refs >= |Children(w, a)|
    requires forall b :: Holds(w, a, b) ==> b in w.arrays && Writeable !in w'.arrays[b].flags
    ensures Sound(w', a)
  {
    hide Locked, Children;
    SameChildren(w, w', a);
    var h := w.arrays[a];
    assert SameHeader(h, w'.arrays[a]);
    SeatedKept(w, w', h, w'.arrays[a]);
    hide Seated;
    if h.base.Some? {
      assert SameHeader(w.arrays[h.base.value], w'.arrays[h.base.value]);
      if UpdateIfCopy in h.flags {
        assert Holds(w, a, h.base.value);
        LockedKept(w, w', a, h.base.value);
      }
    }
  }

  /** Counts may change as long as they cover the children; a base that nobody
      waits for may be unlocked. */
  lemma SameLinksKeep(w: World, w': World)
    requires Valid(w) && SameLinks(w, w')
    requires forall a :: a in w.arrays ==> w'.arrays[a].refs > 0 && w'.arrays[a].refs >= |Children(w, a)|
    requires forall a, b :: Holds(w, a, b) && b in w.arrays ==> Writeable !in w'.arrays[b].flags
    ensures Valid(w')
  {
    hide Locked, Children, SameHeader;
    forall a | a in w'.arrays ensures Sound(w', a) {
      assert Sound(w, a);
      SoundKept(w, w', a);
    }
  }

  /** An array stays sound in a world that treats it and its base alike. */
  lemma SoundMoved(w: World, w': World, x: Ref)
    requires x in w.arrays && Sound(w, x) && x in w'.arrays && w'.next >= w.next
    requires forall m :: m in w.memory && m <= x ==> m in w'.memory && w'.memory[m] == w.memory[m]
    requires SameHeader(w.arrays[x], w'.arrays[x]) && |Children(w', x)| <= w'.arrays[x].refs
    requires w.arrays[x].base.Some? ==>
               var b := w.arrays[x].base.value;
               b in w.arrays ==>
                 b in w'.arrays && SameMemory(w.arrays[b], w'.arrays[b]) && w'.arrays[b].layout == w.arrays[b].layout
    requires forall b :: Holds(w, x, b) ==>
               b in w'.arrays && Writeable !in w'.arrays[b].flags && forall c :: Holds(w', c, b) ==> c == x
    ensures Sound(w', x)
  {
    hide Children, TrueFlags, Laid;
    SeatedKept(w, w', w.arrays[x], w'.arrays[x]);
  }

  lemma IsChild(w: World, x: Ref)
    requires x in w.arrays && w.arrays[x].base.Some?
    ensures x in Children(w, w.arrays[x].base.value)
  {
  }

  lemma HolderLocks(w: World, x: Ref, b: Ref)
    requires x in w.arrays && Sound(w, x) && Holds(w, x, b)
    ensures Locked(w, x, b)
  {
  }

  lemma LockedFacts(w: World, x: Ref, b: Ref)
    requires Locked(w, x, b)
    ensures b in w.arrays && Writeable !in w.arrays[b].flags && forall c :: Holds(w, c, b) ==> c == x
  {
  }

  lemma RemovedChildren(w: World, a: Ref, x: Ref)
    ensures Children(Without(w, a), x) == Children(w, x) - {a}
  {
  }

  lemma RemovedHolds(w: World, a: Ref, c: Ref, x: Ref)
    ensures Holds(Without(w, a), c, x) <==> Holds(w, c, x) && c != a
  {
  }

  lemma RemovedSound(w: World, a: Ref, x: Ref)
    requires Valid(w) && a in w.arrays && Children(w, a) == {} && x in w.arrays && x != a
    ensures Sound(Without(w, a), x)
  {
    hide Children, Holds, TrueFlags, Laid, Locked;
    var w' := Without(w, a);
    assert Sound(w, x);
    RemovedChildren(w, a, x);
    if w.arrays[x].base.Some? {
      IsChild(w, x);
    }
    forall b | Holds(w, x, b)
      ensures b in w'.arrays && Writeable !in w'.arrays[b].flags && forall c :: Holds(w', c, b) ==> c == x
    {
      HolderBase(w, x, b);
      HolderLocks(w, x, b);
      LockedFacts(w, x, b);
      forall c | Holds(w', c, b) ensures c == x {
        RemovedHolds(w, a, c, b);
      }
    }
    hide Sound, Linked, Valid;
    SoundMoved(w, w', x);
  }

  lemma HolderBase(w: World, x: Ref, b: Ref)
    requires Holds(w, x, b)
    ensures x in w.arrays && w.arrays[x].base == Some(b)
  {
  }

  /** Removing an array that nothing is based on. */
  lemma RemoveKeeps(w: World, a: Ref)
    requires Valid(w) && a in w.arrays && Children(w, a) == {}
    ensures Valid(Without(w, a))
    ensures forall b :: Children(Without(w, a), b) == Children(w, b) - {a}
  {
    hide Children, Sound;
    var w' := Without(w, a);
    ValidFacts(w);
    forall x | x in w'.arrays ensures Sound(w', x) {
      RemovedSound(w, a, x);
    }
    forall b ensures Children(w', b) == Children(w, b) - {a} {
      RemovedChildren(w, a, b);
    }
  }

  /** What every change of flags and counts has to respect. */
  lemma ValidFacts(w: World)
    requires Valid(w)
    ensures forall a :: a in w.arrays ==> w.arrays[a].refs > 0 && w.arrays[a].refs >= |Children(w, a)|
    ensures forall a, b :: Holds(w, a, b) && b in w.arrays ==> Writeable !in w.arrays[b].flags
  {
    hide Children, Seated;
    forall a | a in w.arrays ensures Sound(w, a) && w.arrays[a].refs > 0 {
      assert Sound(w, a);
    }
    forall a, b | Holds(w, a, b) ensures Locked(w, a, b) {
      HolderSound(w, a, b);
    }
  }

  /** `w'` is `w` after a copy that was not refused and did not trap. */
  ghost predicate Written(k: Casting, w: World, w': World, dest: Header, src: Header)
    requires dest.data in w.memory && src.data in w.memory && dest.data in w'.memory
  {
    && Arrived(k, dest, src, Elements(w', dest), Elements(w, src))
    && Around(w.memory[dest.data].items, w'.memory[dest.data].items, Places(dest.layout))
    && w'.memory[dest.data].writes == w.memory[dest.data].writes + if Stores(k, dest, src) then 1 else 0
  }

  lemma CopyWrites(k: Casting, w: World, src: Header, d: Ref)
    requires d in w.arrays && Seated(w, w.arrays[d]) && Seated(w, src)
    ensures var w', dest := CopiedIn(k, w, src, d), w.arrays[d];
            var way := CopyWay(k, dest, src);
            && w'.arrays == w.arrays[d := IteratedIf(dest, way.Walk?)]
            && w'.memory.Keys == w.memory.Keys && w'.next == w.next
            && (w'.trapped <==> w.trapped || way.Trap?)
            && (forall m :: m in w.memory ==> w'.memory[m].items.Keys == w.memory[m].items.Keys)
            && (forall m :: m in w.memory && m != dest.data ==> w'.memory[m] == w.memory[m])
            && (way.Nothing? || way.Trap? ==> w'.memory == w.memory)
            && (!Refused(k, dest, src) && dest.Count() == src.Count() && !way.Trap? ==> Written(k, w, w', dest, src))
  {
    hide Arrived, Places, Order, TrueFlags, Laid, Scattered, Converted, Iterated, Simple, Equiv;
    var dest := w.arrays[d];
    assert w.arrays == w.arrays[d := dest];
    if !Refused(k, dest, src) {
      if Stores(k, dest, src) {
        StoredMeans(k, w, dest, src);
      } else if dest.Count() == src.Count() {
        EmptyArrives(k, w, dest, src);
      }
    }
  }

  lemma CopiedInKeeps(k: Casting, w: World, src: Header, d: Ref)
    requires Valid(w) && d in w.arrays && Seated(w, w.arrays[d]) && Seated(w, src)
    ensures Valid(CopiedIn(k, w, src, d)) && SameLinks(w, CopiedIn(k, w, src, d))
  {
    hide Valid, Sound, Children, TrueFlags, Laid, CopiedIn, Written, Iterated, SameHeader, CopyWay;
    var w' := CopiedIn(k, w, src, d);
    ValidFacts(w);
    CopyWrites(k, w, src, d);
    forall a | a in w.arrays ensures SameHeader(w.arrays[a], w'.arrays[a]) {
      IteratedSame(w.arrays[a]);
    }
    IteratedPlain(w.arrays[d]);
    SameLinksKeep(w, w');
  }

  /** An iterator over an array keeps the world valid. */
  lemma IterateKeeps(w: World, a: Ref)
    requires Valid(w) && a in w.arrays
    ensures Valid(With(w, a, Iterated(w.arrays[a]))) && SameLinks(w, With(w, a, Iterated(w.arrays[a])))
  {
    hide Valid, Sound, Children, Iterated, SameHeader;
    var w' := With(w, a, Iterated(w.arrays[a]));
    ValidFacts(w);
    forall x | x in w.arrays ensures SameHeader(w.arrays[x], w'.arrays[x]) {
      IteratedSame(w.arrays[x]);
    }
    IteratedPlain(w.arrays[a]);
    SameLinksKeep(w, w');
  }

  lemma CopyKeeps(k: Casting, w: World, d: Ref, s: Ref)
    requires Valid(w) && d in w.arrays && s in w.arrays && Seated(w, w.arrays[d]) && Seated(w, w.arrays[s])
    ensures Valid(CopyAnyInto(k, w, d, s))
  {
    hide Valid, CopiedIn, CopyWay, TrueFlags, Laid;
    CopiedInKeeps(k, w, w.arrays[s], d);
    var w1 := CopiedIn(k, w, w.arrays[s], d);
    IterateKeeps(w1, s);
    assert With(w1, s, w1.arrays[s]).arrays == w1.arrays;
  }

  /** A copy that is not refused and follows no null pointer delivers the elements, by
      one write unless there is nothing to cast. Otherwise memory stays. The headers
      change exactly if iterators are made and relabel one of them. */
  lemma CopyMeans(k: Casting, w: World, d: Ref, s: Ref)
    requires d in w.arrays && s in w.arrays && Seated(w, w.arrays[d]) && Seated(w, w.arrays[s])
    ensures var w', dest, src := CopyAnyInto(k, w, d, s), w.arrays[d], w.arrays[s];
            var way := CopyWay(k, dest, src);
            && w'.arrays == w.arrays[d := IteratedIf(dest, way.Walk?)][s := IteratedIf(src, way.Walk?)]
            && (w'.arrays == w.arrays <==> !(way.Walk? && (Relabels(dest) || Relabels(src))))
            && w'.memory.Keys == w.memory.Keys && w'.next == w.next && (w'.trapped <==> w.trapped || way.Trap?)
            && (forall m :: m in w.memory && m != dest.data ==> w'.memory[m] == w.memory[m])
            && (way.Nothing? || way.Trap? ==> w'.memory == w.memory)
            && (!Refused(k, dest, src) && dest.Count() == src.Count() && !way.Trap? ==> Written(k, w, w', dest, src))
  {
    hide CopiedIn, CopyWay, TrueFlags, Laid, Written, Iterated, Relabels, Refused;
    var dest, src := w.arrays[d], w.arrays[s];
    var w1, walk := CopiedIn(k, w, src, d), CopyWay(k, dest, src).Walk?;
    CopyWrites(k, w, src, d);
    IteratedTrue(dest);
    IteratedTrue(src);
    var w' := CopyAnyInto(k, w, d, s);
    if !Refused(k, dest, src) && dest.Count() == src.Count() && !CopyWay(k, dest, src).Trap? {
      WrittenOn(k, w, w1, w', dest, src);
    }
    SameHeaders(w.arrays, d, s, IteratedIf(dest, walk), IteratedIf(src, walk));
  }

  /** What a copy comes to, from the types, flags and shapes alone. Nothing happens if the
      destination is read-only or of another size, or if there is nothing to cast; a
      null pointer is followed between plain arrays without axes that are not one run;
      in all other cases the destination is written once, and iterators are made unless
      one run is copied. */
  lemma CopyOutcome(k: Casting, w: World, d: Ref, s: Ref)
    requires d in w.arrays && s in w.arrays && Seated(w, w.arrays[d]) && Seated(w, w.arrays[s])
    ensures var w', dest, src := CopyAnyInto(k, w, d, s), w.arrays[d], w.arrays[s];
            var plain, both := Interchange(k, src.dtype, dest.dtype), dest.flags * src.flags;
            var run := dest.dtype.native && src.dtype.native
                       && Aligned in both && (Contiguous in both || Fortran in both);
            var idle := Writeable !in dest.flags || dest.Count() != src.Count() || (!plain && src.Count() == 0);
            var trap := !idle && plain && dest.Nd() == 0 && src.Nd() == 0 && !run;
            var walk := !idle && !trap && !run;
            && (Refused(k, dest, src) <==> idle && (plain || src.Count() > 0))
            && (w'.trapped <==> w.trapped || trap)
            && (idle || trap ==> w'.memory == w.memory)
            && (!idle && !trap ==> dest.data in w.memory && dest.data in w'.memory
                                   && w'.memory[dest.data].writes == w.memory[dest.data].writes + 1)
            && w'.arrays == w.arrays[d := if walk then Iterated(dest) else dest]
                                    [s := if walk then Iterated(src) else src]
  {
    hide CopyAnyInto, TrueFlags, Laid, Arrived, Around, Gathered, Places, Iterated, Relabels;
    CopyMeans(k, w, d, s);
  }

  /** Into a writeable array of the same shape every element is copied, and cast exactly
      if its type cannot be taken over. */
  lemma CopyConverts(k: Casting, w: World, d: Ref, s: Ref)
    requires d in w.arrays && s in w.arrays && Seated(w, w.arrays[d]) && Seated(w, w.arrays[s])
    requires Writeable in w.arrays[d].flags && w.arrays[d].layout.dims == w.arrays[s].layout.dims
    ensures var w', dest, src := CopyAnyInto(k, w, d, s), w.arrays[d], w.arrays[s];
            && dest.data in w'.memory
            && (!Interchange(k, src.dtype, dest.dtype) ==>
                  Elements(w', dest) == CastAll(k, src.dtype, dest.dtype, Elements(w, src)))
            && (Interchange(k, src.dtype, dest.dtype) && dest.Nd() > 0 ==> Elements(w', dest) == Elements(w, src))
  {
    hide CopyAnyInto, TrueFlags, Laid, Arrived, Around, Simple, Gathered, Places, Converted, Stores;
    var w', dest, src := CopyAnyInto(k, w, d, s), w.arrays[d], w.arrays[s];
    CopyMeans(k, w, d, s);
    ConvertedMeans(k, src.dtype, dest.dtype, Elements(w, src));
    if !CopyWay(k, dest, src).Trap? {
      SameShapeArrives(k, dest, src, Elements(w', dest), Elements(w, src));
    }
  }

  lemma WrittenOn(k: Casting, w: World, w1: World, w': World, dest: Header, src: Header)
    requires dest.data in w.memory && src.data in w.memory && dest.data in w1.memory
    requires Written(k, w, w1, dest, src) && w'.memory == w1.memory
    ensures Written(k, w, w', dest, src)
  {
    hide Arrived, Around;
  }

  lemma SameHeaders(m: map<Ref, Header>, d: Ref, s: Ref, x: Header, y: Header)
    requires d in m && s in m && (d == s ==> x == y)
    ensures m[d := x][s := y] == m <==> x == m[d] && y == m[s]
  {
    if m[d := x][s := y] == m {
      assert m[d := x][s := y][d] == x && m[d := x][s := y][s] == y;
    }
  }

  lemma EmptyArrives(k: Casting, w: World, dest: Header, src: Header)
    requires dest.data in w.memory && src.data in w.memory && dest.Count() == src.Count() == 0
    ensures Arrived(k, dest, src, Elements(w, dest), Elements(w, src))
  {
  }

  /** Nobody waits to be copied back into `b`. */
  ghost predicate Unclaimed(w: World, b: Ref) {
    forall c :: !Holds(w, c, b)
  }

  lemma UnlockKeeps(w: World, b: Ref)
    requires Valid(w) && b in w.arrays && Unclaimed(w, b)
    ensures Valid(With(w, b, Unlocked(w.arrays[b])))
  {
    hide Valid, Sound, Children, Holds, SameHeader;
    var w' := With(w, b, Unlocked(w.arrays[b]));
    ValidFacts(w);
    forall x | x in w.arrays ensures SameHeader(w.arrays[x], w'.arrays[x]) {
      IteratedSame(w.arrays[x]);
    }
    SameLinksKeep(w, w');
  }

  /** What a copy back from `h` makes of its base. */
  ghost function BaseAfter(k: Casting, h: Header, b: Header): Header {
    if h.Pending() then IteratedIf(Unlocked(b), CopyWay(k, Unlocked(b), h).Walk?) else b
  }

  /** A copy back into an array that nobody else waits for. */
  lemma CopiedBackKeeps(k: Casting, w: World, self: Header, b: Ref)
    requires Valid(w) && b in w.arrays && Unclaimed(w, b)
    requires Seated(w, self) && Seated(w, w.arrays[b])
    requires self.Count() == w.arrays[b].Count() && self.data != w.arrays[b].data
    ensures var w', u := CopiedBack(k, w, self, b), Unlocked(w.arrays[b]);
            && Valid(w') && w'.next == w.next && w'.memory.Keys == w.memory.Keys
            && w'.arrays == w.arrays[b := IteratedIf(u, CopyWay(k, u, self).Walk?)]
            && (w'.trapped <==> w.trapped || Traps(k, w.arrays[b], self))
            && Copied(k, w, w', self, w.arrays[b])
            && (forall m :: m in w.memory ==> w'.memory[m].items.Keys == w.memory[m].items.Keys)
            && forall m :: m in w.memory && m != w.arrays[b].data ==> w'.memory[m] == w.memory[m]
  {
    hide Valid, TrueFlags, Laid, Arrived, Around, CopiedIn, Iterated, SameHeader, Equiv, Simple;
    UnlockKeeps(w, b);
    var u := Unlocked(w.arrays[b]);
    var w1 := With(w, b, u);
    IteratedSame(w.arrays[b]);
    IteratedSame(self);
    SeatedKept(w, w1, w.arrays[b], u);
    SeatedKept(w, w1, self, self);
    CopiedInKeeps(k, w1, self, b);
    CopyWrites(k, w1, self, b);
    SimpleAlike(u, w.arrays[b], self, self);
    ArrivedAlike(k, u, w.arrays[b], self, self, Elements(CopiedBack(k, w, self, b), w.arrays[b]), Elements(w, self));
    assert w1.arrays[b := IteratedIf(u, CopyWay(k, u, self).Walk?)]
        == w.arrays[b := IteratedIf(u, CopyWay(k, u, self).Walk?)];
  }

  /** `dest` has got the elements of `src`, by one write, and nothing around them
      changed; or the copy came to a null pointer. */
  ghost predicate Copied(k: Casting, w: World, w': World, src: Header, dest: Header) {
    && w'.memory.Keys == w.memory.Keys && src.data in w.memory && dest.data in w.memory
    && if Traps(k, dest, src) then w'.memory[dest.data] == w.memory[dest.data]
       else
         && Arrived(k, dest, src, Elements(w', dest), Elements(w', src))
         && Around(w.memory[dest.data].items, w'.memory[dest.data].items, Places(dest.layout))
         && w'.memory[dest.data].writes == w.memory[dest.data].writes + if Stores(k, dest, src) then 1 else 0
  }

  /** The headers differ in what does not matter to a copy. */
  predicate Alike(h: Header, h': Header) {
    && h'.dtype == h.dtype && h'.layout == h.layout
    && (Contiguous in h'.flags <==> Contiguous in h.flags)
    && (Fortran in h'.flags <==> Fortran in h.flags)
    && (Aligned in h'.flags <==> Aligned in h.flags)
  }

  lemma SimpleAlike(dest: Header, dest': Header, src: Header, src': Header)
    requires Alike(dest, dest') && Alike(src, src')
    ensures Simple(dest, src) == Simple(dest', src') && ByFortran(dest, src) == ByFortran(dest', src')
  {
  }

  lemma ArrivedAlike(k: Casting, dest: Header, dest': Header, src: Header, src': Header, after: seq<Item>,
                     given: seq<Item>)
    requires Alike(dest, dest') && Alike(src, src')
    ensures Arrived(k, dest, src, after, given) <==> Arrived(k, dest', src', after, given)
  {
    hide Listed;
  }

  lemma HolderSound(w: World, a: Ref, b: Ref)
    requires Valid(w) && Holds(w, a, b)
    ensures Locked(w, a, b)
  {
    assert Sound(w, a);
  }

  lemma HoldsIs(w: World, a: Ref, x: Ref)
    ensures Holds(w, a, x) <==> a in w.arrays && w.arrays[a].Pending() && w.arrays[a].base == Some(x)
  {
  }
}
