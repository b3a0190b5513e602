/**
 What dropping a reference does: which arrays go, what is copied back, and what
 stays as it was (libndarray/src/npy_arrayobject.c).
 */
module Releasing {
  import opened Copying
  import opened NdArray
  import opened Storage
  import opened WriteBack
  import opened Wrappers

  /** The arrays that go when `a` loses a reference. */
  function Freed(w: World, a: Ref): set<Ref>
    requires a in w.arrays
    decreases a
  {
    if w.arrays[a].refs > 1 then {}
    else if !HasBase(w, a) then {a}
    else {a} + Freed(w, w.arrays[a].base.value)
  }

  /** One of the arrays `f` waits to be copied back into `x`. */
  predicate Unlocks(w: World, f: set<Ref>, x: Ref) {
    exists c :: c in f && Holds(w, c, x)
  }

  /** One of the arrays `f` is based on `x`. */
  predicate Releases(w: World, f: set<Ref>, x: Ref) {
    exists c :: c in f && c in w.arrays && w.arrays[c].base == Some(x)
  }

  /** One of the arrays `f` waits to be copied back into the block `m`. */
  predicate Writes(w: World, f: set<Ref>, m: Ref) {
    exists x :: x in w.arrays && w.arrays[x].data == m && Unlocks(w, f, x)
  }

  /** One of the copies back of the arrays `f` comes to a null pointer. */
  predicate TrapsAmong(k: Casting, w: World, f: set<Ref>) {
    exists c, b :: c in f && Holds(w, c, b) && b in w.arrays && Traps(k, w.arrays[b], w.arrays[c])
  }

  /** The arrays that get an iterator when an array with the header `h` goes: bases
      of pending arrays that are not copied in one run. */
  ghost function Visited(k: Casting, w: World, h: Header): set<Ref>
    decreases if h.base.Some? then h.base.value + 1 else 0
  {
    if h.base.None? || h.base.value !in w.arrays then {}
    else
      var b := h.base.value;
      var u := BaseAfter(k, h, w.arrays[b]);
      VisitedHere(k, h, w.arrays[b], b)
      + if u.refs > 1 || (u.base.Some? && u.base.value >= b) then {} else Visited(k, w, u)
  }

  function VisitedHere(k: Casting, h: Header, base: Header, b: Ref): set<Ref> {
    if h.Pending() && CopyWay(k, Unlocked(base), h).Walk? then {b} else {}
  }

  /** The arrays that get an iterator when `a` loses a reference. */
  ghost function Walked(k: Casting, w: World, a: Ref): set<Ref>
    requires a in w.arrays
  {
    if w.arrays[a].refs > 1 then {} else Visited(k, w, w.arrays[a])
  }

  /** What becomes of a header that stays. */
  ghost predicate HeaderSettled(w: World, w': World, a: Ref, f: set<Ref>, v: set<Ref>, x: Ref)
    requires x in w.arrays && x in w'.arrays
  {
    && w'.arrays[x] == IteratedIf(if Unlocks(w, f, x) then Unlocked(w.arrays[x]) else w.arrays[x], x in v)
                       .(refs := w'.arrays[x].refs)
    && w'.arrays[x].refs == w.arrays[x].refs - if x == a || Releases(w, f, x) then 1 else 0
  }

  /** `w'` is what is left of `w` when `a` loses a reference, the arrays `f` go and
      iterators are made over the arrays `v`. */
  ghost predicate Settled(k: Casting, w: World, w': World, a: Ref, f: set<Ref>, v: set<Ref>) {
    && w'.arrays.Keys == w.arrays.Keys - f && w'.memory.Keys == w.memory.Keys && w'.next == w.next
    && (w'.trapped <==> w.trapped || TrapsAmong(k, w, f))
    && (forall x :: x in w'.arrays ==> HeaderSettled(w, w', a, f, v, x))
    && (forall x :: x in v ==> Unlocks(w, f, x))
    && (forall m :: m in w.memory && !Writes(w, f, m) ==> w'.memory[m] == w.memory[m])
    && (forall c, b :: c in f && Holds(w, c, b) ==> b in w.arrays && Copied(k, w, w', w.arrays[c], w.arrays[b]))
  }

  /** `w1` is `w` once `a` is copied back into its base `b` and gone. */
  ghost predicate LeftAs(k: Casting, w: World, w1: World, a: Ref, b: Ref) {
    && a in w.arrays && b in w.arrays && a != b && w.arrays[a].base == Some(b)
    && w1.arrays == (w.arrays - {a})[b := BaseAfter(k, w.arrays[a], w.arrays[b])]
    && w1.memory.Keys == w.memory.Keys && w1.next == w.next
    && (w1.trapped <==> w.trapped || (w.arrays[a].Pending() && Traps(k, w.arrays[b], w.arrays[a])))
    && (forall m :: m in w.memory ==> w1.memory[m].items.Keys == w.memory[m].items.Keys)
    && (forall m :: m in w.memory && !(w.arrays[a].Pending() && m == w.arrays[b].data) ==> w1.memory[m] == w.memory[m])
    && (w.arrays[a].Pending() ==>
          Copied(k, w, w1, w.arrays[a], w.arrays[b]) && w.arrays[b].data < w.arrays[a].data)
  }

  /** `a` goes and leaves the rest consistent. */
  lemma LeftKeeps(k: Casting, w: World, a: Ref)
    requires Valid(w) && a in w.arrays && w.arrays[a].base.Some? && w.arrays[a].refs == 1 && Children(w, a) == {}
    ensures HasBase(w, a) && Valid(Left(k, w, a)) && Left(k, w, a).next == w.next
    ensures var b, w1 := w.arrays[a].base.value, Left(k, w, a);
            LeftAs(k, w, w1, a, b) && w1.arrays[b].refs > |Children(w1, b)|
  {
    hide Valid, Children, Left, Copied, HasBase;
    SoundFacts(w, a);
    if w.arrays[a].Pending() {
      LeftPending(k, w, a);
    } else {
      LeftPlain(k, w, a);
    }
  }

  lemma LeftPlain(k: Casting, w: World, a: Ref)
    requires Valid(w) && a in w.arrays && HasBase(w, a) && Children(w, a) == {} && !w.arrays[a].Pending()
    ensures var b, w1 := w.arrays[a].base.value, Left(k, w, a);
            Valid(w1) && LeftAs(k, w, w1, a, b) && w1.arrays[b].refs > |Children(w1, b)|
  {
    hide Valid, Children, Copied;
    RemoveKeeps(w, a);
    LeftCounts(w, a);
  }

  lemma LeftPending(k: Casting, w: World, a: Ref)
    requires Valid(w) && a in w.arrays && HasBase(w, a) && Children(w, a) == {} && w.arrays[a].Pending()
    ensures var b, w1 := w.arrays[a].base.value, Left(k, w, a);
            Valid(w1) && LeftAs(k, w, w1, a, b) && w1.arrays[b].refs > |Children(w1, b)|
  {
    hide Valid, Children, Left, Unclaimed, CopiedBack, Holds, TrueFlags, Laid, Copied, Iterated, CopyWay, Traps;
    var h, b, w0 := w.arrays[a], w.arrays[a].base.value, Without(w, a);
    RemoveKeeps(w, a);
    LeftCounts(w, a);
    LeftUnclaimed(w, a);
    SeatedWithout(w, a, a);
    SeatedWithout(w, a, b);
    CopiedBackKeeps(k, w0, h, b);
    LeftCommutes(k, w, a);
    UnlockedRest(k, w.arrays[b], h);
    SameChildrenByBase(w0, Left(k, w, a), b);
    CopiedFrom(k, w0, Left(k, w, a), w, Left(k, w, a), h, w.arrays[b]);
  }

  lemma UnlockedRest(k: Casting, b: Header, h: Header)
    ensures BaseAfter(k, h, b) == b.(flags := BaseAfter(k, h, b).flags) && SameHeader(b, BaseAfter(k, h, b))
  {
    IteratedSame(b);
  }

  /** A copy is a matter of memory. */
  lemma CopiedFrom(k: Casting, w: World, w': World, v: World, v': World, src: Header, dest: Header)
    requires v.memory == w.memory && v'.memory == w'.memory && Copied(k, w, w', src, dest)
    ensures Copied(k, v, v', src, dest)
  {
    hide Arrived, Around, Traps;
  }

  lemma SeatedWithout(w: World, a: Ref, x: Ref)
    requires Valid(w) && x in w.arrays
    ensures Seated(Without(w, a), w.arrays[x])
  {
    hide Valid, TrueFlags, Laid;
    DataThere(w, x);
  }

  lemma LeftCounts(w: World, a: Ref)
    requires Valid(w) && a in w.arrays && HasBase(w, a)
    ensures var b := w.arrays[a].base.value; w.arrays[b].refs > |Children(w, b) - {a}|
  {
    IsChild(w, a);
    DataThere(w, w.arrays[a].base.value);
  }

  lemma LeftUnclaimed(w: World, a: Ref)
    requires Valid(w) && a in w.arrays && HasBase(w, a) && w.arrays[a].Pending()
    ensures var b := w.arrays[a].base.value;
            Unclaimed(Without(w, a), b) && Locked(w, a, b)
  {
    var b := w.arrays[a].base.value;
    assert Sound(w, a);
    forall c ensures !Holds(Without(w, a), c, b) {
      assert Holds(Without(w, a), c, b) ==> Holds(w, c, b);
    }
  }

  lemma LeftCommutes(k: Casting, w: World, a: Ref)
    requires HasBase(w, a) && w.arrays[a].Pending()
    ensures Left(k, w, a) == CopiedBack(k, Without(w, a), w.arrays[a], w.arrays[a].base.value)
  {
    hide CopiedIn;
    var h := w.arrays[a];
    var b := h.base.value;
    var u := Unlocked(w.arrays[b]);
    assert Without(With(w, b, u), a).arrays == With(Without(w, a), b, u).arrays;
    CopyIgnores(k, With(w, b, u), h, b, a);
  }

  /** An array that takes no part may as well be gone. */
  lemma CopyIgnores(k: Casting, w: World, src: Header, d: Ref, c: Ref)
    requires d in w.arrays && w.arrays[d].data in w.memory && src.data in w.memory && d != c
    ensures CopiedIn(k, Without(w, c), src, d) == Without(CopiedIn(k, w, src, d), c)
  {
    hide Scattered, Gathered, Order, Converted, CopyWay, Iterated;
    var w' := CopiedIn(k, w, src, d);
    assert CopiedIn(k, Without(w, c), src, d).arrays == Without(w', c).arrays;
  }

  lemma {:induction false} FreedSame(w: World, w1: World, a: Ref)
    requires Valid(w) && Valid(w1) && a in w.arrays && a in w1.arrays
    requires forall x :: x <= a && x in w.arrays ==>
               x in w1.arrays && w1.arrays[x].refs == w.arrays[x].refs && w1.arrays[x].base == w.arrays[x].base
    ensures Freed(w1, a) == Freed(w, a)
    decreases a
  {
    hide Valid, Sound;
    if w.arrays[a].refs <= 1 && w.arrays[a].base.Some? {
      SoundFacts(w, a);
      SoundFacts(w1, a);
      FreedSame(w, w1, w.arrays[a].base.value);
    }
  }

  lemma {:induction false} FreedBelow(w: World, a: Ref)
    requires Valid(w) && a in w.arrays
    ensures forall c :: c in Freed(w, a) ==> c in w.arrays && c <= a
    ensures forall c, b :: c in Freed(w, a) && Holds(w, c, b) ==> b in w.arrays && w.arrays[b].data < w.arrays[a].data
    decreases a
  {
    hide Valid;
    if w.arrays[a].refs <= 1 {
      if w.arrays[a].base.Some? {
        SoundFacts(w, a);
        FreedBelow(w, w.arrays[a].base.value);
      }
      forall b | Holds(w, a, b) ensures b in w.arrays && w.arrays[b].data < w.arrays[a].data {
        HolderSound(w, a, b);
      }
    }
  }

  lemma WritesBase(w: World, a: Ref, b: Ref, f: set<Ref>)
    requires Holds(w, a, b) && b in w.arrays
    ensures Writes(w, {a} + f, w.arrays[b].data)
  {
  }

  lemma StepHolds(k: Casting, w: World, w1: World, a: Ref, b: Ref, c: Ref, x: Ref)
    requires LeftAs(k, w, w1, a, b) && c != a
    ensures Holds(w1, c, x) <==> Holds(w, c, x)
  {
    hide Copied;
    UnlockedRest(k, w.arrays[b], w.arrays[a]);
    SameRest(w.arrays[b], BaseAfter(k, w.arrays[a], w.arrays[b]));
    hide BaseAfter;
  }

  lemma StepUnlocks(k: Casting, w: World, w1: World, a: Ref, b: Ref, f: set<Ref>, x: Ref)
    requires LeftAs(k, w, w1, a, b) && a !in f
    ensures Unlocks(w, {a} + f, x) <==> Holds(w, a, x) || Unlocks(w1, f, x)
  {
    hide LeftAs;
    forall c | c in f ensures Holds(w1, c, x) <==> Holds(w, c, x) {
      StepHolds(k, w, w1, a, b, c, x);
    }
    assert Holds(w, a, x) ==> a in {a} + f;
    if c :| c in {a} + f && Holds(w, c, x) {
      assert c == a || c in f;
    }
    if c :| c in f && Holds(w1, c, x) {
      assert c in {a} + f;
    }
  }

  lemma StepReleases(k: Casting, w: World, w1: World, a: Ref, b: Ref, f: set<Ref>, x: Ref)
    requires LeftAs(k, w, w1, a, b) && a !in f
    ensures Releases(w, {a} + f, x) <==> x == b || Releases(w1, f, x)
  {
    hide Copied;
    UnlockedRest(k, w.arrays[b], w.arrays[a]);
    hide BaseAfter;
  }

  lemma StepWrites(k: Casting, w: World, w1: World, a: Ref, b: Ref, f: set<Ref>, m: Ref)
    requires LeftAs(k, w, w1, a, b) && a !in f && Writes(w1, f, m)
    ensures Writes(w, {a} + f, m)
  {
    hide Unlocks, Copied;
    var x :| x in w1.arrays && w1.arrays[x].data == m && Unlocks(w1, f, x);
    StepUnlocks(k, w, w1, a, b, f, x);
    UnlockedRest(k, w.arrays[b], w.arrays[a]);
    hide BaseAfter;
    assert w.arrays[x].data == m;
  }

  /** The bases of the arrays `f` lie below `b`. */
  ghost predicate Below(w: World, f: set<Ref>, b: Ref)
    requires b in w.arrays
  {
    forall c, x :: c in f && Holds(w, c, x) ==> x in w.arrays && w.arrays[x].data < w.arrays[b].data
  }

  lemma NotBelow(k: Casting, w: World, w1: World, a: Ref, b: Ref, f: set<Ref>)
    requires LeftAs(k, w, w1, a, b) && a !in f && Below(w, f, b)
    ensures !Unlocks(w1, f, b)
  {
    hide LeftAs;
    if Unlocks(w1, f, b) {
      var c :| c in f && Holds(w1, c, b);
      StepHolds(k, w, w1, a, b, c, b);
    }
  }

  lemma StepHeader(k: Casting, w: World, w1: World, w2: World, a: Ref, b: Ref, f: set<Ref>, v: set<Ref>, x: Ref)
    requires LeftAs(k, w, w1, a, b) && a !in f && x in w1.arrays && x in w2.arrays && x != a && Below(w, f, b)
    requires HeaderSettled(w1, w2, b, f, v, x) && (x in v ==> Unlocks(w1, f, x))
    ensures HeaderSettled(w, w2, a, {a} + f, VisitedHere(k, w.arrays[a], w.arrays[b], b) + v, x)
  {
    hide Unlocks, Releases, Copied, Holds, Below, Iterated, CopyWay, Traps;
    StepUnlocks(k, w, w1, a, b, f, x);
    StepReleases(k, w, w1, a, b, f, x);
    HoldsIs(w, a, x);
    NotBelow(k, w, w1, a, b, f);
    UnlockedRest(k, w.arrays[b], w.arrays[a]);
  }

  /** One array goes and then the arrays `f` do: the effects add up. */
  lemma SettledStep(k: Casting, w: World, w1: World, w2: World, a: Ref, b: Ref, f: set<Ref>, v: set<Ref>)
    requires Valid(w) && LeftAs(k, w, w1, a, b) && Settled(k, w1, w2, b, f, v) && Below(w, f, b)
    requires w.arrays[b].data <= w.arrays[a].data && forall c :: c in f ==> c in w.arrays && c < a
    ensures Settled(k, w, w2, a, {a} + f, VisitedHere(k, w.arrays[a], w.arrays[b], b) + v)
  {
    hide Valid, Writes, Copied, Holds, HeaderSettled, Below, BaseAfter, VisitedHere, TrapsAmong, Traps;
    var v' := VisitedHere(k, w.arrays[a], w.arrays[b], b) + v;
    forall x | x in w2.arrays ensures HeaderSettled(w, w2, a, {a} + f, v', x) {
      assert HeaderSettled(w1, w2, b, f, v, x);
      StepHeader(k, w, w1, w2, a, b, f, v, x);
    }
    StepVisited(k, w, w1, a, b, f, v);
    StepTraps(k, w, w1, a, b, f);
    forall m | m in w.memory && !Writes(w, {a} + f, m) ensures w2.memory[m] == w.memory[m] {
      if Writes(w1, f, m) {
        StepWrites(k, w, w1, a, b, f, m);
      }
      if w.arrays[a].Pending() && m == w.arrays[b].data {
        HoldsIs(w, a, b);
        WritesBase(w, a, b, f);
      }
    }
    forall c, x | c in {a} + f && Holds(w, c, x)
      ensures c in w.arrays && x in w.arrays && Copied(k, w, w2, w.arrays[c], w.arrays[x])
    {
      HoldsIs(w, c, x);
      StepCopied(k, w, w1, w2, a, b, f, v, c, x);
    }
  }

  lemma StepVisited(k: Casting, w: World, w1: World, a: Ref, b: Ref, f: set<Ref>, v: set<Ref>)
    requires LeftAs(k, w, w1, a, b) && a !in f && forall x :: x in v ==> Unlocks(w1, f, x)
    ensures forall x :: x in VisitedHere(k, w.arrays[a], w.arrays[b], b) + v ==> Unlocks(w, {a} + f, x)
  {
    hide Unlocks, Copied, Holds, CopyWay;
    forall x | x in VisitedHere(k, w.arrays[a], w.arrays[b], b) + v ensures Unlocks(w, {a} + f, x) {
      StepUnlocks(k, w, w1, a, b, f, x);
      HoldsIs(w, a, x);
    }
  }

  lemma StepTraps(k: Casting, w: World, w1: World, a: Ref, b: Ref, f: set<Ref>)
    requires Valid(w) && LeftAs(k, w, w1, a, b) && forall c :: c in f ==> c < a
    ensures TrapsAmong(k, w, {a} + f)
            <==> (w.arrays[a].Pending() && Traps(k, w.arrays[b], w.arrays[a])) || TrapsAmong(k, w1, f)
  {
    hide Valid, LeftAs, Holds, Traps;
    LeftBase(k, w, w1, a, b);
    HoldsIs(w, a, b);
    forall c, x | c in f && Holds(w, c, x)
      ensures Holds(w1, c, x) && c in w1.arrays && c in w.arrays
      ensures x in w.arrays && x in w1.arrays
      ensures Traps(k, w1.arrays[x], w1.arrays[c]) == Traps(k, w.arrays[x], w.arrays[c])
    {
      StepHolds(k, w, w1, a, b, c, x);
      HolderBase(w, c, x);
      StepTrap(k, w, w1, a, b, c, x);
    }
    forall c, x | c in f && Holds(w1, c, x) ensures Holds(w, c, x) {
      StepHolds(k, w, w1, a, b, c, x);
    }
    forall x | Holds(w, a, x) ensures x == b {
      HoldsIs(w, a, x);
    }
    if TrapsAmong(k, w1, f) {
      var c, x :| c in f && Holds(w1, c, x) && x in w1.arrays && Traps(k, w1.arrays[x], w1.arrays[c]);
      assert c in {a} + f && Holds(w, c, x);
    }
    if w.arrays[a].Pending() && Traps(k, w.arrays[b], w.arrays[a]) {
      assert a in {a} + f && Holds(w, a, b);
    }
  }

  lemma LeftBase(k: Casting, w: World, w1: World, a: Ref, b: Ref)
    requires LeftAs(k, w, w1, a, b)
    ensures a in w.arrays && b in w.arrays && w.arrays[a].base == Some(b)
  {
    hide Copied;
  }

  lemma StepTrap(k: Casting, w: World, w1: World, a: Ref, b: Ref, c: Ref, x: Ref)
    requires Valid(w) && LeftAs(k, w, w1, a, b) && c < a && Holds(w, c, x)
    ensures x in w.arrays && x in w1.arrays && c in w1.arrays
    ensures Traps(k, w1.arrays[x], w1.arrays[c]) == Traps(k, w.arrays[x], w.arrays[c])
  {
    hide Valid, LeftAs, TrueFlags, Laid, SameHeader, Traps;
    HolderBase(w, c, x);
    HolderSound(w, c, x);
    SoundFacts(w, c);
    DataThere(w, c);
    DataThere(w, x);
    LeftHeader(k, w, w1, a, b, c);
    LeftHeader(k, w, w1, a, b, x);
    TrapsAlike(k, w.arrays[x], w1.arrays[x], w.arrays[c], w1.arrays[c]);
  }

  /** The same header, or one of an array of so few elements that order is no matter. */
  ghost predicate NearlyAlike(h: Header, h': Header) {
    || Alike(h, h')
    || (h'.dtype == h.dtype && h'.layout == h.layout && h.Nd() > 1 && h.Count() <= 1)
  }

  lemma SameNearlyAlike(h: Header, h': Header)
    requires SameHeader(h, h') && TrueFlags(h)
    ensures NearlyAlike(h, h')
  {
    if Relabels(h) {
      BothOrders(h);
    }
  }

  lemma TrapsAlike(k: Casting, dest: Header, dest': Header, src: Header, src': Header)
    requires SameHeader(dest, dest') && SameHeader(src, src') && TrueFlags(dest) && TrueFlags(src)
    ensures Traps(k, dest', src') == Traps(k, dest, src)
  {
    SameNearlyAlike(dest, dest');
    SameNearlyAlike(src, src');
    hide TrueFlags, SameHeader, Equiv;
    if Alike(dest, dest') && Alike(src, src') {
      SimpleAlike(dest, dest', src, src');
    }
    hide Simple;
  }

  lemma FewArrive(k: Casting, dest: Header, dest': Header, src: Header, src': Header, after: seq<Item>,
                  given: seq<Item>)
    requires dest'.dtype == dest.dtype && dest'.layout == dest.layout && dest.Count() <= 1
    requires src'.dtype == src.dtype && src'.layout == src.layout
    ensures Arrived(k, dest, src, after, given) <==> Arrived(k, dest', src', after, given)
  {
    hide Simple, Converted, Size;
    if |after| == dest.Count() && |given| == src.Count() == dest.Count() {
      ListedFew(dest.layout.dims, after);
      ListedFew(src.layout.dims, given);
    }
  }

  lemma ListedFew(dims: seq<nat>, s: seq<Item>)
    requires |s| == Size(dims) <= 1
    ensures Listed(true, dims, s) == s && Listed(false, dims, s) == s
  {
  }

  lemma NearlyArrives(k: Casting, dest: Header, dest': Header, src: Header, src': Header, after: seq<Item>,
                      given: seq<Item>)
    requires NearlyAlike(dest, dest') && NearlyAlike(src, src')
    ensures Arrived(k, dest, src, after, given) <==> Arrived(k, dest', src', after, given)
  {
    hide Listed, Simple, Converted;
    if Alike(dest, dest') && Alike(src, src') {
      ArrivedAlike(k, dest, dest', src, src', after, given);
    } else if dest.Count() <= 1 {
      FewArrive(k, dest, dest', src, src', after, given);
    }
  }

  lemma StepUntouched(k: Casting, w: World, w1: World, a: Ref, b: Ref, f: set<Ref>, m: Ref)
    requires LeftAs(k, w, w1, a, b) && a !in f && m >= w.arrays[b].data && Below(w, f, b)
    ensures !Writes(w1, f, m)
  {
    UnlockedRest(k, w.arrays[b], w.arrays[a]);
    hide BaseAfter, Copied;
    if Writes(w1, f, m) {
      var y :| y in w1.arrays && w1.arrays[y].data == m && Unlocks(w1, f, y);
      var d :| d in f && Holds(w1, d, y);
      StepHolds(k, w, w1, a, b, d, y);
    }
  }

  lemma StepCopied(k: Casting, w: World, w1: World, w2: World, a: Ref, b: Ref, f: set<Ref>, v: set<Ref>, c: Ref,
                   x: Ref)
    requires Valid(w) && LeftAs(k, w, w1, a, b) && Settled(k, w1, w2, b, f, v) && Below(w, f, b)
    requires w.arrays[b].data <= w.arrays[a].data && forall c :: c in f ==> c in w.arrays && c < a
    requires (c == a || c in f) && Holds(w, c, x)
    ensures x in w.arrays && Copied(k, w, w2, w.arrays[c], w.arrays[x])
  {
    hide Valid, Writes, Unlocks, Releases, HeaderSettled, BaseAfter, TrapsAmong, TrueFlags, Laid, SameHeader;
    HolderBase(w, c, x);
    HolderSound(w, c, x);
    SoundFacts(w, c);
    DataThere(w, c);
    DataThere(w, x);
    if c == a {
      forall m | m in w.memory && m >= w.arrays[b].data ensures w2.memory[m] == w1.memory[m] {
        StepUntouched(k, w, w1, a, b, f, m);
      }
      CopiedOn(k, w, w1, w2, w.arrays[a], w.arrays[b]);
    } else {
      StepHolds(k, w, w1, a, b, c, x);
      LeftHeader(k, w, w1, a, b, c);
      LeftHeader(k, w, w1, a, b, x);
      assert w.arrays[x].data < w.arrays[b].data;
      CopiedAlike(k, w, w1, w2, w.arrays[c], w1.arrays[c], w.arrays[x], w1.arrays[x]);
    }
  }

  /** What is copied stays as long as nobody writes there. */
  lemma CopiedOn(k: Casting, w: World, w1: World, w2: World, src: Header, dest: Header)
    requires Copied(k, w, w1, src, dest) && w2.memory.Keys == w1.memory.Keys
    requires w2.memory[src.data] == w1.memory[src.data] && w2.memory[dest.data] == w1.memory[dest.data]
    ensures Copied(k, w, w2, src, dest)
  {
    hide Arrived, Around, Traps;
  }

  lemma LeftHeader(k: Casting, w: World, w1: World, a: Ref, b: Ref, x: Ref)
    requires LeftAs(k, w, w1, a, b) && x in w.arrays && x != a
    ensures x in w1.arrays && SameHeader(w.arrays[x], w1.arrays[x])
  {
    hide Copied;
    UnlockedRest(k, w.arrays[b], w.arrays[a]);
    IteratedSame(w.arrays[x]);
    hide SameHeader, BaseAfter;
  }

  lemma CopiedAlike(k: Casting, w: World, w1: World, w2: World, src: Header, src1: Header, dest: Header, dest1: Header)
    requires SameHeader(src, src1) && SameHeader(dest, dest1) && TrueFlags(src) && TrueFlags(dest)
    requires Copied(k, w1, w2, src1, dest1)
    requires w1.memory.Keys == w.memory.Keys && dest.data in w.memory && w1.memory[dest.data] == w.memory[dest.data]
    ensures Copied(k, w, w2, src, dest)
  {
    SameNearlyAlike(src, src1);
    SameNearlyAlike(dest, dest1);
    TrapsAlike(k, dest, dest1, src, src1);
    NearlyArrives(k, dest, dest1, src, src1, Elements(w2, dest), Elements(w2, src));
    hide Arrived, Around, Traps, TrueFlags, NearlyAlike;
  }

  lemma SettledLower(k: Casting, w: World, a: Ref)
    requires a in w.arrays && w.arrays[a].refs > 1
    ensures Settled(k, w, WithRefs(w, a, w.arrays[a].refs - 1), a, {}, {})
  {
  }

  lemma SettledRoot(k: Casting, w: World, a: Ref)
    requires Valid(w) && a in w.arrays && w.arrays[a].base.None?
    ensures Settled(k, w, Without(w, a), a, {a}, {})
  {
    hide Valid, Traps;
    DataThere(w, a);
  }

  /** Dropping a reference: exactly the arrays `Freed` go, every pending one among
      them has arrived in its base by one write, that base is unlocked, iterators are
      made over exactly the arrays `Walked`, and nothing else changes. */
  lemma {:induction false} DecrefSettles(k: Casting, w: World, a: Ref)
    requires Valid(w) && a in w.arrays && w.arrays[a].refs > |Children(w, a)|
    ensures Valid(Decref(k, w, a)) && Settled(k, w, Decref(k, w, a), a, Freed(w, a), Walked(k, w, a))
    decreases a
  {
    hide Valid, Settled, Children, Left;
    if w.arrays[a].refs > 1 {
      LowerKeeps(w, a);
      SettledLower(k, w, a);
    } else if w.arrays[a].base.None? {
      RemoveKeeps(w, a);
      SettledRoot(k, w, a);
    } else {
      LastSettles(k, w, a);
    }
  }

  /** An array that stays keeps its order flags, exactly unless an iterator is made over
      it and it is flagged column-major but passes the row-major test as well. */
  lemma OrderKept(k: Casting, w: World, a: Ref, x: Ref)
    requires Valid(w) && a in w.arrays && w.arrays[a].refs > |Children(w, a)| && x in Decref(k, w, a).arrays
    ensures x in w.arrays
    ensures SameOrder(w.arrays[x], Decref(k, w, a).arrays[x]) <==> !(x in Walked(k, w, a) && Relabels(w.arrays[x]))
  {
    hide Valid, Children, Decref, Freed, Walked, Unlocks, Releases, TrapsAmong, Writes, Copied;
    DecrefSettles(k, w, a);
    assert HeaderSettled(w, Decref(k, w, a), a, Freed(w, a), Walked(k, w, a), x);
  }

  lemma {:induction false} LastSettles(k: Casting, w: World, a: Ref)
    requires Valid(w) && a in w.arrays && w.arrays[a].refs > |Children(w, a)|
    requires w.arrays[a].refs == 1 && w.arrays[a].base.Some?
    ensures Valid(Decref(k, w, a)) && Settled(k, w, Decref(k, w, a), a, Freed(w, a), Walked(k, w, a))
    decreases a, 0
  {
    hide Valid, Settled, Children, Left, Sound, Freed, Decref, Visited, Copied, BaseAfter;
    SoundFacts(w, a);
    var b, w1 := w.arrays[a].base.value, Left(k, w, a);
    LeftKeeps(k, w, a);
    DecrefSettles(k, w1, b);
    FreedLeft(k, w, w1, a, b);
    FreedBelow(w, b);
    SettledStep(k, w, w1, Decref(k, w1, b), a, b, Freed(w, b), Walked(k, w1, b));
    LastUnfolds(k, w, a);
    WalkedStep(k, w, w1, a, b);
  }

  lemma FreedLeft(k: Casting, w: World, w1: World, a: Ref, b: Ref)
    requires Valid(w) && Valid(w1) && LeftAs(k, w, w1, a, b) && b < a
    ensures Freed(w1, b) == Freed(w, b)
  {
    hide Valid, Copied, Freed;
    UnlockedRest(k, w.arrays[b], w.arrays[a]);
    hide BaseAfter;
    FreedSame(w, w1, b);
  }

  lemma LastUnfolds(k: Casting, w: World, a: Ref)
    requires HasBase(w, a) && w.arrays[a].refs <= 1
    ensures var b := w.arrays[a].base.value;
            && Freed(w, a) == {a} + Freed(w, b)
            && (b in Left(k, w, a).arrays ==> Decref(k, w, a) == Decref(k, Left(k, w, a), b))
  {
    hide Left;
  }

  lemma LeftHasBase(k: Casting, w: World, a: Ref)
    requires HasBase(w, a)
    ensures w.arrays[a].base.value in Left(k, w, a).arrays
  {
    hide CopiedIn;
    var h, b := w.arrays[a], w.arrays[a].base.value;
    CopiedInHeaders(k, With(w, b, Unlocked(w.arrays[b])), h, b);
  }

  lemma CopiedInHeaders(k: Casting, w: World, src: Header, d: Ref)
    requires d in w.arrays && w.arrays[d].data in w.memory && src.data in w.memory
    ensures var w' := CopiedIn(k, w, src, d);
            w'.arrays.Keys == w.arrays.Keys
            && (w'.arrays[d] == w.arrays[d] || w'.arrays[d] == Iterated(w.arrays[d]))
            && forall x :: x in w.arrays && x != d ==> w'.arrays[x] == w.arrays[x]
  {
    hide CopyWay, Iterated, Scattered, Order, Gathered, Converted;
  }

  /** Iterators are made over the base and then over what its release walks. */
  lemma WalkedStep(k: Casting, w: World, w1: World, a: Ref, b: Ref)
    requires Valid(w) && LeftAs(k, w, w1, a, b) && b < a
    ensures Visited(k, w, w.arrays[a]) == VisitedHere(k, w.arrays[a], w.arrays[b], b) + Walked(k, w1, b)
  {
    hide Valid, Copied, VisitedHere;
    var u := BaseAfter(k, w.arrays[a], w.arrays[b]);
    UnlockedRest(k, w.arrays[b], w.arrays[a]);
    hide BaseAfter;
    if u.base.Some? {
      SoundFacts(w, b);
    }
    VisitedSame(k, w, w1, u);
  }

  lemma {:induction false} VisitedSame(k: Casting, w: World, w1: World, h: Header)
    requires forall x :: h.base.Some? && x <= h.base.value ==>
               (x in w.arrays <==> x in w1.arrays) && (x in w.arrays ==> w1.arrays[x] == w.arrays[x])
    ensures Visited(k, w1, h) == Visited(k, w, h)
    decreases if h.base.Some? then h.base.value + 1 else 0
  {
    if h.base.Some? && h.base.value in w.arrays {
      var u := BaseAfter(k, h, w.arrays[h.base.value]);
      if u.refs <= 1 && u.base.Some? && u.base.value < h.base.value {
        VisitedSame(k, w, w1, u);
      }
    }
  }

  lemma LowerKeeps(w: World, a: Ref)
    requires Valid(w) && a in w.arrays && w.arrays[a].refs > 1 && w.arrays[a].refs > |Children(w, a)|
    ensures Valid(WithRefs(w, a, w.arrays[a].refs - 1))
  {
    hide Valid, Sound, Children, Holds;
    var w' := WithRefs(w, a, w.arrays[a].refs - 1);
    ValidFacts(w);
    SameLinksKeep(w, w');
  }

  // ----- Memory

  /** The memory of every array belongs to an array that is alive. */
  lemma {:induction false} OwnerLives(w: World, a: Ref)
    requires Valid(w) && a in w.arrays
    ensures var m := w.arrays[a].data;
            && m in w.arrays && OwnData in w.arrays[m].flags && w.arrays[m].data == m
            && w.arrays[m].dtype == w.arrays[a].dtype
    decreases a
  {
    hide Seated, Locked, Children;
    assert Sound(w, a);
    var h := w.arrays[a];
    if h.base.Some? && OwnData !in h.flags {
      OwnerLives(w, h.base.value);
    }
  }
}
