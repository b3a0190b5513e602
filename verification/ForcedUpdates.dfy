/**
 Forced updates (libndarray/src/npy_arrayobject.c): a pending copy is copied back
 before it is released.
 */
module ForcedUpdates {
  import opened Copying
  import opened NdArray
  import opened Releasing
  import opened WriteBack
  import opened Wrappers

  // ----- Forced updates

  /** `NpyArray_ForceUpdate`. The base is given up just before its reference is. */
  ghost function ForceUpdate(k: Casting, w: World, self: Ref): World
    requires self in w.arrays
  {
    var h := w.arrays[self];
    if h.Pending() && HasBase(w, self) then
      Decref(k, CopiedBack(k, Detached(w, self, Walks(k, w, self)), h, h.base.value), h.base.value)
    else w
  }

  /** The copy back makes iterators. */
  predicate Walks(k: Casting, w: World, self: Ref)
    requires HasBase(w, self)
  {
    CopyWay(k, Unlocked(w.arrays[w.arrays[self].base.value]), w.arrays[self]).Walk?
  }

  /** The header of a pending array that has become an ordinary one. */
  ghost function Ordinary(h: Header, walk: bool): Header {
    IteratedIf(h.(flags := h.flags - {UpdateIfCopy}, base := None), walk)
  }

  ghost function Detached(w: World, self: Ref, walk: bool): World
    requires self in w.arrays
  {
    With(w, self, Ordinary(w.arrays[self], walk))
  }

  lemma OrdinaryIs(h: Header, walk: bool)
    ensures var g := Ordinary(h, walk);
            && g == h.(flags := g.flags, base := None) && UpdateIfCopy !in g.flags
            && (OwnData in g.flags <==> OwnData in h.flags) && (TrueFlags(h) ==> TrueFlags(g))
  {
    var d := h.(flags := h.flags - {UpdateIfCopy}, base := None);
    IteratedPlain(d);
    if TrueFlags(h) {
      StaysTrue(h, d);
      IteratedTrue(d);
    }
    hide TrueFlags, Iterated;
  }

  lemma DetachedKeeps(w: World, self: Ref, walk: bool)
    requires Valid(w) && self in w.arrays && w.arrays[self].Pending()
    ensures HasBase(w, self) && Valid(Detached(w, self, walk))
    ensures var b := w.arrays[self].base.value;
            && Unclaimed(Detached(w, self, walk), b)
            && w.arrays[b].refs > |Children(Detached(w, self, walk), b)|
            && Locked(w, self, b)
  {
    hide Children, Sound, Seated, Locked, Detached;
    var w' := Detached(w, self, walk);
    var b := w.arrays[self].base.value;
    SoundFacts(w, self);
    ValidFacts(w);
    LeftCounts(w, self);
    DetachedChildren(w, self, walk, b);
    HolderSound(w, self, b);
    LockedFacts(w, self, b);
    forall c ensures !Holds(w', c, b) {
      DetachedHolds(w, self, walk, c, b);
    }
    DetachedArrays(w, self, walk);
    forall x | x in w'.arrays ensures Sound(w', x) {
      DetachedSound(w, self, walk, x);
    }
  }

  lemma DetachedArrays(w: World, self: Ref, walk: bool)
    requires self in w.arrays
    ensures var w' := Detached(w, self, walk);
            && w'.arrays.Keys == w.arrays.Keys && w'.memory == w.memory && w'.next == w.next && w'.trapped == w.trapped
            && (forall x :: x in w.arrays && x != self ==> w'.arrays[x] == w.arrays[x])
            && w'.arrays[self] == Ordinary(w.arrays[self], walk)
            && w'.arrays[self].refs == w.arrays[self].refs
  {
    OrdinaryIs(w.arrays[self], walk);
    hide Ordinary;
  }

  lemma DetachedHolds(w: World, self: Ref, walk: bool, c: Ref, x: Ref)
    requires self in w.arrays
    ensures Holds(Detached(w, self, walk), c, x) <==> Holds(w, c, x) && c != self
  {
    OrdinaryIs(w.arrays[self], walk);
    hide Ordinary;
  }

  lemma DetachedChildren(w: World, self: Ref, walk: bool, x: Ref)
    requires self in w.arrays
    ensures Children(Detached(w, self, walk), x) == Children(w, x) - {self}
  {
    OrdinaryIs(w.arrays[self], walk);
    hide Ordinary;
  }

  lemma FewerChildren(w: World, self: Ref, walk: bool, x: Ref)
    requires self in w.arrays
    ensures |Children(Detached(w, self, walk), x)| <= |Children(w, x)|
  {
    hide Children, Detached;
    DetachedChildren(w, self, walk, x);
    var c, c' := Children(w, x), Children(Detached(w, self, walk), x);
    assert c == c' + (c - c');
  }

  lemma DetachedSelf(w: World, self: Ref, walk: bool)
    requires Valid(w) && self in w.arrays && w.arrays[self].Pending()
    ensures Sound(Detached(w, self, walk), self)
  {
    hide Children, Valid, TrueFlags, Laid, Locked, Detached, Ordinary;
    DataThere(w, self);
    FewerChildren(w, self, walk, self);
    DetachedArrays(w, self, walk);
    OrdinaryIs(w.arrays[self], walk);
  }

  lemma DetachedSound(w: World, self: Ref, walk: bool, x: Ref)
    requires Valid(w) && self in w.arrays && w.arrays[self].Pending() && x in w.arrays
    ensures Sound(Detached(w, self, walk), x)
  {
    hide Children, Holds, Seated, Locked, Detached, SameHeader, Ordinary;
    var w' := Detached(w, self, walk);
    DetachedArrays(w, self, walk);
    OrdinaryIs(w.arrays[self], walk);
    if x == self {
      DetachedSelf(w, self, walk);
    } else {
      assert Sound(w, x);
      FewerChildren(w, self, walk, x);
      forall b | Holds(w, x, b)
        ensures b in w'.arrays && Writeable !in w'.arrays[b].flags && forall c :: Holds(w', c, b) ==> c == x
      {
        HolderSound(w, x, b);
        LockedFacts(w, x, b);
        DetachedLock(w, self, walk, b);
        forall c | Holds(w', c, b) ensures c == x {
          DetachedHolds(w, self, walk, c, b);
        }
      }
      IteratedSame(w.arrays[x]);
      hide Sound, Linked, Valid;
      SoundMoved(w, w', x);
    }
  }

  lemma DetachedLock(w: World, self: Ref, walk: bool, b: Ref)
    requires self in w.arrays && b in w.arrays && Writeable !in w.arrays[b].flags
    ensures Writeable !in Detached(w, self, walk).arrays[b].flags
  {
    IteratedPlain(w.arrays[self].(flags := w.arrays[self].flags - {UpdateIfCopy}, base := None));
    hide Iterated;
  }

  lemma SeatedDetached(w: World, self: Ref, walk: bool, x: Ref)
    requires Valid(w) && self in w.arrays && x in w.arrays
    ensures Seated(Detached(w, self, walk), w.arrays[x])
  {
    hide Valid, TrueFlags, Laid, Ordinary;
    DataThere(w, x);
  }

  /** The world between the copy and the loss of the reference. */
  lemma ForceBegins(k: Casting, w: World, self: Ref)
    requires Valid(w) && self in w.arrays && w.arrays[self].Pending()
    ensures HasBase(w, self)
    ensures var h, w1 := w.arrays[self], Detached(w, self, Walks(k, w, self));
            var b := h.base.value;
            var w2 := CopiedBack(k, w1, h, b);
            && Valid(w2) && b in w2.arrays && w2.arrays[b].refs > |Children(w2, b)|
            && w2.arrays == w1.arrays[b := BaseAfter(k, h, w.arrays[b])] && w2.memory.Keys == w.memory.Keys
            && Writeable in w2.arrays[b].flags
            && Copied(k, w, w2, h, w.arrays[b]) && w.arrays[b].data < h.data
            && LeftAs(k, w, Without(w2, self), self, b)
  {
    hide Valid, Sound, Seated, Children, CopiedBack, Unclaimed, Copied, Detached, Iterated, CopyWay, Traps, LeftAs;
    hide BaseAfter;
    var h := w.arrays[self];
    SoundFacts(w, self);
    var walk := Walks(k, w, self);
    hide Walks;
    DetachedKeeps(w, self, walk);
    DetachedArrays(w, self, walk);
    var w1, b := Detached(w, self, walk), h.base.value;
    SeatedDetached(w, self, walk, self);
    SeatedDetached(w, self, walk, b);
    CopiedBackKeeps(k, w1, h, b);
    UnlockedRest(k, w.arrays[b], h);
    UnlockedWrites(k, h, w.arrays[b]);
    AfterIs(k, h, w.arrays[b]);
    var w2 := CopiedBack(k, w1, h, b);
    SameChildrenByBase(w1, w2, b);
    CopiedFrom(k, w1, w2, w, w2, h, w.arrays[b]);
    CopiedFrom(k, w1, w2, w, Without(w2, self), h, w.arrays[b]);
    ForceLeaves(k, w, w1, w2, self, b);
  }

  lemma AfterIs(k: Casting, h: Header, b: Header)
    requires h.Pending()
    ensures BaseAfter(k, h, b) == IteratedIf(Unlocked(b), CopyWay(k, Unlocked(b), h).Walk?)
  {
  }

  /** But for `self` itself, the copy back does what it does in a release. */
  lemma ForceLeaves(k: Casting, w: World, w1: World, w2: World, self: Ref, b: Ref)
    requires self in w.arrays && b in w.arrays && b != self && w.arrays[self].Pending()
    requires w.arrays[self].base == Some(b) && w.arrays[b].data < w.arrays[self].data
    requires w1.arrays.Keys == w.arrays.Keys && forall x :: x in w.arrays && x != self ==> w1.arrays[x] == w.arrays[x]
    requires w2.arrays == w1.arrays[b := BaseAfter(k, w.arrays[self], w.arrays[b])]
    requires w2.memory.Keys == w.memory.Keys && w2.next == w.next
    requires w2.trapped <==> w.trapped || Traps(k, w.arrays[b], w.arrays[self])
    requires forall m :: m in w.memory ==> w2.memory[m].items.Keys == w.memory[m].items.Keys
    requires forall m :: m in w.memory && m != w.arrays[b].data ==> w2.memory[m] == w.memory[m]
    requires Copied(k, w, Without(w2, self), w.arrays[self], w.arrays[b])
    ensures LeftAs(k, w, Without(w2, self), self, b)
  {
    hide BaseAfter, Copied, Traps;
    assert Without(w2, self).arrays == (w.arrays - {self})[b := BaseAfter(k, w.arrays[self], w.arrays[b])];
  }

  lemma UnlockedWrites(k: Casting, h: Header, b: Header)
    requires h.Pending()
    ensures Writeable in BaseAfter(k, h, b).flags
  {
    IteratedPlain(Unlocked(b));
    hide Iterated;
  }

  /** A forced update makes `self` an ordinary array. To everything else it does
      exactly what a release of `self` does: the copy back by one write, the
      unlocked base, the iterators, and the arrays that go when the base loses a
      reference. */
  lemma ForceSettles(k: Casting, w: World, self: Ref)
    requires Valid(w) && self in w.arrays && w.arrays[self].Pending()
    ensures HasBase(w, self)
    ensures var w', h := ForceUpdate(k, w, self), w.arrays[self];
            var b := h.base.value;
            && b in w.arrays && Valid(w') && w'.arrays.Keys == w.arrays.Keys - Freed(w, b)
            && self in w'.arrays && w'.arrays[self] == Ordinary(h, Walks(k, w, self))
            && (b in w'.arrays ==> Writeable in w'.arrays[b].flags)
            && Copied(k, w, w', h, w.arrays[b])
            && Settled(k, w, Without(w', self), self, {self} + Freed(w, b), Visited(k, w, h))
  {
    hide Sound, Children, Left, Valid, Freed, Decref, Settled, CopiedBack, LeftAs, Visited, Walked, Detached, Copied;
    hide BaseAfter, VisitedHere, Ordinary, Below;
    ForceBegins(k, w, self);
    var h, b, walk := w.arrays[self], w.arrays[self].base.value, Walks(k, w, self);
    hide Walks;
    DetachedArrays(w, self, walk);
    OrdinaryIs(h, walk);
    UnlockedRest(k, w.arrays[b], h);
    DataThere(w, b);
    var w1 := Detached(w, self, walk);
    var w2 := CopiedBack(k, w1, h, b);
    var w' := Decref(k, w2, b);
    DecrefSettles(k, w2, b);
    FreedForced(w, w2, b, self);
    ForceCopied(k, w2, w', b, self);
    SettledKeys(k, w2, w', b, Freed(w2, b), Walked(k, w2, b));
    ForceStep(k, w, w2, w', self, b);
    ForcedCopy(k, w, w1, w2, w', h, w.arrays[b]);
  }

  /** The copy back and the loss of the reference add up to a release. */
  lemma ForceStep(k: Casting, w: World, w2: World, w': World, self: Ref, b: Ref)
    requires Valid(w) && Valid(w2) && LeftAs(k, w, Without(w2, self), self, b) && b in w2.arrays && b < self
    requires self in w2.arrays && Settled(k, w2, w', b, Freed(w2, b), Walked(k, w2, b)) && Freed(w2, b) == Freed(w, b)
    ensures self in w.arrays && b in w.arrays
    ensures Settled(k, w, Without(w', self), self, {self} + Freed(w, b), Visited(k, w, w.arrays[self]))
  {
    hide Sound, Children, Valid, Freed, Settled, LeftAs, Visited, Walked, Below, VisitedHere;
    LeftBase(k, w, Without(w2, self), self, b);
    SoundFacts(w, self);
    NotReached(w2, b, self);
    SettledWithout(k, w2, w', b, Freed(w2, b), Walked(k, w2, b), self);
    FreedBelow(w, b);
    FreedBelowBase(w, self);
    FreedIsBelow(w, b);
    WalkedWithout(k, w2, b, self);
    SettledStep(k, w, Without(w2, self), Without(w', self), self, b, Freed(w, b), Walked(k, w2, b));
    WalkedStep(k, w, Without(w2, self), self, b);
  }

  lemma FreedForced(w: World, w2: World, b: Ref, self: Ref)
    requires Valid(w) && Valid(w2) && b in w.arrays && self in w.arrays && b < self && b in w2.arrays
    requires w2.arrays.Keys == w.arrays.Keys
    requires forall x :: x in w.arrays && x != self ==>
               w2.arrays[x].refs == w.arrays[x].refs && w2.arrays[x].base == w.arrays[x].base
    ensures Freed(w2, b) == Freed(w, b)
  {
    hide Valid, Freed;
    FreedSame(w, w2, b);
  }

  lemma FreedIsBelow(w: World, b: Ref)
    requires Valid(w) && b in w.arrays
    ensures Below(w, Freed(w, b), b)
  {
    hide Valid, Freed, Holds;
    FreedBelow(w, b);
  }

  lemma WalkedWithout(k: Casting, w: World, b: Ref, self: Ref)
    requires Valid(w) && b in w.arrays && b < self
    ensures Walked(k, Without(w, self), b) == Walked(k, w, b)
  {
    hide Valid;
    if w.arrays[b].base.Some? {
      SoundFacts(w, b);
    }
    VisitedSame(k, w, Without(w, self), w.arrays[b]);
  }

  /** The copied block is not written again. */
  lemma ForcedCopy(k: Casting, w: World, w1: World, w2: World, w': World, src: Header, dest: Header)
    requires w1.memory == w.memory && Copied(k, w, w2, src, dest) && w'.memory.Keys == w2.memory.Keys
    requires src.data in w2.memory && dest.data in w2.memory
    requires w'.memory[src.data] == w2.memory[src.data] && w'.memory[dest.data] == w2.memory[dest.data]
    ensures Copied(k, w, w', src, dest)
  {
    hide Copied;
    CopiedOn(k, w, w2, w', src, dest);
  }

  /** What the settlement of `b` does not reach may as well be gone. */
  lemma SettledWithout(k: Casting, w: World, w': World, b: Ref, f: set<Ref>, v: set<Ref>, self: Ref)
    requires Settled(k, w, w', b, f, v) && self !in f && self != b
    requires self in w.arrays && !Unlocks(w, f, self) && !Releases(w, f, self)
    ensures Settled(k, Without(w, self), Without(w', self), b, f, v)
  {
    hide Unlocks, Releases, Writes, Holds, Copied, TrapsAmong, HeaderSettled;
    var u, u' := Without(w, self), Without(w', self);
    forall x | x in u'.arrays ensures HeaderSettled(u, u', b, f, v, x) {
      assert HeaderSettled(w, w', b, f, v, x);
      HeaderWithout(w, w', b, f, v, self, x);
    }
    forall x | x in v ensures Unlocks(u, f, x) {
      SameUnlocks(w, f, self, x);
    }
    SameTraps(k, w, f, self);
    forall m | m in u.memory && !Writes(u, f, m) ensures u'.memory[m] == u.memory[m] {
      if Writes(w, f, m) {
        SameWrites(w, f, self, m);
      }
    }
    forall c, x | c in f && Holds(u, c, x)
      ensures c in u.arrays && x in u.arrays && Copied(k, u, u', u.arrays[c], u.arrays[x])
    {
      HoldsWithout(w, f, self, c, x);
      CopiedFrom(k, w, w', u, u', w.arrays[c], w.arrays[x]);
    }
  }

  lemma HeaderWithout(w: World, w': World, b: Ref, f: set<Ref>, v: set<Ref>, self: Ref, x: Ref)
    requires x in w.arrays && x in w'.arrays && x != self && self !in f && HeaderSettled(w, w', b, f, v, x)
    ensures HeaderSettled(Without(w, self), Without(w', self), b, f, v, x)
  {
    hide Unlocks, Releases, Iterated;
    SameUnlocks(w, f, self, x);
    SameReleases(w, f, self, x);
  }

  lemma SameTraps(k: Casting, w: World, f: set<Ref>, self: Ref)
    requires self !in f && !Unlocks(w, f, self)
    ensures TrapsAmong(k, Without(w, self), f) <==> TrapsAmong(k, w, f)
  {
    hide Traps;
    var u := Without(w, self);
    if TrapsAmong(k, w, f) {
      var c, x :| c in f && Holds(w, c, x) && x in w.arrays && Traps(k, w.arrays[x], w.arrays[c]);
      assert Holds(u, c, x);
    }
    if TrapsAmong(k, u, f) {
      var c, x :| c in f && Holds(u, c, x) && x in u.arrays && Traps(k, u.arrays[x], u.arrays[c]);
      assert Holds(w, c, x);
    }
  }

  lemma HoldsWithout(w: World, f: set<Ref>, self: Ref, c: Ref, x: Ref)
    requires c in f && Holds(Without(w, self), c, x) && !Unlocks(w, f, self)
    ensures Holds(w, c, x) && c in w.arrays && c != self && x != self
  {
  }

  lemma SameWrites(w: World, f: set<Ref>, self: Ref, m: Ref)
    requires self !in f && !Unlocks(w, f, self) && Writes(w, f, m)
    ensures Writes(Without(w, self), f, m)
  {
    var x :| x in w.arrays && w.arrays[x].data == m && Unlocks(w, f, x);
    SameUnlocks(w, f, self, x);
    assert x in Without(w, self).arrays;
  }

  lemma SameUnlocks(w: World, f: set<Ref>, self: Ref, x: Ref)
    requires self !in f
    ensures Unlocks(Without(w, self), f, x) <==> Unlocks(w, f, x)
  {
    if c :| c in f && Holds(w, c, x) {
      assert Holds(Without(w, self), c, x);
    }
  }

  lemma SameReleases(w: World, f: set<Ref>, self: Ref, x: Ref)
    requires self !in f
    ensures Releases(Without(w, self), f, x) <==> Releases(w, f, x)
  {
    if c :| c in f && c in w.arrays && w.arrays[c].base == Some(x) {
      assert c in Without(w, self).arrays;
    }
  }

  lemma FreedBelowBase(w: World, self: Ref)
    requires Valid(w) && self in w.arrays && HasBase(w, self)
    ensures w.arrays[w.arrays[self].base.value].data <= w.arrays[self].data && w.arrays[self].base.value < self
  {
    SoundFacts(w, self);
  }

  lemma SettledKeys(k: Casting, w: World, w': World, a: Ref, f: set<Ref>, v: set<Ref>)
    requires Settled(k, w, w', a, f, v)
    ensures w'.arrays.Keys == w.arrays.Keys - f && w'.memory.Keys == w.memory.Keys
  {
  }

  /** What follows the copy leaves the copied block and `self` alone. */
  lemma ForceCopied(k: Casting, w: World, w': World, b: Ref, self: Ref)
    requires Valid(w) && b in w.arrays && self in w.arrays && b < self
    requires Settled(k, w, w', b, Freed(w, b), Walked(k, w, b))
    requires w.arrays[b].data < w.arrays[self].data && Writeable in w.arrays[b].flags
    ensures self in w'.arrays && w'.arrays[self] == w.arrays[self]
    ensures forall m :: m in w.memory && m >= w.arrays[b].data ==> w'.memory[m] == w.memory[m]
    ensures b in w'.arrays ==> Writeable in w'.arrays[b].flags
  {
    hide Valid, Freed, Copied, Holds, Walked, TrapsAmong, Iterated;
    var f := Freed(w, b);
    FreedBelow(w, b);
    NotReached(w, b, self);
    if b in w'.arrays {
      assert HeaderSettled(w, w', b, f, Walked(k, w, b), b);
      IteratedPlain(w.arrays[b]);
      IteratedPlain(Unlocked(w.arrays[b]));
    }
    assert HeaderSettled(w, w', b, f, Walked(k, w, b), self);
  }

  /** Only older arrays lose references. */
  lemma NotReached(w: World, b: Ref, self: Ref)
    requires Valid(w) && b in w.arrays && self in w.arrays && b < self
    ensures self !in Freed(w, b) && !Unlocks(w, Freed(w, b), self) && !Releases(w, Freed(w, b), self)
  {
    hide Freed;
    FreedBelow(w, b);
    forall c | c in Freed(w, b) ensures w.arrays[c].base != Some(self) {
      assert Sound(w, c);
    }
  }

  // ----- A forced update, then a release

  /** An array that `a` cannot reach may as well be gone before. */
  lemma {:induction false} DecrefIgnores(k: Casting, w: World, a: Ref, c: Ref)
    requires a in w.arrays && a < c
    ensures Decref(k, Without(w, c), a) == Without(Decref(k, w, a), c)
    decreases a
  {
    hide Left;
    if w.arrays[a].refs > 1 || !HasBase(w, a) {
      assert HasBase(Without(w, c), a) <==> HasBase(w, a);
      assert Decref(k, Without(w, c), a).arrays == Without(Decref(k, w, a), c).arrays;
    } else {
      LeftIgnores(k, w, a, c);
      LeftHasBase(k, w, a);
      DecrefIgnores(k, Left(k, w, a), w.arrays[a].base.value, c);
    }
  }

  lemma CopiedBackIgnores(k: Casting, w: World, h: Header, b: Ref, c: Ref)
    requires b in w.arrays && h.data in w.memory && w.arrays[b].data in w.memory && b != c
    ensures CopiedBack(k, Without(w, c), h, b) == Without(CopiedBack(k, w, h, b), c)
  {
    hide CopiedIn;
    var u := Unlocked(w.arrays[b]);
    assert With(Without(w, c), b, u).arrays == Without(With(w, b, u), c).arrays;
    CopyIgnores(k, With(w, b, u), h, b, c);
  }

  lemma LeftIgnores(k: Casting, w: World, a: Ref, c: Ref)
    requires HasBase(w, a) && a < c
    ensures HasBase(Without(w, c), a) && Left(k, Without(w, c), a) == Without(Left(k, w, a), c)
  {
    hide CopiedBack;
    var h := w.arrays[a];
    CopiedBackIgnores(k, w, h, h.base.value, c);
    var w1 := if h.Pending() then CopiedBack(k, w, h, h.base.value) else w;
    assert Without(Without(w1, c), a).arrays == Without(Without(w1, a), c).arrays;
  }

  /** Forcing the update of a copy and then releasing it does exactly what
      releasing it does: it is copied back once. */
  lemma ForceThenRelease(k: Casting, w: World, self: Ref)
    requires Valid(w) && self in w.arrays && w.arrays[self].Pending() && w.arrays[self].refs == 1
    ensures self in ForceUpdate(k, w, self).arrays
    ensures Decref(k, ForceUpdate(k, w, self), self) == Decref(k, w, self)
  {
    hide Valid, Left, Settled, Copied, Visited, CopiedBack, Detached, Ordinary, BaseAfter;
    ForceSettles(k, w, self);
    ForceBegins(k, w, self);
    SoundFacts(w, self);
    var h, b, walk := w.arrays[self], w.arrays[self].base.value, Walks(k, w, self);
    hide Walks;
    OrdinaryIs(h, walk);
    DetachedArrays(w, self, walk);
    var w2 := CopiedBack(k, Detached(w, self, walk), h, b);
    DecrefIgnores(k, w2, b, self);
    LeftCommutes(k, w, self);
    CopiedBackWithout(k, w, self, walk);
    LastUnfolds(k, w, self);
  }

  lemma CopiedBackWithout(k: Casting, w: World, self: Ref, walk: bool)
    requires HasBase(w, self) && w.arrays[self].Pending()
    ensures var h, b := w.arrays[self], w.arrays[self].base.value;
            Without(CopiedBack(k, Detached(w, self, walk), h, b), self) == CopiedBack(k, Without(w, self), h, b)
  {
    var h, b := w.arrays[self], w.arrays[self].base.value;
    hide CopiedBack, Ordinary;
    CopiedBackIgnores(k, Detached(w, self, walk), h, b, self);
    assert Without(Detached(w, self, walk), self).arrays == Without(w, self).arrays;
  }

  // ----- Abandoned copies

  /** `NpyArray_XDECREF_ERR` up to the release: the base is unlocked and nobody waits
      for it. */
  function Abandoned(w: World, a: Ref): World
    requires a in w.arrays
  {
    var h := w.arrays[a];
    if h.Pending() && HasBase(w, a) then
      With(With(w, h.base.value, Unlocked(w.arrays[h.base.value])), a, h.(flags := h.flags - {UpdateIfCopy}))
    else w
  }

  ghost function Abandon(k: Casting, w: World, a: Ref): World
    requires a in w.arrays
  {
    Decref(k, Abandoned(w, a), a)
  }

  /** Nothing but a pending copy is updated or abandoned: a view or an ordinary array stays
      as it is, or loses a reference. */
  lemma OnlyPending(k: Casting, w: World, a: Ref)
    requires a in w.arrays && (UpdateIfCopy !in w.arrays[a].flags || w.arrays[a].base.None?)
    ensures ForceUpdate(k, w, a) == w && Abandon(k, w, a) == Decref(k, w, a)
  {
  }

  lemma AbandonedIs(w: World, a: Ref)
    requires Valid(w) && a in w.arrays && w.arrays[a].Pending()
    ensures HasBase(w, a)
    ensures var w', b, h := Abandoned(w, a), w.arrays[a].base.value, w.arrays[a];
            && w'.arrays == w.arrays[b := Unlocked(w.arrays[b])][a := h.(flags := h.flags - {UpdateIfCopy})]
            && w'.memory == w.memory && w'.next == w.next && w'.trapped == w.trapped
            && forall x :: Children(w', x) == Children(w, x)
  {
    hide Valid;
    SoundFacts(w, a);
    var w' := Abandoned(w, a);
    forall x ensures Children(w', x) == Children(w, x) {
      SameChildrenByBase(w, w', x);
    }
  }

  lemma AbandonedHolds(w: World, a: Ref, c: Ref, x: Ref)
    requires Valid(w) && a in w.arrays && w.arrays[a].Pending()
    ensures Holds(Abandoned(w, a), c, x) <==> Holds(w, c, x) && c != a
  {
    hide Valid, Abandoned, Children;
    AbandonedIs(w, a);
  }

  lemma AbandonedSelf(w: World, a: Ref)
    requires Valid(w) && a in w.arrays && w.arrays[a].Pending()
    ensures Sound(Abandoned(w, a), a)
  {
    hide Valid, Abandoned, Children, TrueFlags, Laid, Locked;
    AbandonedIs(w, a);
    DataThere(w, a);
    StaysTrue(w.arrays[a], w.arrays[a].(flags := w.arrays[a].flags - {UpdateIfCopy}));
  }

  lemma AbandonedSound(w: World, a: Ref, x: Ref)
    requires Valid(w) && a in w.arrays && w.arrays[a].Pending() && x in w.arrays
    ensures Sound(Abandoned(w, a), x)
  {
    hide Children, Holds, Seated, Locked, Abandoned, SameHeader;
    var w' := Abandoned(w, a);
    AbandonedIs(w, a);
    if x == a {
      AbandonedSelf(w, a);
    } else {
      assert Sound(w, x);
      forall b | Holds(w, x, b)
        ensures b in w'.arrays && Writeable !in w'.arrays[b].flags && forall c :: Holds(w', c, b) ==> c == x
      {
        OtherBase(w, a, x, b);
        HolderSound(w, x, b);
        LockedFacts(w, x, b);
        forall c | Holds(w', c, b) ensures c == x {
          AbandonedHolds(w, a, c, b);
        }
      }
      IteratedSame(w.arrays[x]);
      hide Sound, Linked, Valid;
      SoundMoved(w, w', x);
    }
  }

  /** Two pending arrays have different bases. */
  lemma OtherBase(w: World, a: Ref, x: Ref, b: Ref)
    requires Valid(w) && a in w.arrays && w.arrays[a].Pending() && Holds(w, x, b) && x != a
    ensures w.arrays[a].base != Some(b) && b in w.arrays
  {
    hide Valid;
    HolderSound(w, x, b);
    HoldsIs(w, a, b);
  }

  /** Abandoning a pending copy keeps the world valid and the base as it is, but
      unlocked: the copy is not written. What else goes, goes as in a release. */
  lemma AbandonSettles(k: Casting, w: World, a: Ref)
    requires Valid(w) && a in w.arrays && w.arrays[a].Pending() && w.arrays[a].refs > |Children(w, a)|
    ensures HasBase(w, a)
    ensures var w', b, u := Abandon(k, w, a), w.arrays[a].base.value, Abandoned(w, a);
            && Valid(u) && Valid(w') && Settled(k, u, w', a, Freed(u, a), Walked(k, u, a))
            && w.arrays[b].data in w'.memory && w'.memory[w.arrays[b].data] == w.memory[w.arrays[b].data]
            && (b in w'.arrays ==> Writeable in w'.arrays[b].flags)
  {
    hide Valid, Children, Abandoned, Settled, Freed, Walked, Decref, Sound;
    AbandonedIs(w, a);
    var u, b := Abandoned(w, a), w.arrays[a].base.value;
    ValidFacts(w);
    AbandonedValid(w, a);
    DecrefSettles(k, u, a);
    AbandonedMemory(k, w, u, Abandon(k, w, a), a, b);
  }

  lemma AbandonedValid(w: World, a: Ref)
    requires Valid(w) && a in w.arrays && w.arrays[a].Pending()
    ensures Valid(Abandoned(w, a))
  {
    hide Sound, Children, Abandoned;
    ValidFacts(w);
    AbandonedIs(w, a);
    forall x | x in w.arrays ensures Sound(Abandoned(w, a), x) {
      AbandonedSound(w, a, x);
    }
  }

  lemma AbandonedMemory(k: Casting, w: World, u: World, w': World, a: Ref, b: Ref)
    requires Valid(u) && a in u.arrays && b in u.arrays && w.memory == u.memory && b in w.arrays && b < a
    requires Settled(k, u, w', a, Freed(u, a), Walked(k, u, a)) && u.arrays[a].base == Some(b) && !u.arrays[a].Pending()
    requires w.arrays[b].data == u.arrays[b].data && u.arrays[b].data in u.memory && Writeable in u.arrays[b].flags
    ensures w.arrays[b].data in w'.memory && w'.memory[w.arrays[b].data] == w.memory[w.arrays[b].data]
    ensures b in w'.arrays ==> Writeable in w'.arrays[b].flags
  {
    hide Valid, Freed, Walked, Copied, TrapsAmong, Iterated;
    FreedBelow(u, b);
    FreedOne(u, a, b);
    assert !Writes(u, Freed(u, a), u.arrays[b].data);
    if b in w'.arrays {
      assert HeaderSettled(u, w', a, Freed(u, a), Walked(k, u, a), b);
      IteratedPlain(u.arrays[b]);
      IteratedPlain(Unlocked(u.arrays[b]));
    }
  }

  lemma FreedOne(w: World, a: Ref, b: Ref)
    requires a in w.arrays && b in w.arrays && w.arrays[a].base == Some(b)
    ensures forall c :: c in Freed(w, a) ==> c == a || c in Freed(w, b)
  {
  }
}
