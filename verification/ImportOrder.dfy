/**
 The order in which a package loader imports its packages
 (numpy/_import_tools.py): repeatedly emit the packages whose dependencies have
 all been emitted. A dictionary is walked in an arbitrary order.
 */
module ImportOrder {

  type Name = string
  type Depends = map<Name, seq<Name>>

  // ----- Cycles

  /** A closed walk along dependencies between packages. */
  ghost predicate Cycle(deps: Depends, p: seq<Name>) {
    && |p| >= 2 && p[0] == p[|p| - 1]
    && forall i :: 0 <= i < |p| - 1 ==> p[i] in deps && p[i + 1] in deps[p[i]]
  }

  ghost predicate Acyclic(deps: Depends) {
    forall p :: !Cycle(deps, p)
  }

  ghost predicate DependsInto(deps: Depends, n: Name, s: set<Name>) {
    n in deps && exists d :: d in deps[n] && d in s
  }

  /** Packages that all depend on some package among them. */
  ghost predicate Knot(deps: Depends, s: set<Name>) {
    s != {} && forall n {:trigger DependsInto(deps, n, s)} :: n in s ==> DependsInto(deps, n, s)
  }

  /** A walk of `k` steps inside a knot. */
  ghost function Walk(deps: Depends, s: set<Name>, n: Name, k: nat): (p: seq<Name>)
    requires Knot(deps, s) && n in s
    ensures |p| == k + 1 && p[0] == n && forall i :: 0 <= i < |p| ==> p[i] in s
    ensures forall i :: 0 <= i < k ==> p[i] in deps && p[i + 1] in deps[p[i]]
    decreases k
  {
    if k == 0 then [n]
    else
      assert DependsInto(deps, n, s);
      var d :| d in deps[n] && d in s;
      [n] + Walk(deps, s, d, k - 1)
  }

  /** A sequence longer than its range repeats itself. */
  lemma {:induction false} Repeats(p: seq<Name>, s: set<Name>) returns (i: nat, j: nat)
    requires |p| > |s| && forall k :: 0 <= k < |p| ==> p[k] in s
    ensures i < j < |p| && p[i] == p[j]
    decreases |p|
  {
    if k :| 1 <= k < |p| && p[k] == p[0] {
      i, j := 0, k;
    } else {
      var q := p[1..];
      assert forall k :: 0 <= k < |q| ==> q[k] == p[k + 1];
      i, j := Repeats(q, s - {p[0]});
      i, j := i + 1, j + 1;
    }
  }

  lemma KnotHasCycle(deps: Depends, s: set<Name>)
    requires Knot(deps, s)
    ensures !Acyclic(deps)
  {
    var n :| n in s;
    var p := Walk(deps, s, n, |s|);
    var i, j := Repeats(p, s);
    var c := p[i..j + 1];
    assert forall k :: 0 <= k < |c| ==> c[k] == p[i + k];
    assert Cycle(deps, c);
  }

  lemma CycleIsKnot(deps: Depends, p: seq<Name>)
    requires Cycle(deps, p)
    ensures Knot(deps, set n | n in p)
  {
    var s := set n | n in p;
    assert p[0] in s;
    forall n | n in s ensures DependsInto(deps, n, s) {
      var i :| 0 <= i < |p| && p[i] == n;
      var k := if i == |p| - 1 then 0 else i;
      assert p[k] == n && p[k + 1] in deps[n] && p[k + 1] in s;
    }
  }

  // ----- A good order

  predicate EmittedBefore(names: seq<Name>, d: Name, i: nat) {
    exists j :: 0 <= j < i && j < |names| && names[j] == d
  }

  /** Every emitted package comes after its dependencies among the packages. */
  ghost predicate InOrder(names: seq<Name>, deps: Depends) {
    forall i, d :: 0 <= i < |names| && names[i] in deps && d in deps[names[i]] && d in deps ==>
      EmittedBefore(names, d, i)
  }

  ghost predicate NoRepeats(names: seq<Name>) {
    forall i, j :: 0 <= i < j < |names| ==> names[i] != names[j]
  }

  ghost predicate GoodOrder(names: seq<Name>, deps: Depends) {
    && NoRepeats(names) && (forall n :: n in names <==> n in deps) && InOrder(names, deps)
  }

  /** A good order exists for acyclic dependencies only. */
  lemma GoodOrderIsAcyclic(names: seq<Name>, deps: Depends)
    requires GoodOrder(names, deps)
    ensures Acyclic(deps)
  {
    forall p ensures !Cycle(deps, p) {
      if Cycle(deps, p) {
        CycleIsKnot(deps, p);
        assert p[0] in deps && p[0] in names;
        var i :| 0 <= i < |names| && names[i] == p[0];
        NoFirstInKnot(names, deps, (set n | n in p), i);
      }
    }
  }

  /** Below any member of a knot there is always an earlier one. */
  lemma {:induction false} NoFirstInKnot(names: seq<Name>, deps: Depends, s: set<Name>, i: nat)
    requires GoodOrder(names, deps) && Knot(deps, s) && i < |names| && names[i] in s
    ensures false
    decreases i
  {
    assert DependsInto(deps, names[i], s);
    var d :| d in deps[names[i]] && d in s;
    assert DependsInto(deps, d, s);
    assert EmittedBefore(names, d, i);
    var j :| 0 <= j < i && names[j] == d;
    NoFirstInKnot(names, deps, s, j);
  }

  // ----- One visit, one pass

  /** `[n for n in lst if n in depend_dict]` */
  function Filter(lst: seq<Name>, dict: Depends): (r: seq<Name>)
    ensures forall n :: n in r <==> n in lst && n in dict
  {
    if lst == [] then []
    else (if lst[0] in dict then [lst[0]] else []) + Filter(lst[1..], dict)
  }

  datatype State = State(dict: Depends, names: seq<Name>)

  function Visit(s: State, name: Name, lst: seq<Name>): State {
    var newLst := Filter(lst, s.dict);
    if newLst == [] then State(s.dict - {name}, s.names + [name]) else s.(dict := s.dict[name := newLst])
  }

  /** A pass over the items of `snapshot` in the given order. */
  function Pass(s: State, snapshot: Depends, order: seq<Name>): State
    requires forall n :: n in order ==> n in snapshot
  {
    if order == [] then s
    else
      var last := |order| - 1;
      Visit(Pass(s, snapshot, order[..last]), order[last], snapshot[order[last]])
  }

  /** What holds between visits: the dictionary keeps the packages not yet emitted,
      and their lists keep every dependency that is not yet emitted. */
  ghost predicate Consistent(s: State, deps: Depends) {
    && NoRepeats(s.names) && InOrder(s.names, deps)
    && (forall n :: n in deps <==> n in s.dict || n in s.names)
    && (forall n :: n in s.names ==> n !in s.dict)
    && (forall n :: n in s.dict ==> ListOk(s, deps, n))
  }

  ghost predicate ListOk(s: State, deps: Depends, n: Name)
    requires n in s.dict
  {
    && n in deps
    && (forall d :: d in s.dict[n] ==> d in deps[n])
    && (forall d :: d in deps[n] && d in s.dict ==> d in s.dict[n])
  }

  lemma EmitKeepsOrder(s: State, deps: Depends, name: Name)
    requires Consistent(s, deps) && name in s.dict && Filter(s.dict[name], s.dict) == []
    ensures InOrder(s.names + [name], deps) && NoRepeats(s.names + [name])
  {
    var names := s.names + [name];
    assert ListOk(s, deps, name);
    forall i, d | 0 <= i < |names| && names[i] in deps && d in deps[names[i]] && d in deps
      ensures EmittedBefore(names, d, i)
    {
      if i < |s.names| {
        assert EmittedBefore(s.names, d, i);
        var j :| 0 <= j < i && s.names[j] == d;
        assert names[j] == d;
      } else {
        assert d !in s.dict;
        var j :| 0 <= j < |s.names| && s.names[j] == d;
        assert names[j] == d;
      }
    }
  }

  lemma VisitKeeps(s: State, deps: Depends, name: Name)
    requires Consistent(s, deps) && name in s.dict
    ensures Consistent(Visit(s, name, s.dict[name]), deps)
  {
    var t := Visit(s, name, s.dict[name]);
    if Filter(s.dict[name], s.dict) == [] {
      EmitKeepsOrder(s, deps, name);
    }
    forall n | n in t.dict ensures ListOk(t, deps, n) {
      assert ListOk(s, deps, n);
    }
  }

  // ----- The loops

  /** The packages with dependencies. */
  function Dependent(deps: Depends): Depends {
    map n | n in deps && deps[n] != [] :: deps[n]
  }

  /** The first loop emits the packages without dependencies. */
  method EmitIndependent(deps: Depends) returns (s: State)
    ensures Consistent(s, deps) && s.dict == Dependent(deps)
  {
    s := State(deps, []);
    var todo := deps.Keys;
    while todo != {}
      invariant todo <= s.dict.Keys && Consistent(s, deps)
      invariant forall n :: n in s.dict ==> n in deps && s.dict[n] == deps[n]
      invariant forall n :: n in deps && (deps[n] != [] || n in todo) ==> n in s.dict
      invariant forall n :: n in s.dict && n !in todo ==> deps[n] != []
      decreases todo
    {
      var name :| name in todo;
      todo := todo - {name};
      if s.dict[name] == [] {
        VisitKeeps(s, deps, name);
        s := State(s.dict - {name}, s.names + [name]);
      }
    }
  }

  /** The `for` loop over the items, in an arbitrary order. Either a package is
      emitted, or all that remain depend on each other. */
  method OnePass(s: State, ghost deps: Depends) returns (t: State, ghost order: seq<Name>)
    requires Consistent(s, deps)
    ensures Consistent(t, deps)
    ensures (forall n :: n in order ==> n in s.dict) && t == Pass(s, s.dict, order)
    ensures t.dict.Keys < s.dict.Keys || s.dict == map[] || Knot(deps, s.dict.Keys)
  {
    hide Consistent;
    var snapshot := s.dict;
    var todo := snapshot.Keys;
    t, order := s, [];
    while todo != {}
      invariant todo <= t.dict.Keys <= snapshot.Keys && Consistent(t, deps)
      invariant forall n :: n in todo ==> t.dict[n] == snapshot[n]
      invariant (forall n :: n in order ==> n in snapshot) && t == Pass(s, snapshot, order)
      invariant t.dict.Keys == snapshot.Keys ==>
                  forall n :: n in snapshot && n !in todo ==> DependsInto(deps, n, snapshot.Keys)
      decreases todo
    {
      var name :| name in todo;
      todo := todo - {name};
      var lst := snapshot[name];
      var newLst := Filter(lst, t.dict);
      VisitKeeps(t, deps, name);
      PassSnoc(s, snapshot, order, name);
      if newLst == [] {
        t := State(t.dict - {name}, t.names + [name]);
      } else {
        StillDepends(t, deps, name, newLst);
        t := t.(dict := t.dict[name := newLst]);
      }
      order := order + [name];
    }
  }

  lemma StillDepends(t: State, deps: Depends, name: Name, newLst: seq<Name>)
    requires Consistent(t, deps) && name in t.dict && newLst == Filter(t.dict[name], t.dict) != []
    ensures DependsInto(deps, name, t.dict.Keys)
  {
    assert ListOk(t, deps, name);
    assert newLst[0] in newLst;
  }

  lemma PassSnoc(s: State, snapshot: Depends, order: seq<Name>, name: Name)
    requires (forall n :: n in order ==> n in snapshot) && name in snapshot
    ensures Pass(s, snapshot, order + [name]) == Visit(Pass(s, snapshot, order), name, snapshot[name])
  {
  }

  /** `_get_sorted_names`: without cycles the loop ends, with every package after
      the dependencies it has among the packages. */
  method GetSortedNames(deps: Depends) returns (names: seq<Name>)
    requires Acyclic(deps)
    ensures GoodOrder(names, deps)
  {
    var s := EmitIndependent(deps);
    while s.dict != map[]
      invariant Consistent(s, deps)
      decreases s.dict.Keys
    {
      ghost var before := s.dict.Keys;
      ghost var order;
      if Knot(deps, before) {
        KnotHasCycle(deps, before);
      }
      s, order := OnePass(s, deps);
    }
    return s.names;
  }

  // ----- With a cycle the loop never ends

  lemma VisitKeepsKnot(s: State, snapshot: Depends, name: Name, k: set<Name>)
    requires Knot(s.dict, k) && Knot(snapshot, k) && name in snapshot
    ensures Knot(Visit(s, name, snapshot[name]).dict, k)
  {
    var t := Visit(s, name, snapshot[name]);
    forall n | n in k ensures DependsInto(t.dict, n, k) {
      assert DependsInto(s.dict, n, k) && DependsInto(snapshot, n, k);
      if n == name {
        var d :| d in snapshot[n] && d in k;
        assert DependsInto(s.dict, d, k);
        assert d in Filter(snapshot[name], s.dict);
      }
    }
  }

  lemma {:induction false} PassKeepsKnot(s: State, snapshot: Depends, order: seq<Name>, k: set<Name>)
    requires (forall n :: n in order ==> n in snapshot) && Knot(s.dict, k) && Knot(snapshot, k)
    ensures Knot(Pass(s, snapshot, order).dict, k)
  {
    if order != [] {
      var last := |order| - 1;
      PassKeepsKnot(s, snapshot, order[..last], k);
      VisitKeepsKnot(Pass(s, snapshot, order[..last]), snapshot, order[last], k);
    }
  }

  /** `t` is a state of the `while` loop after `n` passes from `s`. */
  ghost predicate Reaches(s: State, t: State, n: nat)
    decreases n
  {
    if n == 0 then s == t
    else exists order :: (forall m :: m in order ==> m in s.dict) && Reaches(Pass(s, s.dict, order), t, n - 1)
  }

  lemma {:induction false} PassesKeepKnot(s: State, t: State, n: nat, k: set<Name>)
    requires Reaches(s, t, n) && Knot(s.dict, k)
    ensures Knot(t.dict, k)
    decreases n
  {
    if n > 0 {
      var order :| (forall m :: m in order ==> m in s.dict) && Reaches(Pass(s, s.dict, order), t, n - 1);
      PassKeepsKnot(s, s.dict, order, k);
      PassesKeepKnot(Pass(s, s.dict, order), t, n - 1, k);
    }
  }

  /** The loop condition stays true for ever when the dependencies have a cycle. */
  lemma CycleNeverEnds(deps: Depends, s: State, t: State, n: nat)
    requires !Acyclic(deps) && s.dict == Dependent(deps) && Reaches(s, t, n)
    ensures t.dict != map[]
  {
    var p :| Cycle(deps, p);
    CycleIsKnot(deps, p);
    var k := set m | m in p;
    forall m | m in k ensures DependsInto(s.dict, m, k) {
      assert DependsInto(deps, m, k);
    }
    PassesKeepKnot(s, t, n, k);
    assert DependsInto(t.dict, p[0], k);
  }
}
