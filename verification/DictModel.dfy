/**
 The dictionary as a value: a sequence of buckets, each a sequence of pairs, and
 the finite map it stands for (libndarray/src/npy_dict.c).
 */
module DictModel {
  import opened Wrappers

  datatype Pair<+K, +V> = Pair(key: K, value: V)

  type Bucket<K, V> = seq<Pair<K, V>>

  /** What the comparison and hash functions mean: two keys compare equal when
      they have the same class, and the hash depends on the class only. */
  datatype Keying<!K, !C> = Keying(canon: K -> C, hash: C -> nat)

  /** The pair of class `c`, scanning from the front. */
  ghost function Find<K, V, C>(bucket: Bucket<K, V>, k: Keying<K, C>, c: C): Option<Pair<K, V>> {
    if bucket == [] then None
    else if k.canon(bucket[0].key) == c then Some(bucket[0])
    else Find(bucket[1..], k, c)
  }

  ghost predicate Distinct<K, V, C>(bucket: Bucket<K, V>, k: Keying<K, C>) {
    forall i, j :: 0 <= i < j < |bucket| ==> k.canon(bucket[i].key) != k.canon(bucket[j].key)
  }

  /** The bucket of class `c` among `n`. */
  function Slot<K, C>(k: Keying<K, C>, c: C, n: nat): nat
    requires n > 0
    ensures Slot(k, c, n) < n
  {
    k.hash(c) % n
  }

  /** Every pair sits in the bucket of its class, and no two pairs in a bucket
      have equal keys: hence no two pairs of the table do. */
  ghost predicate WellFormed<K, V, C>(table: seq<Bucket<K, V>>, k: Keying<K, C>) {
    && |table| > 0
    && (forall b :: 0 <= b < |table| ==> Distinct(table[b], k))
    && (forall b, j :: 0 <= b < |table| && 0 <= j < |table[b]| ==>
          Slot(k, k.canon(table[b][j].key), |table|) == b)
  }

  ghost function Lookup<K, V, C>(table: seq<Bucket<K, V>>, k: Keying<K, C>, c: C): Option<Pair<K, V>>
    requires |table| > 0
  {
    Find(table[Slot(k, c, |table|)], k, c)
  }

  ghost function MapGet<C, P>(m: map<C, P>, c: C): Option<P> {
    if c in m then Some(m[c]) else None
  }

  /** The table stands for `m`, a map from classes to pairs. */
  ghost predicate Represents<K, V, C(!new)>(table: seq<Bucket<K, V>>, k: Keying<K, C>, m: map<C, Pair<K, V>>) {
    |table| > 0 && forall c :: Lookup(table, k, c) == MapGet(m, c)
  }

  // ----- One bucket

  lemma {:induction false} FindAbsent<K, V, C>(bucket: Bucket<K, V>, k: Keying<K, C>, c: C)
    ensures Find(bucket, k, c).None? <==> forall j :: 0 <= j < |bucket| ==> k.canon(bucket[j].key) != c
  {
    if bucket != [] {
      FindAbsent(bucket[1..], k, c);
      assert forall j :: 1 <= j < |bucket| ==> bucket[j] == bucket[1..][j - 1];
    }
  }

  /** The first pair of class `c` is the one found. */
  lemma {:induction false} FindAt<K, V, C>(bucket: Bucket<K, V>, k: Keying<K, C>, j: nat)
    requires j < |bucket|
    requires forall i :: 0 <= i < j ==> k.canon(bucket[i].key) != k.canon(bucket[j].key)
    ensures Find(bucket, k, k.canon(bucket[j].key)) == Some(bucket[j])
  {
    if j > 0 {
      assert forall i :: 0 <= i < j - 1 ==> bucket[1..][i] == bucket[i + 1];
      FindAt(bucket[1..], k, j - 1);
    }
  }

  lemma DistinctTail<K, V, C>(bucket: Bucket<K, V>, k: Keying<K, C>)
    requires Distinct(bucket, k) && bucket != []
    ensures Distinct(bucket[1..], k)
    ensures Find(bucket[1..], k, k.canon(bucket[0].key)) == None
  {
    FindAbsent(bucket[1..], k, k.canon(bucket[0].key));
  }

  lemma {:induction false} FindReplace<K, V, C>(bucket: Bucket<K, V>, k: Keying<K, C>, j: nat, p: Pair<K, V>, c: C)
    requires j < |bucket| && Distinct(bucket, k) && k.canon(p.key) == k.canon(bucket[j].key)
    ensures Distinct(bucket[j := p], k)
    ensures Find(bucket[j := p], k, c) == if c == k.canon(p.key) then Some(p) else Find(bucket, k, c)
  {
    if j > 0 {
      DistinctTail(bucket, k);
      FindReplace(bucket[1..], k, j - 1, p, c);
      assert bucket[j := p][1..] == bucket[1..][j - 1 := p];
    } else {
      assert bucket[0 := p][1..] == bucket[1..];
    }
  }

  function Without<T>(s: seq<T>, j: nat): seq<T>
    requires j < |s|
  {
    s[..j] + s[j + 1..]
  }

  lemma {:induction false} FindWithout<K, V, C>(bucket: Bucket<K, V>, k: Keying<K, C>, j: nat, c: C)
    requires j < |bucket| && Distinct(bucket, k)
    ensures Distinct(Without(bucket, j), k)
    ensures Find(Without(bucket, j), k, c)
            == if c == k.canon(bucket[j].key) then None else Find(bucket, k, c)
  {
    DistinctTail(bucket, k);
    if j > 0 {
      FindWithout(bucket[1..], k, j - 1, c);
      assert Without(bucket, j)[1..] == Without(bucket[1..], j - 1);
    } else {
      assert Without(bucket, 0) == bucket[1..];
    }
  }

  // ----- The operations on a table

  function PushFront<K, V>(table: seq<Bucket<K, V>>, b: nat, p: Pair<K, V>): seq<Bucket<K, V>>
    requires b < |table|
  {
    table[b := [p] + table[b]]
  }

  lemma InsertRepresents<K, V, C(!new)>(table: seq<Bucket<K, V>>, k: Keying<K, C>, m: map<C, Pair<K, V>>, p: Pair<K, V>)
    requires WellFormed(table, k) && Represents(table, k, m) && k.canon(p.key) !in m
    ensures var t := PushFront(table, Slot(k, k.canon(p.key), |table|), p);
            WellFormed(t, k) && Represents(t, k, m[k.canon(p.key) := p])
  {
    var c := k.canon(p.key);
    var b := Slot(k, c, |table|);
    var t := PushFront(table, b, p);
    assert Lookup(table, k, c) == MapGet(m, c) == None;
    FindAbsent(table[b], k, c);
    forall c' ensures Lookup(t, k, c') == MapGet(m[c := p], c') {
      assert Lookup(table, k, c') == MapGet(m, c');
      assert t[b][1..] == table[b];
    }
  }

  lemma ReplaceRepresents<K, V, C(!new)>(table: seq<Bucket<K, V>>, k: Keying<K, C>, m: map<C, Pair<K, V>>,
                                             b: nat, j: nat, p: Pair<K, V>)
    requires WellFormed(table, k) && Represents(table, k, m)
    requires b < |table| && j < |table[b]| && k.canon(p.key) == k.canon(table[b][j].key)
    ensures var t := table[b := table[b][j := p]];
            WellFormed(t, k) && Represents(t, k, m[k.canon(p.key) := p])
  {
    var c := k.canon(p.key);
    var t := table[b := table[b][j := p]];
    FindReplace(table[b], k, j, p, c);
    forall c' ensures Lookup(t, k, c') == MapGet(m[c := p], c') {
      assert Lookup(table, k, c') == MapGet(m, c');
      FindReplace(table[b], k, j, p, c');
    }
  }

  lemma RemoveRepresents<K, V, C(!new)>(table: seq<Bucket<K, V>>, k: Keying<K, C>, m: map<C, Pair<K, V>>,
                                        b: nat, j: nat)
    requires WellFormed(table, k) && Represents(table, k, m)
    requires b < |table| && j < |table[b]|
    ensures var t := table[b := Without(table[b], j)];
            WellFormed(t, k) && Represents(t, k, m - {k.canon(table[b][j].key)})
  {
    var c := k.canon(table[b][j].key);
    var t := table[b := Without(table[b], j)];
    FindWithout(table[b], k, j, c);
    forall c' ensures Lookup(t, k, c') == MapGet(m - {c}, c') {
      assert Lookup(table, k, c') == MapGet(m, c');
      FindWithout(table[b], k, j, c');
    }
  }

  /** A stored pair is what the map holds for its class. */
  lemma StoredInMap<K, V, C(!new)>(table: seq<Bucket<K, V>>, k: Keying<K, C>, m: map<C, Pair<K, V>>, b: nat, j: nat)
    requires WellFormed(table, k) && Represents(table, k, m)
    requires b < |table| && j < |table[b]|
    ensures k.canon(table[b][j].key) in m && m[k.canon(table[b][j].key)] == table[b][j]
  {
    FindAt(table[b], k, j);
    assert Lookup(table, k, k.canon(table[b][j].key)) == MapGet(m, k.canon(table[b][j].key));
  }

  /** A class missing from its bucket is missing from the map. */
  lemma MissingInMap<K, V, C(!new)>(table: seq<Bucket<K, V>>, k: Keying<K, C>, m: map<C, Pair<K, V>>, c: C)
    requires Represents(table, k, m)
    requires forall j :: 0 <= j < |table[Slot(k, c, |table|)]| ==> k.canon(table[Slot(k, c, |table|)][j].key) != c
    ensures c !in m
  {
    FindAbsent(table[Slot(k, c, |table|)], k, c);
    assert Lookup(table, k, c) == MapGet(m, c);
  }

  // ----- Rehashing

  function Empty<K, V>(n: nat): (t: seq<Bucket<K, V>>)
    ensures |t| == n && forall b :: 0 <= b < n ==> t[b] == []
  {
    seq(n, _ => [])
  }

  /** All pairs, bucket by bucket. */
  function Flatten<K, V>(table: seq<Bucket<K, V>>): seq<Pair<K, V>> {
    if table == [] then [] else table[0] + Flatten(table[1..])
  }

  /** Push the pairs one after the other to the front of their buckets. */
  function PushAll<K, V, C>(pairs: seq<Pair<K, V>>, k: Keying<K, C>, table: seq<Bucket<K, V>>): (t: seq<Bucket<K, V>>)
    requires |table| > 0
    ensures |t| == |table|
  {
    if pairs == [] then table
    else PushAll(pairs[1..], k, PushFront(table, Slot(k, k.canon(pairs[0].key), |table|), pairs[0]))
  }

  lemma {:induction false} PushAllRepresents<K, V, C(!new)>(pairs: seq<Pair<K, V>>, k: Keying<K, C>,
                                                         table: seq<Bucket<K, V>>, m: map<C, Pair<K, V>>,
                                                         all: map<C, Pair<K, V>>)
    requires WellFormed(table, k) && Represents(table, k, m) && Distinct(pairs, k)
    requires forall c :: MapGet(all, c) == if Find(pairs, k, c).Some? then Find(pairs, k, c) else MapGet(m, c)
    requires forall c :: Find(pairs, k, c).Some? ==> c !in m
    ensures WellFormed(PushAll(pairs, k, table), k) && Represents(PushAll(pairs, k, table), k, all)
  {
    if pairs == [] {
      forall c ensures MapGet(all, c) == MapGet(m, c) {
        assert Find(pairs, k, c).None?;
      }
    } else {
      var p := pairs[0];
      var c0 := k.canon(p.key);
      assert Find(pairs, k, c0).Some?;
      InsertRepresents(table, k, m, p);
      DistinctTail(pairs, k);
      var m' := m[c0 := p];
      forall c
        ensures MapGet(all, c) == if Find(pairs[1..], k, c).Some? then Find(pairs[1..], k, c) else MapGet(m', c)
        ensures Find(pairs[1..], k, c).Some? ==> c !in m'
      {
        assert Find(pairs, k, c).Some? ==> c !in m;
      }
      PushAllRepresents(pairs[1..], k, PushFront(table, Slot(k, c0, |table|), p), m', all);
    }
  }

  lemma {:induction false} FindAppend<K, V, C>(a: Bucket<K, V>, b: Bucket<K, V>, k: Keying<K, C>, c: C)
    ensures Find(a + b, k, c) == if Find(a, k, c).Some? then Find(a, k, c) else Find(b, k, c)
  {
    if a == [] {
      assert a + b == b;
    } else {
      FindAppend(a[1..], b, k, c);
      assert (a + b)[1..] == a[1..] + b;
    }
  }

  /** A class kept in one bucket only is found in the flat list as in that bucket. */
  lemma {:induction false} FindFlatten<K, V, C>(table: seq<Bucket<K, V>>, k: Keying<K, C>, c: C, b: int)
    requires forall i :: 0 <= i < |table| && i != b ==> Find(table[i], k, c).None?
    ensures Find(Flatten(table), k, c) == if 0 <= b < |table| then Find(table[b], k, c) else None
  {
    if table != [] {
      FindAppend(table[0], Flatten(table[1..]), k, c);
      FindFlatten(table[1..], k, c, b - 1);
    }
  }

  lemma FlattenLookup<K, V, C>(table: seq<Bucket<K, V>>, k: Keying<K, C>, c: C)
    requires WellFormed(table, k)
    ensures Find(Flatten(table), k, c) == Lookup(table, k, c)
  {
    var b := Slot(k, c, |table|);
    forall i | 0 <= i < |table| && i != b ensures Find(table[i], k, c).None? {
      FindAbsent(table[i], k, c);
    }
    FindFlatten(table, k, c, b);
  }

  /** Distinct buckets without common classes make a distinct list. */
  lemma {:induction false} DistinctFlatten<K, V, C>(table: seq<Bucket<K, V>>, k: Keying<K, C>, n: nat, from: nat)
    requires n > 0
    requires forall b :: 0 <= b < |table| ==> Distinct(table[b], k)
    requires forall b, j :: 0 <= b < |table| && 0 <= j < |table[b]| ==> Slot(k, k.canon(table[b][j].key), n) == b + from
    ensures Distinct(Flatten(table), k)
    ensures forall i :: 0 <= i < |Flatten(table)| ==> Slot(k, k.canon(Flatten(table)[i].key), n) >= from
  {
    if table != [] {
      DistinctFlatten(table[1..], k, n, from + 1);
      var rest := Flatten(table[1..]);
      assert Flatten(table) == table[0] + rest;
    }
  }

  /** Rehashing keeps the map, whatever the new number of buckets. */
  lemma RehashRepresents<K, V, C(!new)>(table: seq<Bucket<K, V>>, k: Keying<K, C>, m: map<C, Pair<K, V>>, n: nat)
    requires WellFormed(table, k) && Represents(table, k, m) && n > 0
    ensures var t := PushAll(Flatten(table), k, Empty(n));
            WellFormed(t, k) && Represents(t, k, m)
  {
    DistinctFlatten(table, k, |table|, 0);
    forall c ensures Find(Flatten(table), k, c) == MapGet(m, c) {
      FlattenLookup(table, k, c);
      assert Lookup(table, k, c) == MapGet(m, c);
    }
    PushAllRepresents(Flatten(table), k, Empty(n), map[], m);
  }

  /** `pairs` lists each entry of the map exactly once. */
  ghost predicate Enumerates<K, V, C>(pairs: seq<Pair<K, V>>, k: Keying<K, C>, m: map<C, Pair<K, V>>) {
    && Distinct(pairs, k) && |pairs| == |m|
    && (forall p :: p in pairs ==> k.canon(p.key) in m && m[k.canon(p.key)] == p)
    && (forall c :: c in m ==> m[c] in pairs && k.canon(m[c].key) == c)
  }

  /** The flat list holds each entry of the map exactly once. */
  lemma FlattenEnumerates<K, V, C(!new)>(table: seq<Bucket<K, V>>, k: Keying<K, C>, m: map<C, Pair<K, V>>)
    requires WellFormed(table, k) && Represents(table, k, m)
    ensures Enumerates(Flatten(table), k, m)
  {
    DistinctFlatten(table, k, |table|, 0);
    forall c ensures Find(Flatten(table), k, c) == MapGet(m, c) {
      FlattenLookup(table, k, c);
      assert Lookup(table, k, c) == MapGet(m, c);
    }
    ListIsMap(Flatten(table), k, m);
  }

  lemma {:induction false} ListIsMap<K, V, C(!new)>(pairs: seq<Pair<K, V>>, k: Keying<K, C>, m: map<C, Pair<K, V>>)
    requires Distinct(pairs, k) && forall c :: Find(pairs, k, c) == MapGet(m, c)
    ensures Enumerates(pairs, k, m)
  {
    if pairs == [] {
      forall c ensures c !in m {
        assert Find(pairs, k, c) == MapGet(m, c);
      }
      assert m == map[];
    } else {
      DistinctTail(pairs, k);
      var c0 := k.canon(pairs[0].key);
      assert Find(pairs, k, c0) == MapGet(m, c0);
      var m' := m - {c0};
      forall c ensures Find(pairs[1..], k, c) == MapGet(m', c) {
        assert Find(pairs, k, c) == MapGet(m, c);
      }
      ListIsMap(pairs[1..], k, m');
      hide Find, Distinct;
      assert m == m'[c0 := pairs[0]];
      EnumeratesMore(pairs, k, m');
    }
  }

  lemma EnumeratesMore<K, V, C(!new)>(pairs: seq<Pair<K, V>>, k: Keying<K, C>, m: map<C, Pair<K, V>>)
    requires pairs != [] && Enumerates(pairs[1..], k, m) && k.canon(pairs[0].key) !in m
    ensures Enumerates(pairs, k, m[k.canon(pairs[0].key) := pairs[0]])
  {
    assert forall p :: p in pairs <==> p == pairs[0] || p in pairs[1..];
  }

  // ----- Copying

  function CopyPair<K, V>(p: Pair<K, V>, copyKey: K -> K, copyValue: V -> V): Pair<K, V> {
    Pair(copyKey(p.key), copyValue(p.value))
  }

  function CopyPairs<K, V>(pairs: seq<Pair<K, V>>, copyKey: K -> K, copyValue: V -> V): (r: seq<Pair<K, V>>)
    ensures |r| == |pairs| && forall i :: 0 <= i < |r| ==> r[i] == CopyPair(pairs[i], copyKey, copyValue)
  {
    seq(|pairs|, i requires 0 <= i < |pairs| => CopyPair(pairs[i], copyKey, copyValue))
  }

  ghost function CopyMap<K, V, C>(m: map<C, Pair<K, V>>, copyKey: K -> K, copyValue: V -> V): map<C, Pair<K, V>> {
    map c | c in m :: CopyPair(m[c], copyKey, copyValue)
  }

  lemma CopyMapSize<K, V, C>(m: map<C, Pair<K, V>>, copyKey: K -> K, copyValue: V -> V)
    ensures |CopyMap(m, copyKey, copyValue)| == |m|
  {
    assert CopyMap(m, copyKey, copyValue).Keys == m.Keys;
  }

  ghost function CopyOption<K, V>(o: Option<Pair<K, V>>, copyKey: K -> K, copyValue: V -> V): Option<Pair<K, V>> {
    match o case None => None case Some(p) => Some(CopyPair(p, copyKey, copyValue))
  }

  lemma {:induction false} FindCopies<K, V, C>(pairs: seq<Pair<K, V>>, k: Keying<K, C>, copyKey: K -> K,
                                               copyValue: V -> V, c: C)
    requires forall i :: 0 <= i < |pairs| ==> k.canon(copyKey(pairs[i].key)) == k.canon(pairs[i].key)
    ensures Find(CopyPairs(pairs, copyKey, copyValue), k, c) == CopyOption(Find(pairs, k, c), copyKey, copyValue)
  {
    if pairs != [] {
      FindCopies(pairs[1..], k, copyKey, copyValue, c);
      assert CopyPairs(pairs, copyKey, copyValue)[1..] == CopyPairs(pairs[1..], copyKey, copyValue);
    }
  }

  /** What is still to be copied when the buckets before `i` are done. */
  function CopyRest<K, V, C>(table: seq<Bucket<K, V>>, i: nat, k: Keying<K, C>, copyKey: K -> K, copyValue: V -> V,
                             acc: seq<Bucket<K, V>>): seq<Bucket<K, V>>
    requires i <= |table| && |acc| > 0
  {
    PushAll(CopyPairs(Flatten(table[i..]), copyKey, copyValue), k, acc)
  }

  lemma CopyRestStep<K, V, C>(table: seq<Bucket<K, V>>, i: nat, k: Keying<K, C>, copyKey: K -> K, copyValue: V -> V,
                              acc: seq<Bucket<K, V>>, acc': seq<Bucket<K, V>>)
    requires i < |table| && |acc| > 0 && |acc'| > 0
    requires var rest := Flatten(table[i + 1..]);
             PushAll(CopyPairs(rest, copyKey, copyValue), k, acc')
             == PushAll(CopyPairs(table[i] + rest, copyKey, copyValue), k, acc)
    ensures CopyRest(table, i + 1, k, copyKey, copyValue, acc') == CopyRest(table, i, k, copyKey, copyValue, acc)
  {
  }

  lemma CopyRestEnds<K, V, C>(table: seq<Bucket<K, V>>, k: Keying<K, C>, copyKey: K -> K, copyValue: V -> V,
                              acc: seq<Bucket<K, V>>)
    requires |acc| > 0
    ensures CopyRest(table, |table|, k, copyKey, copyValue, acc) == acc
    ensures CopyRest(table, 0, k, copyKey, copyValue, acc)
            == PushAll(CopyPairs(Flatten(table), copyKey, copyValue), k, acc)
  {
  }

  /** A deep copy stands for the copied map when copied keys keep their class. */
  lemma CopyRepresents<K, V, C(!new)>(table: seq<Bucket<K, V>>, k: Keying<K, C>, m: map<C, Pair<K, V>>,
                                      copyKey: K -> K, copyValue: V -> V)
    requires WellFormed(table, k) && Represents(table, k, m)
    requires forall b, j :: 0 <= b < |table| && 0 <= j < |table[b]| ==>
               k.canon(copyKey(table[b][j].key)) == k.canon(table[b][j].key)
    ensures var t := PushAll(CopyPairs(Flatten(table), copyKey, copyValue), k, Empty(|table|));
            WellFormed(t, k) && Represents(t, k, CopyMap(m, copyKey, copyValue))
  {
    var pairs := Flatten(table);
    DistinctFlatten(table, k, |table|, 0);
    FlattenKeys(table, k, copyKey);
    var copies := CopyPairs(pairs, copyKey, copyValue);
    forall c ensures Find(copies, k, c) == MapGet(CopyMap(m, copyKey, copyValue), c) {
      FlattenLookup(table, k, c);
      assert Lookup(table, k, c) == MapGet(m, c);
      FindCopies(pairs, k, copyKey, copyValue, c);
    }
    PushAllRepresents(copies, k, Empty(|table|), map[], CopyMap(m, copyKey, copyValue));
  }

  lemma {:induction false} FlattenKeys<K, V, C>(table: seq<Bucket<K, V>>, k: Keying<K, C>, copyKey: K -> K)
    requires forall b, j :: 0 <= b < |table| && 0 <= j < |table[b]| ==>
               k.canon(copyKey(table[b][j].key)) == k.canon(table[b][j].key)
    ensures forall i :: 0 <= i < |Flatten(table)| ==>
              k.canon(copyKey(Flatten(table)[i].key)) == k.canon(Flatten(table)[i].key)
  {
    if table != [] {
      FlattenKeys(table[1..], k, copyKey);
    }
  }

  // ----- Positions in the flat list

  /** Where bucket `b` starts. */
  function Start<K, V>(table: seq<Bucket<K, V>>, b: nat): nat
    requires b <= |table|
  {
    if b == 0 then 0 else Start(table, b - 1) + |table[b - 1]|
  }

  lemma {:induction false} FlattenAt<K, V>(table: seq<Bucket<K, V>>, b: nat)
    requires b <= |table|
    ensures Start(table, b) <= |Flatten(table)|
    ensures Flatten(table)[Start(table, b)..] == Flatten(table[b..])
    decreases b
  {
    if b > 0 {
      FlattenAt(table, b - 1);
      assert table[b - 1..][1..] == table[b..];
      assert Flatten(table)[Start(table, b)..] == Flatten(table[b - 1..])[|table[b - 1]|..];
    } else {
      assert table[0..] == table;
    }
  }

  lemma FlattenIndex<K, V>(table: seq<Bucket<K, V>>, b: nat, j: nat)
    requires b < |table| && j < |table[b]|
    ensures Start(table, b) + j < |Flatten(table)|
    ensures Flatten(table)[Start(table, b) + j] == table[b][j]
  {
    FlattenAt(table, b);
    assert Flatten(table[b..])[j] == table[b][j];
  }
}
