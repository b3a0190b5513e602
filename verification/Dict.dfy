/**
 The chained hash table with its heap nodes (libndarray/src/npy_dict.c). Each
 operation is proved against the finite map `contents`, from key classes to the
 stored pairs.
 */
module Dict {
  import opened DictModel
  import opened Wrappers
  import PrimeSearch

  class KVPair<K, V> {
    var key: K
    var value: V
    var next: KVPair?<K, V>
    // Where the node is linked: which bucket array, which bucket.
    ghost var gen: int
    ghost var bucket: int

    constructor (key: K, value: V)
      ensures this.key == key && this.value == value
    {
      this.key, this.value, this.next := key, value, null;
    }
  }

  ghost function NodeAt<K, V>(chain: seq<KVPair<K, V>>, j: nat): KVPair?<K, V> {
    if j < |chain| then chain[j] else null
  }

  /** `head` starts the linked list `chain`, which stores `pairs`. */
  ghost predicate ChainOk<K, V>(head: KVPair?<K, V>, chain: seq<KVPair<K, V>>, pairs: Bucket<K, V>, gen: int, b: int)
    reads chain
  {
    && head == NodeAt(chain, 0)
    && |chain| == |pairs|
    && (forall i, j :: 0 <= i < j < |chain| ==> chain[i] != chain[j])
    && forall j :: 0 <= j < |chain| ==> NodeOk(chain, pairs, j, gen, b)
  }

  ghost predicate NodeOk<K, V>(chain: seq<KVPair<K, V>>, pairs: Bucket<K, V>, j: nat, gen: int, b: int)
    requires j < |chain| == |pairs|
    reads chain[j]
  {
    && Pair(chain[j].key, chain[j].value) == pairs[j]
    && chain[j].next == NodeAt(chain, j + 1)
    && chain[j].gen == gen && chain[j].bucket == b
  }

  /** The buckets from `from` on are linked lists of nodes of `nodes`. */
  ghost predicate TableOk<K, V>(arr: array<KVPair?<K, V>>, chains: seq<seq<KVPair<K, V>>>, buckets: seq<Bucket<K, V>>,
                                gen: int, nodes: set<KVPair<K, V>>, from: nat)
    reads arr, nodes
  {
    && |chains| == |buckets| == arr.Length
    && forall b :: from <= b < |chains| ==>
         (forall j :: 0 <= j < |chains[b]| ==> chains[b][j] in nodes)
         && ChainOk(arr[b], chains[b], buckets[b], gen, b)
  }

  /** `pair->next = arr[b]; arr[b] = pair;` for a node that is in no list of `arr`. */
  method LinkFront<K, V>(arr: array<KVPair?<K, V>>, b: nat, pair: KVPair<K, V>, ghost chains: seq<seq<KVPair<K, V>>>,
                         ghost buckets: seq<Bucket<K, V>>, ghost gen: int, ghost nodes: set<KVPair<K, V>>)
    returns (ghost chains': seq<seq<KVPair<K, V>>>, ghost buckets': seq<Bucket<K, V>>)
    requires TableOk(arr, chains, buckets, gen, nodes, 0) && b < arr.Length
    requires pair in nodes ==> pair.gen != gen
    modifies arr, pair
    ensures TableOk(arr, chains', buckets', gen, nodes + {pair}, 0)
    ensures buckets' == PushFront(buckets, b, Pair(pair.key, pair.value))
    ensures pair.key == old(pair.key) && pair.value == old(pair.value) && pair.gen == gen
  {
    ghost var p := Pair(pair.key, pair.value);
    forall c, j | 0 <= c < |chains| && 0 <= j < |chains[c]| ensures chains[c][j] != pair {
      assert NodeOk(chains[c], buckets[c], j, gen, c);
    }
    pair.next := arr[b];
    arr[b] := pair;
    pair.gen, pair.bucket := gen, b;
    chains' := chains[b := [pair] + chains[b]];
    buckets' := PushFront(buckets, b, p);
    forall c | 0 <= c < |chains| ensures ChainOk(arr[c], chains'[c], buckets'[c], gen, c) {
      assert forall j :: 0 <= j < |chains[c]| ==>
          old(NodeOk(chains[c], buckets[c], j, gen, c));
      if c == b {
        assert NodeOk(chains'[c], buckets'[c], 0, gen, c);
        forall j | 1 <= j < |chains'[c]| ensures NodeOk(chains'[c], buckets'[c], j, gen, c) {
          assert old(NodeOk(chains[c], buckets[c], j - 1, gen, c));
        }
      }
    }
  }

  /** `pair->key = key; pair->value = value;` */
  method SetPair<K, V>(arr: array<KVPair?<K, V>>, ghost b: nat, ghost j: nat, pair: KVPair<K, V>, key: K, value: V,
                       ghost chains: seq<seq<KVPair<K, V>>>, ghost buckets: seq<Bucket<K, V>>,
                       ghost gen: int, ghost nodes: set<KVPair<K, V>>)
    requires TableOk(arr, chains, buckets, gen, nodes, 0) && b < arr.Length
    requires j < |chains[b]| && pair == chains[b][j]
    modifies pair
    ensures TableOk(arr, chains, buckets[b := buckets[b][j := Pair(key, value)]], gen, nodes, 0)
  {
    forall c, i | 0 <= c < |chains| && 0 <= i < |chains[c]| && (c != b || i != j) ensures chains[c][i] != pair {
      assert NodeOk(chains[c], buckets[c], i, gen, c) && NodeOk(chains[b], buckets[b], j, gen, b);
    }
    pair.key := key;
    pair.value := value;
    ghost var buckets' := buckets[b := buckets[b][j := Pair(key, value)]];
    forall c | 0 <= c < |chains| ensures ChainOk(arr[c], chains[c], buckets'[c], gen, c) {
      forall i | 0 <= i < |chains[c]| ensures NodeOk(chains[c], buckets'[c], i, gen, c) {
        assert old(NodeOk(chains[c], buckets[c], i, gen, c));
      }
    }
  }

  /** Take a node out of its list: relink its predecessor or the bucket. */
  method Unlink<K, V>(arr: array<KVPair?<K, V>>, b: nat, ghost j: nat, prev: KVPair?<K, V>, pair: KVPair<K, V>,
                      ghost chains: seq<seq<KVPair<K, V>>>, ghost buckets: seq<Bucket<K, V>>,
                      ghost gen: int, ghost nodes: set<KVPair<K, V>>)
    returns (ghost chains': seq<seq<KVPair<K, V>>>)
    requires TableOk(arr, chains, buckets, gen, nodes, 0) && b < arr.Length
    requires j < |chains[b]| && pair == chains[b][j]
    requires prev == if j == 0 then null else chains[b][j - 1]
    modifies arr, if j > 0 then {chains[b][j - 1]} else {}
    ensures TableOk(arr, chains', buckets[b := Without(buckets[b], j)], gen, nodes - {pair}, 0)
    ensures pair.key == old(pair.key) && pair.value == old(pair.value)
  {
    ghost var buckets' := buckets[b := Without(buckets[b], j)];
    ghost var chain := chains[b];
    forall c, i, i' | 0 <= c < |chains| && 0 <= i < |chains[c]| && 0 <= i' < |chain| && (c != b || i != i')
      ensures chains[c][i] != chain[i']
    {
      assert NodeOk(chains[c], buckets[c], i, gen, c) && NodeOk(chain, buckets[b], i', gen, b);
    }
    assert forall c, i :: 0 <= c < |chains| && 0 <= i < |chains[c]| ==> NodeOk(chains[c], buckets[c], i, gen, c);
    if prev != null {
      prev.next := pair.next;
    } else {
      arr[b] := pair.next;
    }
    chains' := chains[b := Without(chain, j)];
    assert arr[b] == NodeAt(chains'[b], 0) by {
      assert old(NodeOk(chain, buckets[b], j, gen, b));
    }
    forall c | 0 <= c < |chains| ensures ChainOk(arr[c], chains'[c], buckets'[c], gen, c) {
      if c == b {
        forall i | 0 <= i < |chains'[b]| ensures NodeOk(chains'[b], buckets'[b], i, gen, b) {
          assert old(NodeOk(chain, buckets[b], if i < j then i else i + 1, gen, b));
          assert old(NodeOk(chain, buckets[b], j, gen, b));
        }
      } else {
        forall i | 0 <= i < |chains[c]| ensures NodeOk(chains[c], buckets[c], i, gen, c) {
          assert old(NodeOk(chains[c], buckets[c], i, gen, c));
        }
      }
    }
  }

  class NpyDict<K(!new), V, C(!new)> {
    const keycmp: (K, K) -> int
    const hashFunction: K -> nat
    ghost const keying: Keying<K, C>

    var numOfBuckets: int
    var numOfElements: int
    var bucketArray: array<KVPair?<K, V>>
    var idealRatio: real
    var lowerRehashThreshold: real
    var upperRehashThreshold: real

    ghost var chains: seq<seq<KVPair<K, V>>>
    ghost var buckets: seq<Bucket<K, V>>
    ghost var gen: int
    ghost var nodes: set<KVPair<K, V>>
    /** The finite map the table stands for. */
    ghost var contents: map<C, Pair<K, V>>

    /** What a caller owes: comparison is an equivalence (`canon` names its
        classes) and equal keys have equal hashes. */
    static ghost predicate Agree(keycmp: (K, K) -> int, hashFunction: K -> nat, keying: Keying<K, C>) {
      && (forall a, b :: keycmp(a, b) == 0 <==> keying.canon(a) == keying.canon(b))
      && (forall a :: hashFunction(a) == keying.hash(keying.canon(a)))
    }

    lemma FlatIsContents()
      requires Valid()
      ensures Enumerates(Flatten(buckets), keying, contents)
    {
      hide TableOk, Enumerates;
      FlattenEnumerates(buckets, keying, contents);
    }

    /** The objects that make up the table. */
    ghost function Repr(): set<object>
      reads this
    {
      {this, bucketArray} + nodes
    }

    ghost predicate Valid()
      reads Repr()
    {
      && TableOk(bucketArray, chains, buckets, gen, nodes, 0)
      && numOfBuckets == bucketArray.Length
      && idealRatio > 0.0
      && WellFormed(buckets, keying) && Represents(buckets, keying, contents)
      && Agree(keycmp, hashFunction, keying)
      && numOfElements >= |contents|
    }

    ghost function Class(key: K): C {
      keying.canon(key)
    }

    /** How far the element count is above the size of the map: only `Rekey` onto
        a key in use makes it grow. */
    ghost function Surplus(): int
      reads this
    {
      numOfElements - |contents|
    }

    /** What `SetIdealRatio` sets. */
    ghost function Ratios(): (real, real, real)
      reads this
    {
      (idealRatio, lowerRehashThreshold, upperRehashThreshold)
    }

    /** The buckets are the ideal count for the elements: enough for the ideal ratio. */
    ghost predicate Ideal()
      reads this
    {
      && idealRatio > 0.0 && numOfElements >= 0
      && PrimeSearch.IsIdealNumOfBuckets(numOfBuckets, numOfElements, idealRatio)
      && numOfElements as real < PrimeSearch.Room(idealRatio, numOfBuckets + 1)
    }

    lemma RatioBounds(elements: int, n: int, bound: real)
      requires n > 0
      ensures elements as real / n as real > bound <==> elements as real > PrimeSearch.Room(bound, n)
      ensures elements as real / n as real < bound <==> (elements as real) < PrimeSearch.Room(bound, n)
    {
    }

    constructor CreateTable(numOfBuckets: int, keycmp: (K, K) -> int, hashFunction: K -> nat,
                            ghost keying: Keying<K, C>)
      requires numOfBuckets > 0 && Agree(keycmp, hashFunction, keying)
      ensures Valid() && fresh(Repr())
      ensures contents == map[] && Surplus() == 0 && this.numOfBuckets == numOfBuckets
      ensures this.keycmp == keycmp && this.hashFunction == hashFunction && this.keying == keying
      ensures Ratios() == (3.0, 0.0, 15.0)
    {
      this.keycmp, this.hashFunction, this.keying := keycmp, hashFunction, keying;
      this.numOfBuckets, numOfElements := numOfBuckets, 0;
      idealRatio, lowerRehashThreshold, upperRehashThreshold := 3.0, 0.0, 15.0;
      var arr := new KVPair?<K, V>[numOfBuckets](_ => null);
      bucketArray := arr;
      chains := seq(numOfBuckets, _ => []);
      buckets := Empty(numOfBuckets);
      contents := map[];
      gen := 0;
      nodes := {};
    }

    /** The scan every operation starts with. */
    method Locate(key: K) returns (b: nat, prev: KVPair?<K, V>, pair: KVPair?<K, V>, ghost j: nat)
      requires Valid()
      ensures b == Slot(keying, Class(key), |buckets|) && j <= |buckets[b]|
      ensures b < |chains| == |buckets| && pair == NodeAt(chains[b], j)
      ensures pair != null ==> j < |chains[b]| == |buckets[b]| && pair in nodes
      ensures (prev != null ==> prev in nodes) && numOfBuckets > 0
      ensures prev == if j == 0 then null else chains[b][j - 1]
      ensures pair == null ==> Class(key) !in contents
      ensures pair != null ==> Class(buckets[b][j].key) == Class(key) && Pair(pair.key, pair.value) == buckets[b][j]
      ensures pair != null ==> Class(key) in contents && contents[Class(key)] == buckets[b][j]
      ensures Valid()
    {
      b := hashFunction(key) % numOfBuckets;
      prev, pair, j := null, bucketArray[b], 0;
      while pair != null && keycmp(key, pair.key) != 0
        invariant j <= |chains[b]| && pair == NodeAt(chains[b], j)
        invariant prev == if j == 0 then null else chains[b][j - 1]
        invariant forall i :: 0 <= i < j ==> Class(buckets[b][i].key) != Class(key)
        decreases |chains[b]| - j
      {
        assert NodeOk(chains[b], buckets[b], j, gen, b);
        prev := pair;
        pair := pair.next;
        j := j + 1;
      }
      if pair == null {
        MissingInMap(buckets, keying, contents, Class(key));
      } else {
        assert NodeOk(chains[b], buckets[b], j, gen, b);
        StoredInMap(buckets, keying, contents, b, j);
      }
    }

    /** The value stored for a key, if any. */
    method Get(key: K) returns (r: Option<V>)
      requires Valid()
      ensures r == match MapGet(contents, Class(key)) case None => None case Some(p) => Some(p.value)
    {
      var b, prev, pair;
      ghost var j;
      b, prev, pair, j := Locate(key);
      return if pair == null then None else Some(pair.value);
    }

    method ContainsKey(key: K) returns (r: bool)
      requires Valid()
      ensures r <==> Class(key) in contents
    {
      var v := Get(key);
      return v.Some?;
    }

    method ForceValue(key: K, value: V)
      requires Valid()
      modifies Repr()
      ensures Valid() && Repr() == old(Repr())
      ensures contents == if Class(key) in old(contents)
                          then old(contents)[Class(key) := old(contents)[Class(key)].(value := value)]
                          else old(contents)
      ensures numOfElements == old(numOfElements)
      ensures numOfBuckets == old(numOfBuckets) && Ratios() == old(Ratios())
    {
      var b, prev, pair;
      ghost var j;
      b, prev, pair, j := Locate(key);
      if pair != null {
        Overwrite(b, j, pair, pair.key, value);
      }
    }

    /** Replace the pair of a node by one of the same class. */
    method Overwrite(ghost b: nat, ghost j: nat, pair: KVPair<K, V>, key: K, value: V)
      requires Valid() && b < |chains| && j < |chains[b]| && pair == chains[b][j]
      requires Class(key) == Class(buckets[b][j].key)
      modifies this`contents, this`buckets, pair
      ensures Valid()
      ensures contents == old(contents)[Class(key) := Pair(key, value)]
    {
      ghost var p := Pair(key, value);
      ReplaceRepresents(buckets, keying, contents, b, j, p);
      StoredInMap(buckets, keying, contents, b, j);
      assert |contents[Class(key) := p]| == |contents|;
      SetPair(bucketArray, b, j, pair, key, value, chains, buckets, gen, nodes);
      buckets := buckets[b := buckets[b][j := p]];
      contents := contents[Class(key) := p];
    }

    /** Push a node that is not in the table to the front of its bucket. */
    method Attach(b: nat, pair: KVPair<K, V>)
      requires Valid() && pair !in nodes && Class(pair.key) !in contents
      requires b == Slot(keying, Class(pair.key), |buckets|)
      requires numOfElements > |contents|
      modifies this`contents, this`buckets, this`chains, this`nodes, bucketArray, pair
      ensures Valid() && nodes == old(nodes) + {pair}
      ensures contents == old(contents)[Class(pair.key) := Pair(pair.key, pair.value)]
      ensures pair.key == old(pair.key) && pair.value == old(pair.value)
    {
      ghost var p := Pair(pair.key, pair.value);
      InsertRepresents(buckets, keying, contents, p);
      hide WellFormed, Represents, Agree, ChainOk;
      chains, buckets := LinkFront(bucketArray, b, pair, chains, buckets, gen, nodes);
      nodes := nodes + {pair};
      contents := contents[Class(pair.key) := p];
    }

    lemma PairAt(b: nat, j: nat)
      requires Valid() && b < |chains| && j < |chains[b]|
      ensures |chains| == |buckets| && |chains[b]| == |buckets[b]|
      ensures Pair(chains[b][j].key, chains[b][j].value) == buckets[b][j]
    {
      assert NodeOk(chains[b], buckets[b], j, gen, b);
    }

    lemma WithoutRepresents(b: nat, j: nat)
      requires Valid() && b < |chains| && j < |chains[b]| == |buckets[b]| && |chains| == |buckets|
      ensures var rest := contents - {Class(buckets[b][j].key)};
              && WellFormed(buckets[b := Without(buckets[b], j)], keying)
              && Represents(buckets[b := Without(buckets[b], j)], keying, rest)
              && |rest| < |contents|
    {
      hide WellFormed, Represents, Agree, TableOk, Without;
      RemoveRepresents(buckets, keying, contents, b, j);
      StoredInMap(buckets, keying, contents, b, j);
    }

    /** Unlink the node at position `j` of bucket `b`. */
    method Detach(b: nat, ghost j: nat, prev: KVPair?<K, V>, pair: KVPair<K, V>)
      requires Valid() && b < |chains| && j < |chains[b]| && pair == chains[b][j]
      requires prev == if j == 0 then null else chains[b][j - 1]
      modifies this`contents, this`buckets, this`chains, this`nodes, bucketArray, prev
      ensures Valid() && nodes == old(nodes) - {pair}
      ensures contents == old(contents) - {old(Class(buckets[b][j].key))}
      ensures pair.key == old(pair.key) && pair.value == old(pair.value)
      ensures |buckets| == old(|buckets|) && numOfBuckets > 0 && numOfElements > |contents|
    {
      PairAt(b, j);
      WithoutRepresents(b, j);
      hide WellFormed, Represents, Agree, ChainOk;
      chains := Unlink(bucketArray, b, j, prev, pair, chains, buckets, gen, nodes);
      contents := contents - {Class(buckets[b][j].key)};
      buckets := buckets[b := Without(buckets[b], j)];
      nodes := nodes - {pair};
    }

    /** The ratio bounds `NpyDict_Rehash` aims at and the automatic rehash obeys. */
    method SetIdealRatio(ideal: real, lower: real, upper: real)
      requires Valid() && ideal > 0.0 && lower < ideal && (upper == 0.0 || upper > ideal)
      modifies this`idealRatio, this`lowerRehashThreshold, this`upperRehashThreshold
      ensures Valid() && contents == old(contents) && numOfElements == old(numOfElements)
      ensures idealRatio == ideal && lowerRehashThreshold == lower && upperRehashThreshold == upper
    {
      hide TableOk, WellFormed, Represents, Agree;
      idealRatio, lowerRehashThreshold, upperRehashThreshold := ideal, lower, upper;
    }

    /** A new node, and one more in the count. */
    method Insert(b: nat, newPair: KVPair<K, V>)
      requires Valid() && newPair !in nodes && Class(newPair.key) !in contents
      requires b == Slot(keying, Class(newPair.key), |buckets|)
      modifies this`contents, this`buckets, this`chains, this`nodes, this`numOfElements, bucketArray, newPair
      ensures Valid() && nodes == old(nodes) + {newPair} && numOfElements == old(numOfElements) + 1
      ensures contents == old(contents)[old(Class(newPair.key)) := old(Pair(newPair.key, newPair.value))]
    {
      hide TableOk, WellFormed, Represents, Agree;
      numOfElements := numOfElements + 1;
      Attach(b, newPair);
    }

    /** The automatic rehash after an insertion. */
    method GrowIfFull()
      requires Valid()
      modifies Repr()
      ensures Valid() && fresh(Repr() - old(Repr()))
      ensures contents == old(contents) && numOfElements == old(numOfElements) && Ratios() == old(Ratios())
      ensures if upperRehashThreshold > idealRatio
                 && numOfElements as real > PrimeSearch.Room(upperRehashThreshold, old(numOfBuckets))
              then Ideal() else numOfBuckets == old(numOfBuckets)
    {
      SizesAgree();
      RatioBounds(numOfElements, numOfBuckets, upperRehashThreshold);
      hide NpyDict.Valid, NpyDict.Ideal, PrimeSearch.Room;
      if upperRehashThreshold > idealRatio {
        var elementToBucketRatio := numOfElements as real / numOfBuckets as real;
        if elementToBucketRatio > upperRehashThreshold {
          Rehash(0);
        }
      }
    }

    method Put(key: K, value: V)
      requires Valid()
      modifies Repr()
      ensures Valid() && fresh(Repr() - old(Repr()))
      ensures contents == old(contents)[Class(key) := Pair(key, value)]
      ensures Surplus() == old(Surplus()) && Ratios() == old(Ratios())
      ensures if Class(key) !in old(contents) && upperRehashThreshold > idealRatio
                 && numOfElements as real > PrimeSearch.Room(upperRehashThreshold, old(numOfBuckets))
              then Ideal() else numOfBuckets == old(numOfBuckets)
    {
      hide NpyDict.Valid, NpyDict.Ideal, PrimeSearch.Room;
      var b, prev, pair;
      ghost var j;
      b, prev, pair, j := Locate(key);
      if pair != null {
        Overwrite(b, j, pair, key, value);
      } else {
        var newPair := new KVPair(key, value);
        Insert(b, newPair);
        GrowIfFull();
      }
    }

    /** A node less, and one less in the count. */
    method Delete(b: nat, ghost j: nat, prev: KVPair?<K, V>, pair: KVPair<K, V>)
      requires Valid() && b < |chains| && j < |chains[b]| && pair == chains[b][j]
      requires prev == if j == 0 then null else chains[b][j - 1]
      modifies this`contents, this`buckets, this`chains, this`nodes, this`numOfElements, bucketArray, prev
      ensures Valid() && nodes == old(nodes) - {pair} && numOfElements == old(numOfElements) - 1
      ensures contents == old(contents) - {old(Class(buckets[b][j].key))} && Surplus() == old(Surplus())
    {
      PairInMap(b, j);
      hide TableOk, WellFormed, Represents, Agree;
      Detach(b, j, prev, pair);
      numOfElements := numOfElements - 1;
    }

    lemma PairInMap(b: nat, j: nat)
      requires Valid() && b < |chains| && j < |chains[b]|
      ensures |chains| == |buckets| && |chains[b]| == |buckets[b]| && Class(buckets[b][j].key) in contents
    {
      StoredInMap(buckets, keying, contents, b, j);
    }

    /** The automatic rehash after a removal. */
    method ShrinkIfSparse()
      requires Valid()
      modifies Repr()
      ensures Valid() && fresh(Repr() - old(Repr()))
      ensures contents == old(contents) && numOfElements == old(numOfElements) && Ratios() == old(Ratios())
      ensures if lowerRehashThreshold > 0.0
                 && (numOfElements as real) < PrimeSearch.Room(lowerRehashThreshold, old(numOfBuckets))
              then Ideal() else numOfBuckets == old(numOfBuckets)
    {
      SizesAgree();
      RatioBounds(numOfElements, numOfBuckets, lowerRehashThreshold);
      hide NpyDict.Valid, NpyDict.Ideal, PrimeSearch.Room;
      if lowerRehashThreshold > 0.0 {
        var elementToBucketRatio := numOfElements as real / numOfBuckets as real;
        if elementToBucketRatio < lowerRehashThreshold {
          Rehash(0);
        }
      }
    }

    method Remove(key: K)
      requires Valid()
      modifies Repr()
      ensures Valid() && fresh(Repr() - old(Repr()))
      ensures contents == old(contents) - {Class(key)}
      ensures Surplus() == old(Surplus()) && Ratios() == old(Ratios())
      ensures if Class(key) in old(contents) && lowerRehashThreshold > 0.0
                 && (numOfElements as real) < PrimeSearch.Room(lowerRehashThreshold, old(numOfBuckets))
              then Ideal() else numOfBuckets == old(numOfBuckets)
    {
      hide NpyDict.Valid, NpyDict.Ideal, NpyDict.Surplus, NpyDict.Class, PrimeSearch.Room, Slot;
      var b, prev, pair;
      ghost var j;
      b, prev, pair, j := Locate(key);
      if pair != null {
        Delete(b, j, prev, pair);
        label deleted:
        ShrinkIfSparse();
        SameSurplus@deleted();
      }
    }

    twostate lemma SameSurplus()
      requires contents == old(contents) && numOfElements == old(numOfElements)
      ensures Surplus() == old(Surplus())
    {
    }

    /** A node that was taken out goes back under another key. */
    method Reinsert(b: nat, pairToIns: KVPair<K, V>, newKey: K)
      requires Valid() && pairToIns !in nodes && Class(newKey) !in contents && numOfElements > |contents|
      requires b == Slot(keying, Class(newKey), |buckets|)
      modifies this`contents, this`buckets, this`chains, this`nodes, bucketArray, pairToIns
      ensures Valid() && nodes == old(nodes) + {pairToIns}
      ensures contents == old(contents)[Class(newKey) := Pair(newKey, old(pairToIns.value))]
    {
      hide TableOk, WellFormed, Represents, Agree;
      pairToIns.key := newKey;
      Attach(b, pairToIns);
    }

    /** Move the value of `oldKey` to `newKey`, replacing what `newKey` held. The
        element count never changes, so it stays right exactly when the map does
        not shrink: when no other pair is displaced. */
    method Rekey(oldKey: K, newKey: K)
      requires Valid()
      modifies Repr()
      ensures Valid() && Repr() <= old(Repr())
      ensures contents == if Class(oldKey) !in old(contents) then old(contents)
                          else (old(contents) - {Class(oldKey)})
                               [Class(newKey) := Pair(newKey, old(contents)[Class(oldKey)].value)]
      ensures numOfElements == old(numOfElements)
      ensures numOfBuckets == old(numOfBuckets) && Ratios() == old(Ratios())
      ensures Surplus() == old(Surplus())
              <==> !(Class(oldKey) in old(contents) && Class(newKey) in old(contents) && Class(oldKey) != Class(newKey))
    {
      var b, prev, pair;
      ghost var j;
      hide NpyDict.Valid;
      b, prev, pair, j := Locate(oldKey);
      if pair != null {
        Detach(b, j, prev, pair);
        var pairToIns := pair;
        b, prev, pair, j := Locate(newKey);
        if pair != null {
          Overwrite(b, j, pair, newKey, pairToIns.value);
        } else {
          Reinsert(b, pairToIns, newKey);
        }
      }
    }

    method Rehash(numOfBuckets: int)
      requires Valid() && numOfBuckets >= 0
      modifies Repr()
      ensures Valid() && fresh(Repr() - old(Repr()))
      ensures contents == old(contents) && numOfElements == old(numOfElements)
      ensures numOfBuckets > 0 ==> this.numOfBuckets == numOfBuckets
      ensures Ratios() == old(Ratios())
      ensures numOfBuckets == 0 ==> Ideal()
    {
      hide PrimeSearch.PassesTrials, PrimeSearch.Room, TableOk, WellFormed, Represents, Agree;
      var n := numOfBuckets;
      if n == 0 {
        n := PrimeSearch.CalculateIdealNumOfBuckets(numOfElements, idealRatio);
      }
      if n == this.numOfBuckets {
        return;
      }
      Redistribute(n);
    }

    /** The table while buckets before `from` are being taken apart. */
    ghost predicate OldFrom(from: nat)
      reads Repr()
    {
      && TableOk(bucketArray, chains, buckets, gen, nodes, from)
      && numOfBuckets == bucketArray.Length
      && Agree(keycmp, hashFunction, keying)
    }

    /** `pair->next = newBucketArray[hashValue]; newBucketArray[hashValue] = pair;` for
        node `j` of bucket `i`: what is still to be moved is not disturbed. */
    method RelinkNode(i: nat, ghost j: nat, pair: KVPair<K, V>, hashValue: nat, newArray: array<KVPair?<K, V>>,
                    ghost newChains: seq<seq<KVPair<K, V>>>, ghost newBuckets: seq<Bucket<K, V>>)
      returns (ghost newChains': seq<seq<KVPair<K, V>>>, ghost newBuckets': seq<Bucket<K, V>>)
      requires OldFrom(i + 1) && i < |chains| == |buckets| && newArray != bucketArray
      requires TableOk(newArray, newChains, newBuckets, gen + 1, nodes, 0) && hashValue < newArray.Length
      requires Waiting(i, j) && j < |chains[i]| && pair == chains[i][j]
      modifies pair, newArray
      ensures OldFrom(i + 1) && Waiting(i, j + 1)
      ensures TableOk(newArray, newChains', newBuckets', gen + 1, nodes, 0)
      ensures newBuckets' == PushFront(newBuckets, hashValue, old(buckets[i][j]))
    {
      hide Agree, PushFront;
      assert NodeOk(chains[i], buckets[i], j, gen, i);
      newChains', newBuckets' := LinkFront(newArray, hashValue, pair, newChains, newBuckets, gen + 1, nodes);
      assert nodes + {pair} == nodes;
      forall j' | j + 1 <= j' < |chains[i]| ensures NodeOk(chains[i], buckets[i], j', gen, i) {
        assert old(NodeOk(chains[i], buckets[i], j', gen, i));
      }
      forall c | i + 1 <= c < |chains| ensures ChainOk(bucketArray[c], chains[c], buckets[c], gen, c) {
        forall k | 0 <= k < |chains[c]| ensures NodeOk(chains[c], buckets[c], k, gen, c) {
          assert old(NodeOk(chains[c], buckets[c], k, gen, c));
        }
      }
    }

    /** The nodes of bucket `i` from position `j` on are still linked as they were. */
    ghost predicate Waiting(i: nat, j: nat)
      requires i < |chains| == |buckets|
      reads this, nodes
    {
      && |chains[i]| == |buckets[i]|
      && (forall j' :: 0 <= j' < |chains[i]| ==> chains[i][j'] in nodes)
      && (forall a, b :: 0 <= a < b < |chains[i]| ==> chains[i][a] != chains[i][b])
      && forall j' :: j <= j' < |chains[i]| ==> NodeOk(chains[i], buckets[i], j', gen, i)
    }

    lemma WaitingAt(i: nat, j: nat)
      requires OldFrom(i + 1) && i < |chains| == |buckets| && Waiting(i, j) && j <= |chains[i]|
      ensures |chains[i]| == |buckets[i]|
      ensures j < |chains[i]| ==>
                var pair := chains[i][j];
                && pair in nodes && pair.next == NodeAt(chains[i], j + 1)
                && Pair(pair.key, pair.value) == buckets[i][j]
                && (forall a :: hashFunction(a) == keying.hash(keying.canon(a)))
    {
      assert j < |chains[i]| ==> NodeOk(chains[i], buckets[i], j, gen, i);
    }

    /** Bucket `i` is being moved: the nodes before position `j` are in the new table. */
    ghost predicate Moving(i: nat, j: nat, newArray: array<KVPair?<K, V>>, newChains: seq<seq<KVPair<K, V>>>,
                           newBuckets: seq<Bucket<K, V>>)
      reads Repr(), newArray
    {
      && OldFrom(i + 1) && i < |chains| == |buckets| && j <= |chains[i]| == |buckets[i]| && Waiting(i, j)
      && newArray != bucketArray && TableOk(newArray, newChains, newBuckets, gen + 1, nodes, 0)
      && |newBuckets| == newArray.Length > 0
    }

    lemma StartMoving(i: nat, newArray: array<KVPair?<K, V>>, newChains: seq<seq<KVPair<K, V>>>,
                      newBuckets: seq<Bucket<K, V>>)
      requires OldFrom(i) && i < |chains| && newArray != bucketArray
      requires TableOk(newArray, newChains, newBuckets, gen + 1, nodes, 0) && newArray.Length > 0
      ensures |chains| == |buckets| == bucketArray.Length == numOfBuckets
      ensures Moving(i, 0, newArray, newChains, newBuckets) && bucketArray[i] == NodeAt(chains[i], 0)
    {
      TableSize(newArray, newChains, newBuckets, gen + 1, nodes);
    }

    /** The body of the inner loop of `Rehash`. */
    method MoveNode(i: nat, ghost j: nat, pair: KVPair<K, V>, newArray: array<KVPair?<K, V>>,
                    ghost newChains: seq<seq<KVPair<K, V>>>, ghost newBuckets: seq<Bucket<K, V>>,
                    ghost rest: seq<Pair<K, V>>)
      returns (nextPair: KVPair?<K, V>, ghost newChains': seq<seq<KVPair<K, V>>>, ghost newBuckets': seq<Bucket<K, V>>)
      requires Moving(i, j, newArray, newChains, newBuckets) && j < |chains[i]| && pair == chains[i][j]
      modifies nodes, newArray
      ensures Moving(i, j + 1, newArray, newChains', newBuckets') && nextPair == NodeAt(chains[i], j + 1)
      ensures PushFrom(buckets[i], j + 1, rest, newBuckets') == PushFrom(buckets[i], j, rest, newBuckets)
    {
      hide TableOk, PushAll, NpyDict.PushFrom, NpyDict.Waiting, NpyDict.OldFrom;
      WaitingAt(i, j);
      nextPair := pair.next;
      var hashValue := hashFunction(pair.key) % newArray.Length;
      HashIsSlot(pair.key, newArray.Length);
      PushStep(buckets[i], j, rest, newBuckets);
      newChains', newBuckets' := RelinkNode(i, j, pair, hashValue, newArray, newChains, newBuckets);
    }

    /** Relink every node of bucket `i` into the new array. */
    method MoveBucket(i: nat, newArray: array<KVPair?<K, V>>, ghost newChains: seq<seq<KVPair<K, V>>>,
                      ghost newBuckets: seq<Bucket<K, V>>, ghost rest: seq<Pair<K, V>>)
      returns (ghost newChains': seq<seq<KVPair<K, V>>>, ghost newBuckets': seq<Bucket<K, V>>)
      requires OldFrom(i) && i < |chains| && newArray != bucketArray
      requires TableOk(newArray, newChains, newBuckets, gen + 1, nodes, 0) && newArray.Length > 0
      modifies nodes, newArray
      ensures OldFrom(i + 1)
      ensures TableOk(newArray, newChains', newBuckets', gen + 1, nodes, 0)
      ensures PushAll(rest, keying, newBuckets') == PushAll(buckets[i] + rest, keying, newBuckets)
    {
      hide TableOk, PushAll, NpyDict.PushFrom, NpyDict.Waiting, NpyDict.OldFrom;
      StartMoving(i, newArray, newChains, newBuckets);
      PushEnds(buckets[i], rest, newBuckets);
      newChains', newBuckets' := newChains, newBuckets;
      var pair := bucketArray[i];
      ghost var j := 0;
      while pair != null
        invariant Moving(i, j, newArray, newChains', newBuckets') && pair == NodeAt(chains[i], j)
        invariant PushFrom(buckets[i], j, rest, newBuckets') == PushFrom(buckets[i], 0, rest, newBuckets)
        decreases |chains[i]| - j
      {
        pair, newChains', newBuckets' := MoveNode(i, j, pair, newArray, newChains', newBuckets', rest);
        j := j + 1;
      }
      PushEnds(buckets[i], rest, newBuckets');
    }

    /** What becomes of the table when the pairs of `bucket` from `j` on, and then
        `rest`, are pushed. */
    ghost function PushFrom(bucket: Bucket<K, V>, j: nat, rest: seq<Pair<K, V>>, table: seq<Bucket<K, V>>)
      : seq<Bucket<K, V>>
      requires j <= |bucket| && |table| > 0
    {
      PushAll(bucket[j..] + rest, keying, table)
    }

    lemma PushStep(bucket: Bucket<K, V>, j: nat, rest: seq<Pair<K, V>>, table: seq<Bucket<K, V>>)
      requires j < |bucket| && |table| > 0
      ensures PushFrom(bucket, j, rest, table)
              == PushFrom(bucket, j + 1, rest, PushFront(table, Slot(keying, Class(bucket[j].key), |table|), bucket[j]))
    {
      var pairs := bucket[j..] + rest;
      assert pairs[0] == bucket[j] && pairs[1..] == bucket[j + 1..] + rest;
    }

    lemma PushEnds(bucket: Bucket<K, V>, rest: seq<Pair<K, V>>, table: seq<Bucket<K, V>>)
      requires |table| > 0
      ensures PushFrom(bucket, 0, rest, table) == PushAll(bucket + rest, keying, table)
      ensures PushFrom(bucket, |bucket|, rest, table) == PushAll(rest, keying, table)
    {
      hide PushAll;
      assert bucket[0..] + rest == bucket + rest && bucket[|bucket|..] + rest == rest;
    }

    lemma HashIsSlot(key: K, n: nat)
      requires (forall a :: hashFunction(a) == keying.hash(keying.canon(a))) && n > 0
      ensures hashFunction(key) % n == Slot(keying, Class(key), n)
    {
    }

    static lemma FlattenStep(table: seq<Bucket<K, V>>, i: nat)
      requires i < |table|
      ensures Flatten(table[i..]) == table[i] + Flatten(table[i + 1..])
    {
    }

    static lemma PushNothing(keying: Keying<K, C>, table: seq<Bucket<K, V>>)
      requires |table| > 0
      ensures PushAll(Flatten<K, V>([]), keying, table) == table
    {
    }

    /** An array of empty buckets. */
    static method NewBuckets(n: nat, ghost gen: int, ghost nodes: set<KVPair<K, V>>)
      returns (arr: array<KVPair?<K, V>>, ghost chains: seq<seq<KVPair<K, V>>>, ghost buckets: seq<Bucket<K, V>>)
      ensures fresh(arr) && arr.Length == n
      ensures TableOk(arr, chains, buckets, gen, nodes, 0)
      ensures buckets == Empty(n)
    {
      arr := new KVPair?<K, V>[n](_ => null);
      chains, buckets := seq(n, _ => []), Empty(n);
    }

    /** The two nested loops of `Rehash`. */
    method MoveAll(newArray: array<KVPair?<K, V>>, ghost chains0: seq<seq<KVPair<K, V>>>,
                   ghost buckets0: seq<Bucket<K, V>>)
      returns (ghost newChains: seq<seq<KVPair<K, V>>>, ghost newBuckets: seq<Bucket<K, V>>)
      requires OldFrom(0) && newArray != bucketArray && newArray.Length > 0
      requires TableOk(newArray, chains0, buckets0, gen + 1, nodes, 0)
      modifies nodes, newArray
      ensures TableOk(newArray, newChains, newBuckets, gen + 1, nodes, 0)
      ensures newBuckets == PushAll(Flatten(buckets), keying, buckets0)
    {
      hide ChainOk, PushAll, Flatten, Agree;
      newChains, newBuckets := chains0, buckets0;
      assert buckets[0..] == buckets;
      var i := 0;
      while i < numOfBuckets
        invariant i <= numOfBuckets == |buckets| && OldFrom(i) && |newBuckets| == newArray.Length
        invariant TableOk(newArray, newChains, newBuckets, gen + 1, nodes, 0)
        invariant PushAll(Flatten(buckets[i..]), keying, newBuckets) == PushAll(Flatten(buckets), keying, buckets0)
      {
        FlattenStep(buckets, i);
        newChains, newBuckets := MoveBucket(i, newArray, newChains, newBuckets, Flatten(buckets[i + 1..]));
        i := i + 1;
      }
      PushNothing(keying, newBuckets);
      assert buckets[i..] == [];
    }

    /** `hashTable->bucketArray = newBucketArray;` and the fields that go with it. */
    method Adopt(newArray: array<KVPair?<K, V>>, ghost newChains: seq<seq<KVPair<K, V>>>,
                 ghost newBuckets: seq<Bucket<K, V>>)
      requires TableOk(newArray, newChains, newBuckets, gen + 1, nodes, 0)
      requires WellFormed(newBuckets, keying) && Represents(newBuckets, keying, contents)
      requires idealRatio > 0.0 && Agree(keycmp, hashFunction, keying) && numOfElements >= |contents|
      modifies this`bucketArray, this`numOfBuckets, this`chains, this`buckets, this`gen
      ensures Valid() && bucketArray == newArray && numOfBuckets == newArray.Length
    {
      hide TableOk, WellFormed, Represents, Agree;
      bucketArray, numOfBuckets := newArray, newArray.Length;
      chains, buckets, gen := newChains, newBuckets, gen + 1;
    }

    method Redistribute(n: nat)
      requires Valid() && n > 0
      modifies Repr()
      ensures Valid() && bucketArray != old(bucketArray) && fresh(bucketArray) && nodes == old(nodes)
      ensures contents == old(contents) && numOfElements == old(numOfElements) && numOfBuckets == n
      ensures Ratios() == old(Ratios())
    {
      RehashRepresents(buckets, keying, contents, n);
      hide TableOk, WellFormed, Represents, Agree, PushAll, Flatten;
      var newArray;
      ghost var newChains, newBuckets;
      newArray, newChains, newBuckets := NewBuckets(n, gen + 1, nodes);
      newChains, newBuckets := MoveAll(newArray, newChains, newBuckets);
      Adopt(newArray, newChains, newBuckets);
    }

    method RemoveAll()
      requires Valid()
      modifies Repr()
      ensures Valid() && fresh(Repr() - old(Repr()))
      ensures contents == map[] && numOfElements == 0 && numOfBuckets == 5 && Ratios() == old(Ratios())
    {
      assert numOfBuckets > 0;
      hide WellFormed, Represents, Agree, ChainOk;
      var i := 0;
      while i < numOfBuckets
        modifies bucketArray, this`chains, this`buckets
        invariant i <= numOfBuckets == bucketArray.Length
        invariant TableOk(bucketArray, chains, buckets, gen, nodes, 0)
        invariant forall b :: 0 <= b < i ==> buckets[b] == []
      {
        EmptyBucket(i);
        i := i + 1;
      }
      numOfElements := 0;
      contents := map[];
      assert buckets == Empty(numOfBuckets);
      EmptyRepresents<K, V, C>(keying, numOfBuckets);
      Rehash(5);
    }

    static lemma EmptyRepresents<X, Y, Z(!new)>(keying: Keying<X, Z>, n: nat)
      requires n > 0
      ensures WellFormed(Empty<X, Y>(n), keying) && Represents(Empty<X, Y>(n), keying, map[])
    {
    }

    /** `bucketArray[i] = NULL;` once the pairs of the bucket are freed. */
    method EmptyBucket(i: nat)
      requires TableOk(bucketArray, chains, buckets, gen, nodes, 0) && i < bucketArray.Length
      modifies bucketArray, this`chains, this`buckets
      ensures TableOk(bucketArray, chains, buckets, gen, nodes, 0)
      ensures buckets == old(buckets)[i := []]
    {
      bucketArray[i] := null;
      chains, buckets := chains[i := []], buckets[i := []];
    }

    /** The table `NpyDict_Copy` returns: the fields of `orig` with another array. */
    constructor Copied(orig: NpyDict<K, V, C>, arr: array<KVPair?<K, V>>, ghost chains: seq<seq<KVPair<K, V>>>,
                       ghost buckets: seq<Bucket<K, V>>, ghost gen: int, ghost nodes: set<KVPair<K, V>>,
                       ghost contents: map<C, Pair<K, V>>)
      requires orig.Valid() && TableOk(arr, chains, buckets, gen, nodes, 0) && arr.Length == orig.numOfBuckets
      requires WellFormed(buckets, orig.keying) && Represents(buckets, orig.keying, contents)
      requires orig.numOfElements >= |contents|
      ensures Valid() && this.contents == contents && numOfElements == orig.numOfElements
      ensures bucketArray == arr && this.nodes == nodes && keying == orig.keying
      ensures numOfBuckets == orig.numOfBuckets && Ratios() == orig.Ratios()
      ensures keycmp == orig.keycmp && hashFunction == orig.hashFunction
    {
      hide TableOk, WellFormed, Represents, Agree;
      keycmp, hashFunction, keying := orig.keycmp, orig.hashFunction, orig.keying;
      numOfBuckets, numOfElements, bucketArray := orig.numOfBuckets, orig.numOfElements, arr;
      idealRatio, lowerRehashThreshold, upperRehashThreshold
        := orig.idealRatio, orig.lowerRehashThreshold, orig.upperRehashThreshold;
      this.chains, this.buckets, this.gen, this.nodes, this.contents := chains, buckets, gen, nodes, contents;
    }

    lemma CopyStep(bucket: Bucket<K, V>, j: nat, rest: seq<Pair<K, V>>, copyKey: K -> K, copyValue: V -> V,
                   table: seq<Bucket<K, V>>)
      requires j < |bucket| && |table| > 0 && Class(copyKey(bucket[j].key)) == Class(bucket[j].key)
      ensures PushAll(CopyPairs(bucket[j..] + rest, copyKey, copyValue), keying, table)
              == PushAll(CopyPairs(bucket[j + 1..] + rest, copyKey, copyValue), keying,
                         PushFront(table, Slot(keying, Class(bucket[j].key), |table|),
                                   CopyPair(bucket[j], copyKey, copyValue)))
    {
      var copies := CopyPairs(bucket[j..] + rest, copyKey, copyValue);
      assert copies[0] == CopyPair(bucket[j], copyKey, copyValue);
      assert copies[1..] == CopyPairs(bucket[j + 1..] + rest, copyKey, copyValue);
    }

    /** Copy the pairs of bucket `i` to the front of the same bucket of the copy. */
    method CopyBucket(i: nat, arr: array<KVPair?<K, V>>, ghost newChains: seq<seq<KVPair<K, V>>>,
                      ghost newBuckets: seq<Bucket<K, V>>, ghost newNodes: set<KVPair<K, V>>,
                      ghost rest: seq<Pair<K, V>>, copyKey: K -> K, copyValue: V -> V)
      returns (ghost newChains': seq<seq<KVPair<K, V>>>, ghost newBuckets': seq<Bucket<K, V>>,
               ghost newNodes': set<KVPair<K, V>>)
      requires Valid() && i < numOfBuckets && arr !in Repr() && arr.Length == numOfBuckets
      requires forall key :: Class(copyKey(key)) == Class(key)
      requires newNodes !! nodes && TableOk(arr, newChains, newBuckets, 0, newNodes, 0)
      modifies arr
      ensures Valid() && TableOk(arr, newChains', newBuckets', 0, newNodes', 0)
      ensures newNodes <= newNodes' && fresh(newNodes' - newNodes)
      ensures PushAll(CopyPairs(rest, copyKey, copyValue), keying, newBuckets')
              == PushAll(CopyPairs(buckets[i] + rest, copyKey, copyValue), keying, newBuckets)
    {
      hide WellFormed, Represents, Agree, PushAll, CopyPairs;
      newChains', newBuckets', newNodes' := newChains, newBuckets, newNodes;
      var pair := bucketArray[i];
      ghost var j := 0;
      ghost var bucket := buckets[i];
      while pair != null
        invariant j <= |chains[i]| && pair == NodeAt(chains[i], j) && Valid()
        invariant TableOk(arr, newChains', newBuckets', 0, newNodes', 0)
        invariant newNodes <= newNodes' && fresh(newNodes' - newNodes)
        invariant PushAll(CopyPairs(bucket[j..] + rest, copyKey, copyValue), keying, newBuckets')
                  == PushAll(CopyPairs(bucket + rest, copyKey, copyValue), keying, newBuckets)
        decreases |chains[i]| - j
      {
        assert NodeOk(chains[i], bucket, j, gen, i);
        InItsSlot(i, j);
        CopyStep(bucket, j, rest, copyKey, copyValue, newBuckets');
        var newEntry := new KVPair(copyKey(pair.key), copyValue(pair.value));
        newChains', newBuckets' := LinkFront(arr, i, newEntry, newChains', newBuckets', 0, newNodes');
        newNodes' := newNodes' + {newEntry};
        pair := pair.next;
        j := j + 1;
      }
      assert bucket[j..] + rest == rest;
    }

    lemma InItsSlot(b: nat, j: nat)
      requires WellFormed(buckets, keying) && b < |buckets| && j < |buckets[b]|
      ensures Slot(keying, Class(buckets[b][j].key), |buckets|) == b
    {
    }

    lemma SizesAgree()
      requires Valid()
      ensures numOfBuckets == |buckets| == |chains| == bucketArray.Length > 0 && idealRatio > 0.0
    {
    }

    static lemma TableSize<X, Y>(arr: array<KVPair?<X, Y>>, chains: seq<seq<KVPair<X, Y>>>, buckets: seq<Bucket<X, Y>>,
                                 gen: int, nodes: set<KVPair<X, Y>>)
      requires TableOk(arr, chains, buckets, gen, nodes, 0)
      ensures |chains| == |buckets| == arr.Length
    {
    }

    /** The loop of `NpyDict_Copy` over the buckets. */
    method CopyAll(arr: array<KVPair?<K, V>>, ghost chains0: seq<seq<KVPair<K, V>>>, ghost buckets0: seq<Bucket<K, V>>,
                   copyKey: K -> K, copyValue: V -> V)
      returns (ghost newChains: seq<seq<KVPair<K, V>>>, ghost newBuckets: seq<Bucket<K, V>>,
               ghost newNodes: set<KVPair<K, V>>)
      requires Valid() && arr !in Repr() && arr.Length == numOfBuckets
      requires forall key :: Class(copyKey(key)) == Class(key)
      requires TableOk(arr, chains0, buckets0, 0, {}, 0)
      modifies arr
      ensures Valid() && TableOk(arr, newChains, newBuckets, 0, newNodes, 0) && fresh(newNodes)
      ensures newBuckets == PushAll(CopyPairs(Flatten(buckets), copyKey, copyValue), keying, buckets0)
    {
      SizesAgree();
      TableSize(arr, chains0, buckets0, 0, {});
      hide NpyDict.Valid, TableOk, PushAll, Flatten, CopyRest, CopyPairs;
      CopyRestEnds(buckets, keying, copyKey, copyValue, buckets0);
      newChains, newBuckets, newNodes := chains0, buckets0, {};
      var i := 0;
      while i < numOfBuckets
        invariant i <= numOfBuckets && Valid() && fresh(newNodes)
        invariant TableOk(arr, newChains, newBuckets, 0, newNodes, 0)
        invariant CopyRest(buckets, i, keying, copyKey, copyValue, newBuckets)
                  == CopyRest(buckets, 0, keying, copyKey, copyValue, buckets0)
      {
        ghost var acc := newBuckets;
        SizesAgree();
        TableSize(arr, newChains, acc, 0, newNodes);
        newChains, newBuckets, newNodes :=
          CopyBucket(i, arr, newChains, newBuckets, newNodes, Flatten(buckets[i + 1..]), copyKey, copyValue);
        TableSize(arr, newChains, newBuckets, 0, newNodes);
        CopyRestStep(buckets, i, keying, copyKey, copyValue, acc, newBuckets);
        i := i + 1;
      }
      SizesAgree();
      CopyRestEnds(buckets, keying, copyKey, copyValue, newBuckets);
    }

    /** The new array with the copies in it. */
    method CopyBuckets(copyKey: K -> K, copyValue: V -> V)
      returns (arr: array<KVPair?<K, V>>, ghost newChains: seq<seq<KVPair<K, V>>>,
               ghost newBuckets: seq<Bucket<K, V>>, ghost newNodes: set<KVPair<K, V>>)
      requires Valid() && forall key :: Class(copyKey(key)) == Class(key)
      ensures Valid() && fresh(arr) && fresh(newNodes) && arr.Length == numOfBuckets == |buckets| > 0
      ensures TableOk(arr, newChains, newBuckets, 0, newNodes, 0)
      ensures newBuckets == PushAll(CopyPairs(Flatten(buckets), copyKey, copyValue), keying, Empty(|buckets|))
    {
      SizesAgree();
      hide WellFormed, Represents, Agree, TableOk, PushAll, Flatten, CopyPairs;
      arr, newChains, newBuckets := NewBuckets(numOfBuckets, 0, {});
      newChains, newBuckets, newNodes := CopyAll(arr, newChains, newBuckets, copyKey, copyValue);
    }

    lemma CopyStandsFor(copyKey: K -> K, copyValue: V -> V)
      requires Valid() && forall key :: Class(copyKey(key)) == Class(key)
      ensures var t := PushAll(CopyPairs(Flatten(buckets), copyKey, copyValue), keying, Empty(|buckets|));
              WellFormed(t, keying) && Represents(t, keying, CopyMap(contents, copyKey, copyValue))
      ensures |CopyMap(contents, copyKey, copyValue)| == |contents| <= numOfElements
    {
      hide TableOk, WellFormed, Represents, PushAll, Flatten;
      CopyRepresents(buckets, keying, contents, copyKey, copyValue);
      CopyMapSize(contents, copyKey, copyValue);
    }

    /** A copy made of fresh nodes; this table is left as it is. */
    method Copy(copyKey: K -> K, copyValue: V -> V) returns (copy: NpyDict<K, V, C>)
      requires Valid() && forall key :: Class(copyKey(key)) == Class(key)
      ensures Valid() && copy.Valid() && fresh(copy.Repr())
      ensures copy.contents == CopyMap(contents, copyKey, copyValue)
      ensures copy.Surplus() == Surplus() && copy.numOfBuckets == numOfBuckets && copy.Ratios() == Ratios()
      ensures copy.keycmp == keycmp && copy.hashFunction == hashFunction
    {
      CopyStandsFor(copyKey, copyValue);
      SizesAgree();
      hide WellFormed, Represents, Agree, TableOk, PushAll, Flatten, CopyPairs;
      var arr;
      ghost var newChains, newBuckets, newNodes;
      arr, newChains, newBuckets, newNodes := CopyBuckets(copyKey, copyValue);
      copy := new NpyDict.Copied(this, arr, newChains, newBuckets, 0, newNodes, CopyMap(contents, copyKey, copyValue));
    }
  }

  /** The cursor of `NpyDict_IterInit` and `NpyDict_IterNext`. */
  class DictIter<K(!new), V, C(!new)> {
    var bucket: int
    var element: KVPair?<K, V>
    ghost var index: nat
    /** How many pairs have been returned. */
    ghost var yielded: nat

    /** The cursor stands on flat position `n`, or past the end of its bucket
        with `n` positions behind it. */
    ghost predicate At(dict: NpyDict<K, V, C>, n: nat)
      reads this`bucket, this`element, this`index, dict
    {
      && -1 <= bucket < |dict.buckets| == |dict.chains|
      && (element != null ==> bucket >= 0 && index < |dict.chains[bucket]|
                              && element == dict.chains[bucket][index] && n == Start(dict.buckets, bucket) + index)
      && (element == null ==> n == Start(dict.buckets, bucket + 1))
    }

    ghost predicate Valid(dict: NpyDict<K, V, C>)
      reads this, dict, dict.Repr()
    {
      dict.Valid() && if element == null then At(dict, yielded) else yielded > 0 && At(dict, yielded - 1)
    }

    lemma HeadOf(dict: NpyDict<K, V, C>, b: nat)
      requires dict.Valid() && b < |dict.buckets|
      ensures |dict.chains| == |dict.buckets| == dict.bucketArray.Length == dict.numOfBuckets
      ensures dict.bucketArray[b] == NodeAt(dict.chains[b], 0) && |dict.chains[b]| == |dict.buckets[b]|
    {
    }

    lemma NextOf(dict: NpyDict<K, V, C>, b: nat, j: nat)
      requires dict.Valid() && b < |dict.chains| && j < |dict.chains[b]|
      ensures |dict.chains| == |dict.buckets| && |dict.chains[b]| == |dict.buckets[b]|
      ensures dict.chains[b][j].next == NodeAt(dict.chains[b], j + 1)
      ensures Pair(dict.chains[b][j].key, dict.chains[b][j].value) == dict.buckets[b][j]
    {
      assert NodeOk(dict.chains[b], dict.buckets[b], j, dict.gen, b);
    }

    constructor IterInit(ghost dict: NpyDict<K, V, C>)
      requires dict.Valid()
      ensures Valid(dict) && yielded == 0
    {
      bucket, element, yielded := -1, null, 0;
    }

    /** Leave the node returned last. */
    method Leave(dict: NpyDict<K, V, C>)
      requires Valid(dict)
      modifies this`element, this`index
      ensures dict.Valid() && At(dict, yielded)
    {
      if element != null {
        NextOf(dict, bucket, index);
        hide TableOk, WellFormed, Represents, NpyDict.Agree;
        element := element.next;
        index := index + 1;
      }
    }

    /** Move on to the next bucket that holds a node. */
    method SkipEmpty(dict: NpyDict<K, V, C>)
      requires dict.Valid() && At(dict, yielded)
      modifies this`element, this`index, this`bucket
      ensures dict.Valid() && At(dict, yielded)
      ensures element == null ==> bucket == |dict.buckets| - 1
    {
      HeadOf(dict, 0);
      hide TableOk, WellFormed, Represents, NpyDict.Agree;
      while element == null && bucket < dict.numOfBuckets - 1
        invariant At(dict, yielded)
      {
        HeadOf(dict, bucket + 1);
        bucket := bucket + 1;
        element := dict.bucketArray[bucket];
        index := 0;
      }
    }

    lemma FlatPosition(dict: NpyDict<K, V, C>, n: nat)
      requires dict.Valid() && At(dict, n)
      ensures element != null ==>
                n < |Flatten(dict.buckets)| && Flatten(dict.buckets)[n] == Pair(element.key, element.value)
      ensures element == null && bucket == |dict.buckets| - 1 ==> n == |Flatten(dict.buckets)|
    {
      if element != null {
        NextOf(dict, bucket, index);
        FlattenIndex(dict.buckets, bucket, index);
      } else {
        FlattenAt(dict.buckets, bucket + 1);
      }
    }

    /** The next pair of the flat list, until the list is used up. */
    method IterNext(dict: NpyDict<K, V, C>) returns (r: Option<Pair<K, V>>)
      requires Valid(dict)
      modifies this
      ensures Valid(dict)
      ensures old(yielded) <= |Flatten(dict.buckets)|
      ensures old(yielded) < |Flatten(dict.buckets)| ==>
                r == Some(Flatten(dict.buckets)[old(yielded)]) && yielded == old(yielded) + 1
      ensures old(yielded) == |Flatten(dict.buckets)| ==> r == None && yielded == old(yielded)
    {
      hide DictIter.At, NpyDict.Valid, Flatten;
      Leave(dict);
      SkipEmpty(dict);
      FlatPosition(dict, yielded);
      assert (this as object) !in dict.Repr();
      if element == null {
        return None;
      }
      yielded := yielded + 1;
      return Some(Pair(element.key, element.value));
    }
  }

  /** A full pass over an unmodified table, as its clients write it: every stored
      pair comes exactly once, and there are as many as the map has entries. */
  method CollectAll<K(!new), V, C(!new)>(dict: NpyDict<K, V, C>) returns (pairs: seq<Pair<K, V>>)
    requires dict.Valid()
    ensures pairs == Flatten(dict.buckets)
    ensures Enumerates(pairs, dict.keying, dict.contents)
  {
    hide NpyDict.Valid, Enumerates, Flatten, DictIter.At, DictIter.Valid;
    dict.FlatIsContents();
    ghost var all := Flatten(dict.buckets);
    var iter := new DictIter<K, V, C>.IterInit(dict);
    pairs := [];
    while true
      invariant iter.Valid(dict) && iter.yielded == |pairs| <= |all| && pairs == all[..|pairs|]
      decreases |all| - |pairs|
    {
      var next := iter.IterNext(dict);
      if next.None? {
        break;
      }
      PrefixGrows(all, |pairs|);
      pairs := pairs + [next.value];
    }
    assert all[..|all|] == all;
  }

  lemma PrefixGrows<P>(s: seq<P>, n: nat)
    requires n < |s|
    ensures s[..n] + [s[n]] == s[..n + 1]
  {
  }

  /** A table of integers compared by value. */
  method IntTable() returns (dict: NpyDict<int, int, int>)
    ensures dict.Valid() && fresh(dict.Repr()) && dict.contents == map[] && dict.Surplus() == 0
    ensures dict.Class(1) == 1 && dict.Class(2) == 2
  {
    hide TableOk, WellFormed, Represents;
    var hash: int -> nat := a => if a < 0 then -a else a;
    dict := new NpyDict.CreateTable(7, (a, b) => a - b, hash, Keying(a => a, hash));
  }

  /** Rekeying onto a key in use: one entry is left, but the count stays at two. */
  method RekeyOntoUsedKey() returns (dict: NpyDict<int, int, int>)
    ensures dict.contents == map[2 := Pair(2, 10)] && dict.numOfElements == 2
  {
    hide NpyDict.Valid, NpyDict.Class;
    dict := IntTable();
    dict.Put(1, 10);
    dict.Put(2, 20);
    dict.Rekey(1, 2);
    assert dict.contents == map[2 := Pair(2, 10)];
  }
}
