/** The chained hash map and its iterator. A chain is the sequence of its pairs, and a node on a
    chain is what is left of the chain from there on. */
module HashMap {
  import opened Options

  datatype Pair<K, V> = Pair(key: K, value: V)

  /** The position of the key in a chain, the length of the chain when it is not there. */
  function PositionOf<K(==), V>(chain: seq<Pair<K, V>>, k: K): (i: nat)
    ensures i <= |chain| && (i < |chain| ==> chain[i].key == k)
    ensures forall j | 0 <= j < i :: chain[j].key != k
  {
    if chain == [] || chain[0].key == k then 0 else 1 + PositionOf(chain[1..], k)
  }

  function Lookup<K(==), V>(chain: seq<Pair<K, V>>, k: K): Option<V> {
    var i := PositionOf(chain, k);
    if i < |chain| then Some(chain[i].value) else None
  }

  lemma PositionIs<K, V>(chain: seq<Pair<K, V>>, k: K, i: nat)
    requires i <= |chain| && (i < |chain| ==> chain[i].key == k)
    requires forall j | 0 <= j < i :: chain[j].key != k
    ensures PositionOf(chain, k) == i
  {
  }

  function Flatten<K, V>(lists: seq<seq<Pair<K, V>>>): seq<Pair<K, V>> {
    if lists == [] then [] else lists[0] + Flatten(lists[1..])
  }

  class HashMap<K(==, !new), V> {
    const size: nat
    const hash: K -> nat
    var lists: seq<seq<Pair<K, V>>>

    function Bucket(k: K): nat
      requires size > 0
    {
      hash(k) % size
    }

    /** Every pair is in the bucket of its key, and no bucket has a key twice. */
    ghost predicate Valid()
      reads this
    {
      && |lists| == size > 0
      && (forall b, i | 0 <= b < size && 0 <= i < |lists[b]| :: hash(lists[b][i].key) % size == b)
      && (forall b, i, j | 0 <= b < size && 0 <= i < j < |lists[b]| :: lists[b][i].key != lists[b][j].key)
    }

    /** The abstract value: what the map holds for a key. */
    ghost function Get(k: K): Option<V>
      requires Valid()
      reads this
    {
      Lookup(lists[Bucket(k)], k)
    }

    // hm_create
    constructor (n: nat, h: K -> nat)
      requires n > 0
      ensures Valid() && forall k :: Get(k) == None
      ensures size == n && hash == h && Flatten(lists) == []
    {
      size, hash := n, h;
      lists := seq(n, _ => []);
      new;
      EmptyFlatten(lists);
    }

    // The walk along a chain that hm_store and hm_get have in common.
    method Walk(k: K) returns (i: nat)
      requires Valid()
      ensures i == PositionOf(lists[Bucket(k)], k)
    {
      i := 0;
      var chain := lists[Bucket(k)];
      while i < |chain| && chain[i].key != k
        invariant i <= |chain| && forall j | 0 <= j < i :: chain[j].key != k
      {
        i := i + 1;
      }
      PositionIs(chain, k, i);
    }

    // hm_store
    method Store(k: K, v: V) returns (r: int)
      requires Valid()
      modifies this
      ensures Valid()
      ensures r == if old(Get(k)) == None then 1 else 0
      ensures r == 0 ==> lists == old(lists)
      ensures forall x | x != k :: Get(x) == old(Get(x))
      ensures Get(k) == if r == 1 then Some(v) else old(Get(k))
    {
      var b := Bucket(k);
      var i := Walk(k);
      if i < |lists[b]| {
        return 0;
      }
      ghost var before := lists[b];
      forall x ensures Lookup(before + [Pair(k, v)], x) == if x == k then Some(v) else Lookup(before, x) {
        LookupAppend(before, k, v, x);
      }
      lists := lists[b := lists[b] + [Pair(k, v)]];
      r := 1;
    }

    // hm_get; the pair is returned by its place, for the caller may write to its value.
    method Find(k: K) returns (place: Option<nat>)
      requires Valid()
      ensures place == if Get(k) == None then None else Some(PositionOf(lists[Bucket(k)], k))
      ensures place.Some? ==> place.value < |lists[Bucket(k)]| && Get(k) == Some(lists[Bucket(k)][place.value].value)
    {
      var i := Walk(k);
      if i < |lists[Bucket(k)]| {
        place := Some(i);
      } else {
        place := None;
      }
    }

    // A write through the value pointer of a pair that hm_get has returned.
    method Overwrite(k: K, i: nat, v: V)
      requires Valid() && i < |lists[Bucket(k)]| && lists[Bucket(k)][i].key == k
      modifies this
      ensures Valid() && Get(k) == Some(v) && forall x | x != k :: Get(x) == old(Get(x))
    {
      var b := Bucket(k);
      ghost var before, after := lists[b], lists[b][i := Pair(k, v)];
      lists := lists[b := lists[b][i := Pair(k, v)]];
      assert lists[b] == after;
      forall x ensures Lookup(lists[b], x) == if x == k then Some(v) else Lookup(before, x) {
        LookupUpdate(before, i, k, v, x);
      }
    }
  }

  lemma EmptyFlatten<K, V>(lists: seq<seq<Pair<K, V>>>)
    requires forall b | 0 <= b < |lists| :: lists[b] == []
    ensures Flatten(lists) == []
  {
  }

  lemma LookupAppend<K, V>(chain: seq<Pair<K, V>>, k: K, v: V, x: K)
    requires PositionOf(chain, k) == |chain|
    ensures Lookup(chain + [Pair(k, v)], x) == if x == k then Some(v) else Lookup(chain, x)
  {
    var c, i := chain + [Pair(k, v)], PositionOf(chain, x);
    PositionIs(c, x, if x == k || i < |chain| then i else i + 1);
  }

  lemma LookupUpdate<K, V>(chain: seq<Pair<K, V>>, i: nat, k: K, v: V, x: K)
    requires i < |chain| && chain[i].key == k
    requires forall j, l | 0 <= j < l < |chain| :: chain[j].key != chain[l].key
    ensures Lookup(chain[i := Pair(k, v)], x) == if x == k then Some(v) else Lookup(chain, x)
  {
    PositionIs(chain[i := Pair(k, v)], x, PositionOf(chain, x));
  }

  // ----- The iterator -----

  class Iterator<K(==, !new), V> {
    const hm: HashMap<K, V>
    var indexNo: int
    // The current node, by its position on chain indexNo; None for NULL.
    var currentNode: Option<nat>

    ghost predicate Valid()
      reads this, hm
    {
      && |hm.lists| == hm.size > 0 && -1 <= indexNo < hm.size
      && (currentNode.Some? ==> indexNo >= 0 && currentNode.value < |hm.lists[indexNo]|)
    }

    /** How many pairs the iterator has given; they come in the order of Flatten. */
    ghost function Given(): nat
      requires Valid()
      reads this, hm
    {
      if currentNode == None then Start(hm.lists, indexNo + 1) else Start(hm.lists, indexNo) + currentNode.value + 1
    }

    // hm_create_iterator
    constructor (m: HashMap<K, V>)
      requires |m.lists| == m.size > 0
      ensures Valid() && hm == m && Given() == 0
    {
      hm, indexNo, currentNode := m, -1, None;
    }

    // hmi_get: the current pair, or else the first of the next non-empty chain.
    method Get() returns (r: Option<Pair<K, V>>)
      requires Valid()
      modifies this
      ensures Valid()
      ensures old(currentNode).Some? ==>
                && indexNo == old(indexNo) && currentNode == old(currentNode)
                && r == Some(hm.lists[indexNo][currentNode.value])
      ensures old(currentNode) == None ==> IsNext(hm.lists, old(Given()), r, Given())
      decreases hm.size - indexNo
    {
      if currentNode == None {
        if indexNo == hm.size - 1 {
          EndOfFlatten(hm.lists);
          return None;
        }
        indexNo := indexNo + 1;
        if hm.lists[indexNo] == [] {
          r := Get();
        } else {
          FlattenAt(hm.lists, indexNo, 0);
          currentNode := Some(0);
          r := Get();
        }
      } else {
        r := Some(hm.lists[indexNo][currentNode.value]);
      }
    }

    // hmi_get_next: every pair once, and then NULL for ever.
    method GetNext() returns (r: Option<Pair<K, V>>)
      requires Valid()
      modifies this
      ensures Valid()
      ensures IsNext(hm.lists, old(Given()), r, Given())
    {
      if currentNode == None {
        if indexNo == hm.size - 1 {
          EndOfFlatten(hm.lists);
          return None;
        }
        r := Get();
      } else {
        var p := currentNode.value + 1;
        if p < |hm.lists[indexNo]| {
          FlattenAt(hm.lists, indexNo, p);
          currentNode := Some(p);
        } else {
          currentNode := None;
        }
        r := Get();
      }
    }
  }

  /** How many pairs the first b chains have. */
  function Start<K, V>(lists: seq<seq<Pair<K, V>>>, b: nat): nat
    requires b <= |lists|
  {
    if b == 0 then 0 else Start(lists, b - 1) + |lists[b - 1]|
  }

  /** After n pairs the next one is r, if there is one more, and then m pairs have been given. */
  ghost predicate IsNext<K, V>(lists: seq<seq<Pair<K, V>>>, n: nat, r: Option<Pair<K, V>>, m: nat) {
    if n < |Flatten(lists)| then r == Some(Flatten(lists)[n]) && m == n + 1 else r == None && m == n
  }

  lemma {:induction false} StartTail<K, V>(lists: seq<seq<Pair<K, V>>>, b: nat)
    requires 0 < b <= |lists|
    ensures Start(lists, b) == |lists[0]| + Start(lists[1..], b - 1)
  {
    if b > 1 { StartTail(lists, b - 1); }
  }

  lemma {:induction false} FlattenAt<K, V>(lists: seq<seq<Pair<K, V>>>, b: nat, i: nat)
    requires b < |lists| && i < |lists[b]|
    ensures Start(lists, b) + i < |Flatten(lists)| && Flatten(lists)[Start(lists, b) + i] == lists[b][i]
  {
    if b > 0 {
      StartTail(lists, b);
      FlattenAt(lists[1..], b - 1, i);
    }
  }

  lemma {:induction false} EndOfFlatten<K, V>(lists: seq<seq<Pair<K, V>>>)
    ensures Start(lists, |lists|) == |Flatten(lists)|
  {
    if lists != [] {
      StartTail(lists, |lists|);
      EndOfFlatten(lists[1..]);
    }
  }

  // ----- The pairs of the map, each once -----

  lemma {:induction false} FlattenMember<K, V>(lists: seq<seq<Pair<K, V>>>, p: Pair<K, V>)
    ensures p in Flatten(lists) <==> exists b :: 0 <= b < |lists| && p in lists[b]
  {
    if lists != [] {
      FlattenMember(lists[1..], p);
      if b :| 0 <= b < |lists| && p in lists[b] {
        if b > 0 { assert p in lists[1..][b - 1]; }
      }
      if c :| 0 <= c < |lists[1..]| && p in lists[1..][c] {
        assert p in lists[c + 1];
      }
    }
  }

  ghost predicate DistinctKeys<K, V>(c: seq<Pair<K, V>>) {
    forall i, j | 0 <= i < j < |c| :: c[i].key != c[j].key
  }

  lemma {:induction false} FlattenDistinct<K(!new), V>(lists: seq<seq<Pair<K, V>>>, bucket: K -> nat, base: nat)
    requires forall b, i | 0 <= b < |lists| && 0 <= i < |lists[b]| :: bucket(lists[b][i].key) == base + b
    requires forall b | 0 <= b < |lists| :: DistinctKeys(lists[b])
    ensures DistinctKeys(Flatten(lists))
    ensures forall p | p in Flatten(lists) :: bucket(p.key) >= base
  {
    if lists != [] {
      var rest := Flatten(lists[1..]);
      FlattenDistinct(lists[1..], bucket, base + 1);
      forall i, j | 0 <= i < j < |lists[0] + rest| ensures (lists[0] + rest)[i].key != (lists[0] + rest)[j].key {
        if i < |lists[0]| <= j { assert rest[j - |lists[0]|] in rest; }
      }
    }
  }

  /** The pairs the iterator gives: every key the map holds once, with its value. */
  lemma PairsAreContents<K(!new), V>(m: HashMap<K, V>)
    requires m.Valid()
    ensures DistinctKeys(Flatten(m.lists))
    ensures forall k, v :: Pair(k, v) in Flatten(m.lists) <==> m.Get(k) == Some(v)
  {
    FlattenDistinct(m.lists, (k: K) => if m.size > 0 then m.Bucket(k) else 0, 0);
    forall k, v ensures Pair(k, v) in Flatten(m.lists) <==> m.Get(k) == Some(v) {
      var b := m.Bucket(k);
      FlattenMember(m.lists, Pair(k, v));
      if c :| 0 <= c < m.size && Pair(k, v) in m.lists[c] {
        var i :| 0 <= i < |m.lists[c]| && m.lists[c][i] == Pair(k, v);
        assert c == b;
        PositionIs(m.lists[b], k, i);
      }
      if m.Get(k) == Some(v) {
        assert m.lists[b][PositionOf(m.lists[b], k)] == Pair(k, v);
      }
    }
  }
}
