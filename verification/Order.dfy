/** Comparators, as the sorted list and its callers use them: a function that
    answers -1, 0 or 1, and whose answers form a total preorder. */
module Order {

  ghost predicate Lawful<D>(cmp: (D, D) -> int, a: D, b: D, c: D) {
    && -1 <= cmp(a, b) <= 1
    && cmp(a, b) == -cmp(b, a)
    && (cmp(a, b) >= 0 && cmp(b, c) >= 0 ==> cmp(a, c) >= 0)
  }

  ghost predicate IsComparator<D(!new)>(cmp: (D, D) -> int) {
    forall a, b, c :: Lawful(cmp, a, b, c)
  }

  lemma Antisymmetric<D(!new)>(cmp: (D, D) -> int, a: D, b: D)
    requires IsComparator(cmp)
    ensures -1 <= cmp(a, b) <= 1 && cmp(a, b) == -cmp(b, a)
    ensures cmp(a, a) == 0
  {
    assert Lawful(cmp, a, b, a) && Lawful(cmp, a, a, a);
  }

  /** A strict step followed or preceded by a weak one is strict. */
  lemma StrictTransitive<D(!new)>(cmp: (D, D) -> int, a: D, b: D, c: D)
    requires IsComparator(cmp)
    ensures cmp(a, b) > 0 && cmp(b, c) >= 0 ==> cmp(a, c) > 0
    ensures cmp(a, b) >= 0 && cmp(b, c) > 0 ==> cmp(a, c) > 0
  {
    assert Lawful(cmp, a, b, c) && Lawful(cmp, b, c, a) && Lawful(cmp, c, a, b);
  }

  /** Strictly descending from each item to the next, hence with no two equal items. */
  ghost predicate Descending<D>(cmp: (D, D) -> int, items: seq<D>) {
    forall i, j :: 0 <= i < j < |items| ==> cmp(items[i], items[j]) > 0
  }

  /** The number of leading items greater than d: where d belongs. */
  function Rank<D>(cmp: (D, D) -> int, items: seq<D>, d: D): (k: nat)
    ensures k <= |items|
    ensures forall i :: 0 <= i < k ==> cmp(items[i], d) > 0
    ensures k < |items| ==> cmp(items[k], d) <= 0
  {
    if items == [] || cmp(items[0], d) <= 0 then 0 else 1 + Rank(cmp, items[1..], d)
  }

  lemma {:induction false} RankIs<D>(cmp: (D, D) -> int, items: seq<D>, d: D, k: nat)
    requires k <= |items| && forall i :: 0 <= i < k ==> cmp(items[i], d) > 0
    requires k < |items| ==> cmp(items[k], d) <= 0
    ensures Rank(cmp, items, d) == k
  {
    if k > 0 { RankIs(cmp, items[1..], d, k - 1); }
  }

  ghost predicate Member<D>(cmp: (D, D) -> int, items: seq<D>, d: D) {
    exists i :: 0 <= i < |items| && cmp(items[i], d) == 0
  }

  /** In a descending sequence an equal item can only stand at the rank of d, and every item
      behind the rank is smaller than d. */
  lemma RankLocates<D(!new)>(cmp: (D, D) -> int, items: seq<D>, d: D)
    requires IsComparator(cmp) && Descending(cmp, items)
    ensures var k := Rank(cmp, items, d);
            && (Member(cmp, items, d) <==> k < |items| && cmp(items[k], d) == 0)
            && (forall i :: k < i < |items| ==> cmp(items[i], d) < 0)
            && (k < |items| && cmp(items[k], d) != 0 ==> cmp(d, items[k]) > 0)
            && (forall i :: k < i < |items| ==> cmp(d, items[i]) > 0)
  {
    var k := Rank(cmp, items, d);
    if k < |items| { Antisymmetric(cmp, items[k], d); }
    forall i | k < i < |items| ensures cmp(d, items[i]) > 0 && cmp(items[i], d) < 0 {
      StrictTransitive(cmp, d, items[k], items[i]);
      Antisymmetric(cmp, items[i], d);
    }
  }

  /** An equal item that no equal item precedes stands at the rank of d. */
  lemma EqualIsAtRank<D(!new)>(cmp: (D, D) -> int, items: seq<D>, d: D, k: nat)
    requires IsComparator(cmp) && Descending(cmp, items)
    requires k < |items| && cmp(items[k], d) == 0
    ensures Rank(cmp, items, d) == k
  {
    forall i | 0 <= i < k ensures cmp(items[i], d) > 0 {
      StrictTransitive(cmp, items[i], items[k], d);
    }
    RankIs(cmp, items, d, k);
  }

  /** The sequence with d put in its place, unless an equal item is there already. */
  function Inserted<D>(cmp: (D, D) -> int, items: seq<D>, d: D): seq<D> {
    var k := Rank(cmp, items, d);
    if k < |items| && cmp(items[k], d) == 0 then items else items[..k] + [d] + items[k..]
  }

  /** The sequence without the item equal to d, if there is one. */
  ghost function Removed<D>(cmp: (D, D) -> int, items: seq<D>, d: D): seq<D> {
    var k := Rank(cmp, items, d);
    if k < |items| && cmp(items[k], d) == 0 then items[..k] + items[k + 1..] else items
  }

  /** Insertion adds exactly d, keeps the order, and does nothing exactly when an equal item
      is present. */
  lemma InsertedIsSetInsertion<D(!new)>(cmp: (D, D) -> int, items: seq<D>, d: D)
    requires IsComparator(cmp) && Descending(cmp, items)
    ensures Descending(cmp, Inserted(cmp, items, d))
    ensures Member(cmp, items, d) ==> Inserted(cmp, items, d) == items
    ensures !Member(cmp, items, d) ==> multiset(Inserted(cmp, items, d)) == multiset(items) + multiset{d}
  {
    RankLocates(cmp, items, d);
    var k := Rank(cmp, items, d);
    if !Member(cmp, items, d) {
      SpliceMultiset(items, k, d);
      InsertedDescends(cmp, items, d, k);
      assert Inserted(cmp, items, d) == items[..k] + [d] + items[k..];
    }
  }

  lemma SpliceMultiset<D>(items: seq<D>, k: nat, d: D)
    requires k <= |items|
    ensures multiset(items[..k] + [d] + items[k..]) == multiset(items) + multiset{d}
  {
    assert items == items[..k] + items[k..];
  }

  lemma InsertedDescends<D>(cmp: (D, D) -> int, items: seq<D>, d: D, k: nat)
    requires Descending(cmp, items) && k <= |items|
    requires forall i :: 0 <= i < k ==> cmp(items[i], d) > 0
    requires forall i :: k <= i < |items| ==> cmp(d, items[i]) > 0
    ensures Descending(cmp, items[..k] + [d] + items[k..])
  {
    var r := items[..k] + [d] + items[k..];
    forall i, j | 0 <= i < j < |r| ensures cmp(r[i], r[j]) > 0 {
      assert i < k ==> r[i] == items[i];
      assert j > k ==> r[j] == items[j - 1];
      assert j < k ==> r[j] == items[j];
      assert i > k ==> r[i] == items[i - 1];
    }
  }

  /** Removal takes out exactly the item equal to d and keeps the order. */
  lemma RemovedIsSetRemoval<D(!new)>(cmp: (D, D) -> int, items: seq<D>, d: D)
    requires IsComparator(cmp) && Descending(cmp, items)
    ensures Descending(cmp, Removed(cmp, items, d))
    ensures forall x :: x in Removed(cmp, items, d) <==> x in items && cmp(x, d) != 0
  {
    RankLocates(cmp, items, d);
    var k := Rank(cmp, items, d);
    if Member(cmp, items, d) {
      RemovedDescends(cmp, items, k);
      assert items == items[..k] + [items[k]] + items[k + 1..];
    }
  }

  lemma RemovedDescends<D>(cmp: (D, D) -> int, items: seq<D>, k: nat)
    requires Descending(cmp, items) && k < |items|
    ensures Descending(cmp, items[..k] + items[k + 1..])
  {
    var r := items[..k] + items[k + 1..];
    forall i, j | 0 <= i < j < |r| ensures cmp(r[i], r[j]) > 0 {
      assert r[i] == items[if i < k then i else i + 1];
      assert r[j] == items[if j < k then j else j + 1];
    }
  }

  /** A descending sequence is determined by its set of items. */
  lemma {:induction false} DescendingUnique<D(!new)>(cmp: (D, D) -> int, s: seq<D>, t: seq<D>)
    requires IsComparator(cmp) && Descending(cmp, s) && Descending(cmp, t)
    requires forall x :: x in s <==> x in t
    ensures s == t
  {
    if s != [] { assert s[0] in t; }
    if t != [] { assert t[0] in s; }
    if s != [] {
      SameHead(cmp, s, t);
      forall x ensures x in s[1..] <==> x in t[1..] {
        if x in s[1..] { TailMember(cmp, s, t, x); }
        if x in t[1..] { TailMember(cmp, t, s, x); }
      }
      DescendingUnique(cmp, s[1..], t[1..]);
    }
  }

  lemma SameHead<D(!new)>(cmp: (D, D) -> int, s: seq<D>, t: seq<D>)
    requires IsComparator(cmp) && Descending(cmp, s) && Descending(cmp, t)
    requires s != [] && t != [] && s[0] in t && t[0] in s
    ensures s[0] == t[0]
  {
    var i :| 0 <= i < |t| && t[i] == s[0];
    var j :| 0 <= j < |s| && s[j] == t[0];
    Antisymmetric(cmp, s[0], t[0]);
  }

  lemma TailMember<D(!new)>(cmp: (D, D) -> int, s: seq<D>, t: seq<D>, x: D)
    requires IsComparator(cmp) && Descending(cmp, s)
    requires s != [] && t != [] && s[0] == t[0] && x in s[1..] && x in t
    ensures x in t[1..]
  {
    var i :| 0 <= i < |s[1..]| && s[1..][i] == x;
    Antisymmetric(cmp, x, x);
    var j :| 0 <= j < |t| && t[j] == x;
    assert cmp(s[0], s[i + 1]) > 0;
    assert t[1..][j - 1] == x;
  }
}
