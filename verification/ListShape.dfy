/** The pointer graph of a sorted list: what `first`, every node's `next` and every
    iterator's `current` point at, without the reference counts. An address is a number, NULL
    is 0, and a node is allocated when its address is a key of `next`. */
module ListShape {
  import opened Order

  type Ptr = nat
  type Id = nat
  const NULL: Ptr := 0

  datatype Shape<!D> = Shape(
    cmp: (D, D) -> int,
    first: Ptr,
    next: map<Ptr, Ptr>,
    data: map<Ptr, D>,
    current: map<Id, Ptr>)

  /** Not dangling. */
  ghost predicate Points<D>(s: Shape<D>, p: Ptr) {
    p == NULL || p in s.next
  }

  /** The next pointer of p does not dangle and leads to a strictly smaller item. */
  ghost predicate EdgeOk<D>(s: Shape<D>, p: Ptr)
    requires p in s.next && s.data.Keys == s.next.Keys
  {
    && Points(s, s.next[p])
    && (s.next[p] != NULL ==> s.cmp(s.data[p], s.data[s.next[p]]) > 0)
  }

  ghost predicate WellFormed<D(!new)>(s: Shape<D>) {
    && IsComparator(s.cmp)
    && s.data.Keys == s.next.Keys
    && NULL !in s.next
    && Points(s, s.first)
    && (forall p {:trigger EdgeOk(s, p)} | p in s.next :: EdgeOk(s, p))
    && (forall i | i in s.current :: Points(s, s.current[i]))
  }

  // ----- Chains: the nodes met by following next -----

  ghost function DownSet<D>(s: Shape<D>, p: Ptr): set<Ptr>
    requires Points(s, p) && s.data.Keys == s.next.Keys
  {
    if p == NULL then {} else {p} + set q | q in s.data && s.cmp(s.data[p], s.data[q]) > 0
  }

  lemma DownSetShrinks<D(!new)>(s: Shape<D>, p: Ptr)
    requires WellFormed(s) && p in s.next
    ensures Points(s, s.next[p])
    ensures DownSet(s, s.next[p]) < DownSet(s, p)
  {
    assert EdgeOk(s, p);
    var n := s.next[p];
    if n != NULL {
      Antisymmetric(s.cmp, s.data[p], s.data[n]);
      forall q | q in DownSet(s, n) ensures q in DownSet(s, p) {
        StrictTransitive(s.cmp, s.data[p], s.data[n], s.data[q]);
      }
      assert p in DownSet(s, p) && p !in DownSet(s, n);
    } else {
      assert p in DownSet(s, p);
    }
  }

  ghost function Chain<D(!new)>(s: Shape<D>, p: Ptr): (c: seq<Ptr>)
    requires WellFormed(s) && Points(s, p)
    decreases DownSet(s, p)
  {
    if p == NULL then []
    else
      DownSetShrinks(s, p);
      [p] + Chain(s, s.next[p])
  }

  /** The nodes of the list itself. */
  ghost function Live<D(!new)>(s: Shape<D>): seq<Ptr>
    requires WellFormed(s)
  {
    Chain(s, s.first)
  }

  ghost function DataOf<D>(s: Shape<D>, c: seq<Ptr>): (d: seq<D>)
    requires forall q | q in c :: q in s.data
    ensures |d| == |c| && forall i :: 0 <= i < |c| ==> d[i] == s.data[c[i]]
  {
    seq(|c|, i requires 0 <= i < |c| => assert c[i] in c; s.data[c[i]])
  }

  /** The items of the list, in order: the abstract value of the container. */
  ghost function Items<D(!new)>(s: Shape<D>): seq<D>
    requires WellFormed(s)
  {
    ChainAllocated(s, s.first);
    DataOf(s, Live(s))
  }

  lemma {:induction false} ChainAllocated<D(!new)>(s: Shape<D>, p: Ptr)
    requires WellFormed(s) && Points(s, p)
    ensures forall q | q in Chain(s, p) :: q in s.next
    decreases |Chain(s, p)|
  {
    if p != NULL {
      DownSetShrinks(s, p);
      ChainAllocated(s, s.next[p]);
    }
  }

  /** Everything behind a node on a chain is on the chain too, as the tail from that node. */
  lemma {:induction false} ChainSuffix<D(!new)>(s: Shape<D>, p: Ptr, k: nat)
    requires WellFormed(s) && Points(s, p) && k < |Chain(s, p)|
    ensures var q := Chain(s, p)[k];
            && q in s.next && Points(s, s.next[q])
            && Chain(s, p)[k..] == Chain(s, q)
            && Chain(s, p)[k + 1..] == Chain(s, s.next[q])
            && (if k + 1 < |Chain(s, p)| then s.next[q] == Chain(s, p)[k + 1] else s.next[q] == NULL)
    decreases |Chain(s, p)|
  {
    DownSetShrinks(s, p);
    if k == 0 {
      assert Chain(s, p)[1..] == Chain(s, s.next[p]);
    } else {
      ChainSuffix(s, s.next[p], k - 1);
      assert Chain(s, p)[k..] == Chain(s, s.next[p])[k - 1..];
      assert Chain(s, p)[k + 1..] == Chain(s, s.next[p])[k..];
    }
  }

  /** Along a chain the items strictly descend; in particular no node occurs twice. */
  lemma {:induction false} ChainDescends<D(!new)>(s: Shape<D>, p: Ptr)
    requires WellFormed(s) && Points(s, p)
    ensures forall q | q in Chain(s, p) :: q in s.next
    ensures Descending(s.cmp, DataOf(s, Chain(s, p)))
    decreases |Chain(s, p)|
  {
    ChainAllocated(s, p);
    if p != NULL {
      DownSetShrinks(s, p);
      var n := s.next[p];
      ChainDescends(s, n);
      var c, d := Chain(s, n), DataOf(s, Chain(s, p));
      forall i, j | 0 <= i < j < |d| ensures s.cmp(d[i], d[j]) > 0 {
        assert d[j] == DataOf(s, c)[j - 1];
        if i == 0 {
          assert EdgeOk(s, p);
          Antisymmetric(s.cmp, s.data[n], d[j]);
          assert j > 1 ==> s.cmp(DataOf(s, c)[0], DataOf(s, c)[j - 1]) > 0;
          StrictTransitive(s.cmp, d[0], s.data[n], d[j]);
        } else {
          assert d[i] == DataOf(s, c)[i - 1];
        }
      }
    }
  }

  /** Two graphs that agree on the nodes of a chain have the same chain. */
  lemma {:induction false} ChainFrame<D(!new)>(s: Shape<D>, t: Shape<D>, p: Ptr)
    requires WellFormed(s) && WellFormed(t) && Points(s, p)
    requires forall q | q in Chain(s, p) :: q in t.next && q in s.next && t.next[q] == s.next[q]
    ensures Points(t, p) && Chain(t, p) == Chain(s, p)
    decreases |Chain(s, p)|
  {
    if p != NULL {
      DownSetShrinks(s, p);
      assert p in Chain(s, p);
      ChainFrame(s, t, s.next[p]);
    }
  }
}
