/** Reference counts against the pointer graph: how many pointers reach a node, how each
    pointer assignment changes that number, and why exact counts leave no garbage. */
module ListCounts {
  import opened Order
  import opened ListShape
  import opened ListSpec

  ghost function One(b: bool): nat {
    if b then 1 else 0
  }

  /** The keys a map sends to v. */
  ghost function Sources<K, V>(m: map<K, V>, v: V): set<K> {
    set k | k in m && m[k] == v
  }

  lemma SourcesPut<K, V>(m: map<K, V>, k: K, t: V, v: V)
    ensures |Sources(m[k := t], v)| ==
            |Sources(m, v)| - One(k in m && m[k] == v) + One(t == v)
  {
    var rest := Sources(m, v) - {k};
    if k in m && m[k] == v { assert Sources(m, v) == rest + {k}; } else { assert Sources(m, v) == rest; }
    assert Sources(m[k := t], v) == if t == v then rest + {k} else rest;
  }

  lemma SourcesDrop<K, V>(m: map<K, V>, k: K, v: V)
    requires k in m
    ensures |Sources(m - {k}, v)| == |Sources(m, v)| - One(m[k] == v)
  {
    assert Sources(m - {k}, v) == Sources(m, v) - {k};
  }

  /** The number of pointers to p: from the list head, from allocated nodes, live or removed,
      and from iterators. */
  ghost function InDegree<D>(s: Shape<D>, p: Ptr): nat {
    One(s.first == p) + |Sources(s.next, p)| + |Sources(s.current, p)|
  }

  /** Counts are exact, except that node owed, if not NULL, has one more than it should: the
      pointer its caller has just taken away, or is about to add. */
  ghost predicate Owing<D>(s: Shape<D>, count: map<Ptr, int>, owed: Ptr) {
    && count.Keys == s.next.Keys
    && forall p {:trigger CountOk(s, count, owed, p)} | p in s.next :: CountOk(s, count, owed, p)
  }

  ghost predicate CountOk<D>(s: Shape<D>, count: map<Ptr, int>, owed: Ptr, p: Ptr)
    requires p in count
  {
    count[p] == InDegree(s, p) + One(p == owed) && count[p] >= 1
  }

  ghost predicate Exact<D>(s: Shape<D>, count: map<Ptr, int>) {
    Owing(s, count, NULL)
  }

  /** Counts are a function of the graph. */
  lemma ExactDetermined<D>(s: Shape<D>, c1: map<Ptr, int>, c2: map<Ptr, int>)
    requires NULL !in s.next && Exact(s, c1) && Exact(s, c2)
    ensures c1 == c2
  {
    forall p | p in s.next ensures c1[p] == c2[p] {
      assert CountOk(s, c1, NULL, p) && CountOk(s, c2, NULL, p);
    }
  }

  /** Nobody points at an address that is not allocated. */
  lemma NoDanglingPointers<D(!new)>(s: Shape<D>, p: Ptr)
    requires WellFormed(s) && p != NULL && p !in s.next
    ensures InDegree(s, p) == 0
  {
    forall q | q in s.next ensures s.next[q] != p { assert EdgeOk(s, q); }
    assert Sources(s.next, p) == {} && Sources(s.current, p) == {};
  }

  // ----- Exact counts leave no garbage -----

  ghost function UpSet<D>(s: Shape<D>, p: Ptr): set<Ptr>
    requires p in s.data
  {
    set q | q in s.data && s.cmp(s.data[q], s.data[p]) > 0
  }

  lemma {:induction false} PointedIsReachable<D(!new)>(s: Shape<D>, p: Ptr)
    requires WellFormed(s) && p in s.next
    requires forall q | q in s.next :: InDegree(s, q) >= 1
    ensures Reachable(s, p)
    decreases UpSet(s, p)
  {
    assert InDegree(s, p) >= 1;
    if s.first == p {
      assert Live(s)[0] == p;
    } else if Sources(s.current, p) != {} {
      var i :| i in Sources(s.current, p);
      assert Chain(s, s.current[i])[0] == p;
    } else {
      var q :| q in Sources(s.next, p);
      assert EdgeOk(s, q);
      UpSetShrinks(s, q);
      PointedIsReachable(s, q);
      ReachableClosed(s, q);
    }
  }

  lemma UpSetShrinks<D(!new)>(s: Shape<D>, q: Ptr)
    requires WellFormed(s) && q in s.next && EdgeOk(s, q) && s.next[q] != NULL
    ensures UpSet(s, q) < UpSet(s, s.next[q])
  {
    var p := s.next[q];
    Antisymmetric(s.cmp, s.data[q], s.data[q]);
    forall x | x in UpSet(s, q) ensures x in UpSet(s, p) {
      StrictTransitive(s.cmp, s.data[x], s.data[q], s.data[p]);
    }
    assert q in UpSet(s, p) && q !in UpSet(s, q);
  }

  /** A node is allocated only while the list or some iterator can reach it. */
  lemma NoLeak<D(!new)>(s: Shape<D>, count: map<Ptr, int>)
    requires WellFormed(s) && Exact(s, count)
    ensures AllReachable(s)
  {
    forall q | q in s.next ensures InDegree(s, q) >= 1 {
      assert CountOk(s, count, NULL, q);
    }
    forall p | p in s.next ensures Reachable(s, p) {
      PointedIsReachable(s, p);
    }
  }

  /** With the list empty and every iterator at its end, or gone, nothing is allocated. */
  lemma NothingLeft<D(!new)>(s: Shape<D>, count: map<Ptr, int>)
    requires WellFormed(s) && Exact(s, count)
    requires s.first == NULL && forall i | i in s.current :: s.current[i] == NULL
    ensures s.next == map[] && s.data == map[] && count == map[]
  {
    NoLeak(s, count);
    assert s.next.Keys == {};
  }

  // ----- What each pointer assignment does to the counts -----

  lemma DegreeOfLink<D>(s: Shape<D>, prev: Ptr, p: Ptr, d: D, n: Ptr, q: Ptr)
    requires p !in s.next
    requires if prev == NULL then s.first == n else prev in s.next && s.next[prev] == n
    ensures InDegree(Link(s, prev, p, d, n), q) == InDegree(s, q) + One(q == p)
  {
    SourcesPut(s.next, p, n, q);
    if prev != NULL { SourcesPut(s.next[p := n], prev, p, q); }
  }

  lemma LinkCounts<D(!new)>(s: Shape<D>, count: map<Ptr, int>, prev: Ptr, p: Ptr, d: D, n: Ptr)
    requires WellFormed(s) && Exact(s, count) && p != NULL && p !in s.next
    requires if prev == NULL then s.first == n else prev in s.next && s.next[prev] == n
    ensures Exact(Link(s, prev, p, d, n), count[p := 1])
  {
    NoDanglingPointers(s, p);
    var t := Link(s, prev, p, d, n);
    forall q | q in t.next ensures CountOk(t, count[p := 1], NULL, q) {
      DegreeOfLink(s, prev, p, d, n, q);
      assert q != p ==> CountOk(s, count, NULL, q);
    }
  }

  // ----- The walk of SLInsert -----

  /** The walk for d has reached node cur, coming from prev, past greater items only. */
  ghost predicate Walked<D(!new)>(s: Shape<D>, d: D, prev: Ptr, cur: Ptr, k: nat)
    requires WellFormed(s)
  {
    && k < |Live(s)| == |Items(s)|
    && cur == Live(s)[k] && prev == Before(Live(s), k) && Points(s, prev)
    && forall j | 0 <= j < k :: s.cmp(Items(s)[j], d) > 0
  }

  lemma WalkStart<D(!new)>(s: Shape<D>, d: D)
    requires WellFormed(s) && s.first != NULL
    ensures s.first in s.data && Walked(s, d, NULL, s.first, 0)
  {
    LiveAt(s, 0);
  }

  lemma WalkOn<D(!new)>(s: Shape<D>, d: D, prev: Ptr, cur: Ptr, k: nat)
    requires WellFormed(s) && Walked(s, d, prev, cur, k)
    ensures cur in s.next && (s.next[cur] == NULL <==> k + 1 == |Live(s)|)
    ensures s.cmp(s.data[cur], d) > 0 && s.next[cur] != NULL ==>
              s.next[cur] in s.data && Walked(s, d, cur, s.next[cur], k + 1)
  {
    LiveAt(s, k);
    LiveAt(s, k + 1);
  }

  /** Stopping at an item not greater than d settles whether d is there, and where it goes. */
  lemma WalkStop<D(!new)>(s: Shape<D>, d: D, prev: Ptr, cur: Ptr, k: nat)
    requires WellFormed(s) && Walked(s, d, prev, cur, k)
    ensures cur in s.data
    ensures s.cmp(s.data[cur], d) <= 0 ==> (Found(s, d) <==> s.cmp(s.data[cur], d) == 0)
    ensures s.cmp(s.data[cur], d) < 0 ==> forall p :: InsertNode(s, d, p) == Link(s, prev, p, d, cur)
  {
    LiveAt(s, k);
    if s.cmp(s.data[cur], d) <= 0 {
      RankIs(s.cmp, Items(s), d, k);
      FoundAtPlace(s, d);
    }
  }

  /** Running off the end: d goes behind the last node. */
  lemma WalkEnd<D(!new)>(s: Shape<D>, d: D, prev: Ptr, cur: Ptr, k: nat)
    requires WellFormed(s) && Walked(s, d, prev, cur, k)
    requires cur in s.next && s.cmp(s.data[cur], d) > 0 && s.next[cur] == NULL
    ensures !Found(s, d)
    ensures forall p :: InsertNode(s, d, p) == Link(s, cur, p, d, NULL)
  {
    WalkOn(s, d, prev, cur, k);
    LiveAt(s, k);
    RankIs(s.cmp, Items(s), d, k + 1);
    FoundAtPlace(s, d);
  }

  lemma WalkEmpty<D(!new)>(s: Shape<D>, d: D)
    requires WellFormed(s) && s.first == NULL
    ensures !Found(s, d)
    ensures forall p :: InsertNode(s, d, p) == Link(s, NULL, p, d, NULL)
  {
    RankIs(s.cmp, Items(s), d, 0);
    FoundAtPlace(s, d);
  }

  // ----- The search of SLRemove -----

  /** The search for d has reached cur, NULL at the end, past no equal item. */
  ghost predicate Searched<D(!new)>(s: Shape<D>, d: D, prev: Ptr, cur: Ptr, k: nat)
    requires WellFormed(s)
  {
    && k <= |Live(s)| == |Items(s)|
    && cur == At(Live(s), k) && Points(s, cur) && prev == Before(Live(s), k)
    && forall j | 0 <= j < k :: s.cmp(Items(s)[j], d) != 0
  }

  lemma SearchStart<D(!new)>(s: Shape<D>, d: D)
    requires WellFormed(s)
    ensures Searched(s, d, NULL, s.first, 0)
  {
    LiveAt(s, 0);
  }

  lemma SearchOn<D(!new)>(s: Shape<D>, d: D, prev: Ptr, cur: Ptr, k: nat)
    requires WellFormed(s) && Searched(s, d, prev, cur, k)
    requires cur != NULL && s.cmp(s.data[cur], d) != 0
    ensures k < |Live(s)| && Searched(s, d, cur, s.next[cur], k + 1)
  {
    LiveAt(s, k);
    LiveAt(s, k + 1);
    assert EdgeOk(s, cur);
  }

  lemma SearchFailed<D(!new)>(s: Shape<D>, d: D, prev: Ptr, k: nat)
    requires WellFormed(s) && Searched(s, d, prev, NULL, k)
    ensures !Found(s, d)
  {
    if k < |Live(s)| { LiveAt(s, k); }
  }

  lemma SearchFound<D(!new)>(s: Shape<D>, d: D, prev: Ptr, cur: Ptr, k: nat)
    requires WellFormed(s) && Searched(s, d, prev, cur, k)
    requires cur != NULL && s.cmp(s.data[cur], d) == 0
    ensures Found(s, d) && UnlinkNode(s, d) == Unlink(s, prev, s.next[cur])
    ensures Points(s, s.next[cur]) && WellFormed(Unlink(s, prev, s.next[cur]))
    ensures if prev == NULL then s.first == cur else prev in s.next && s.next[prev] == cur
  {
    LiveAt(s, k);
    ChainDescends(s, s.first);
    EqualIsAtRank(s.cmp, Items(s), d, k);
    FoundAtPlace(s, d);
    Surroundings(s, d);
    UnlinkWellFormed(s, prev, cur, s.next[cur]);
  }

  lemma InsertSound<D(!new)>(s: Shape<D>, count: map<Ptr, int>, d: D, p: Ptr)
    requires WellFormed(s) && Exact(s, count) && !Found(s, d) && p != NULL && p !in s.next
    ensures WellFormed(InsertNode(s, d, p)) && Exact(InsertNode(s, d, p), count[p := 1])
  {
    Neighbours(s, d);
    var prev, n := Before(Live(s), Place(s, d)), At(Live(s), Place(s, d));
    LinkWellFormed(s, prev, p, d, n);
    LinkCounts(s, count, prev, p, d, n);
  }

  /** The counts with that of n one higher, unless n is NULL. */
  ghost function Bump(count: map<Ptr, int>, n: Ptr): map<Ptr, int>
    requires n == NULL || n in count
  {
    if n == NULL then count else count[n := count[n] + 1]
  }

  lemma UnlinkCounts<D(!new)>(s: Shape<D>, count: map<Ptr, int>, prev: Ptr, r: Ptr, n: Ptr)
    requires WellFormed(s) && Exact(s, count)
    requires r in s.next && r != NULL && s.next[r] == n && Points(s, n)
    requires if prev == NULL then s.first == r else prev in s.next && s.next[prev] == r
    ensures Owing(Unlink(s, prev, n), Bump(count, n), r)
  {
    var t := Unlink(s, prev, n);
    forall q | q in t.next ensures CountOk(t, Bump(count, n), r, q) {
      assert CountOk(s, count, NULL, q);
      if prev != NULL { SourcesPut(s.next, prev, n, q); }
    }
  }

  ghost function Drop<D>(s: Shape<D>, p: Ptr): Shape<D> {
    s.(next := s.next - {p}, data := s.data - {p})
  }

  lemma Unpointed<D>(s: Shape<D>, p: Ptr)
    requires InDegree(s, p) == 0
    ensures s.first != p && (forall q | q in s.next :: s.next[q] != p)
    ensures forall i | i in s.current :: s.current[i] != p
  {
    assert Sources(s.next, p) == {} && Sources(s.current, p) == {};
    forall q | q in s.next ensures s.next[q] != p { assert q !in Sources(s.next, p); }
    forall i | i in s.current ensures s.current[i] != p { assert i !in Sources(s.current, p); }
  }

  /** A node nobody points at can go... */
  lemma DropUnpointed<D(!new)>(s: Shape<D>, p: Ptr)
    requires WellFormed(s) && p in s.next && InDegree(s, p) == 0
    ensures WellFormed(Drop(s, p)) && Points(s, s.next[p]) && Points(Drop(s, p), s.next[p])
    ensures Chain(Drop(s, p), s.next[p]) == Chain(s, s.next[p])
  {
    var t := Drop(s, p);
    Unpointed(s, p);
    assert EdgeOk(s, p);
    forall q | q in t.next ensures EdgeOk(t, q) { assert EdgeOk(s, q); }
    ChainAllocated(s, s.next[p]);
    NotBehindItself(s, p);
    ChainFrame(s, t, s.next[p]);
  }

  lemma NotBehindItself<D(!new)>(s: Shape<D>, p: Ptr)
    requires WellFormed(s) && p in s.next
    ensures Points(s, s.next[p]) && p !in Chain(s, s.next[p])
  {
    ChainDescends(s, p);
    assert EdgeOk(s, p);
    var c, tail := Chain(s, p), Chain(s, s.next[p]);
    Antisymmetric(s.cmp, s.data[p], s.data[p]);
    forall j | 0 <= j < |tail| ensures tail[j] != p {
      assert s.cmp(DataOf(s, c)[0], DataOf(s, c)[j + 1]) > 0;
    }
  }

  /** ... and its successor then has one pointer less. */
  lemma DropCounts<D(!new)>(s: Shape<D>, count: map<Ptr, int>, p: Ptr)
    requires WellFormed(s) && Owing(s, count, p) && p in s.next && count[p] == 1
    ensures InDegree(s, p) == 0
    ensures Owing(Drop(s, p), count - {p}, s.next[p])
  {
    var t := Drop(s, p);
    assert CountOk(s, count, p, p);
    forall q | q in t.next ensures CountOk(t, count - {p}, s.next[p], q) {
      assert CountOk(s, count, p, q);
      SourcesDrop(s.next, p, q);
    }
  }

  /** Freeing an unpointed node first, and then sweeping, is sweeping. */
  lemma SweepAfterDrop<D(!new)>(s: Shape<D>, p: Ptr)
    requires WellFormed(s) && p in s.next && InDegree(s, p) == 0
    ensures WellFormed(Drop(s, p)) && Points(s, s.next[p])
    ensures Sweep(Drop(s, p)) == Sweep(s)
    ensures FirstKept(Chain(s, p), Sweep(s).next.Keys) == FirstKept(Chain(s, s.next[p]), Sweep(s).next.Keys)
  {
    DropUnpointed(s, p);
    SweepKeeps(Drop(s, p));
    KeepOfDrop(s, p, Traced(Drop(s, p)));
    SweepUnique(s, Sweep(Drop(s, p)));
    assert Chain(s, p)[1..] == Chain(s, s.next[p]);
  }

  lemma KeepOfDrop<D>(s: Shape<D>, p: Ptr, kept: set<Ptr>)
    requires kept <= Drop(s, p).next.Keys
    ensures var t := Keep(Drop(s, p), kept);
            t == Keep(s, t.next.Keys) && t.next.Keys <= s.next.Keys && p !in t.next.Keys
  {
    assert Keep(Drop(s, p), kept).next.Keys == kept;
  }

  /** One step of nodeDestroy: freeing a node that only the owed pointer held leaves the debt
      with its successor, and the same nodes to be swept. */
  lemma FreeNode<D(!new)>(s: Shape<D>, count: map<Ptr, int>, p: Ptr)
    requires WellFormed(s) && Owing(s, count, p) && p in s.next && count[p] == 1
    ensures WellFormed(Drop(s, p)) && Points(Drop(s, p), s.next[p])
    ensures Owing(Drop(s, p), count - {p}, s.next[p])
    ensures Sweep(Drop(s, p)) == Sweep(s)
    ensures FirstKept(Chain(s, p), Sweep(s).next.Keys) ==
            FirstKept(Chain(Drop(s, p), s.next[p]), Sweep(s).next.Keys)
  {
    DropCounts(s, count, p);
    DropUnpointed(s, p);
    SweepAfterDrop(s, p);
  }

  /** The other step: one count less, and nothing to free. */
  lemma PayOff<D(!new)>(s: Shape<D>, count: map<Ptr, int>, p: Ptr)
    requires WellFormed(s) && Owing(s, count, p) && p in s.next && count[p] != 1
    ensures Exact(s, count[p := count[p] - 1])
    ensures Sweep(s) == s && FirstKept(Chain(s, p), s.next.Keys) == p
  {
    var less := count[p := count[p] - 1];
    forall q | q in s.next ensures CountOk(s, less, NULL, q) {
      assert CountOk(s, count, p, q);
    }
    NoLeak(s, less);
    SweepIdle(s);
  }

  /** The list has moved off its first node r, and every pointer is counted, so that the count
      of r may be 0. */
  ghost predicate MovedOff<D(!new)>(s: Shape<D>, count: map<Ptr, int>, r: Ptr) {
    && WellFormed(s) && r in s.next && s.first == s.next[r] && r != s.first && r in count
    && Owing(s, count[r := count[r] + 1], r)
  }

  lemma MoveOff<D(!new)>(s: Shape<D>, count: map<Ptr, int>, r: Ptr)
    requires WellFormed(s) && Exact(s, count) && r in s.next && s.first == r
    ensures Points(s, s.next[r]) && r != s.next[r] && WellFormed(Unlink(s, NULL, s.next[r]))
    ensures MovedOff(Unlink(s, NULL, s.next[r]), Bump(count[r := count[r] - 1], s.next[r]), r)
  {
    var n := s.next[r];
    assert EdgeOk(s, r);
    NotBehindItself(s, r);
    assert n != NULL ==> Chain(s, n)[0] == n;
    UnlinkWellFormed(s, NULL, r, n);
    UnlinkCounts(s, count, NULL, r, n);
    var moved := Bump(count[r := count[r] - 1], n);
    assert moved[r := moved[r] + 1] == Bump(count, n);
  }

  /** The successor of r is pointed at by the list by now, so when r goes, paying its pointer
      back frees nothing more. */
  lemma FreeFirst<D(!new)>(s: Shape<D>, count: map<Ptr, int>, r: Ptr)
    requires MovedOff(s, count, r)
    ensures count[r] != 0 ==> Exact(s, count) && Sweep(s) == s
    ensures count[r] == 0 ==>
              var n, less := s.next[r], count - {r};
              && WellFormed(Drop(s, r)) && Sweep(s) == Drop(s, r)
              && (if n == NULL then Exact(Drop(s, r), less)
                  else n in less && Exact(Drop(s, r), less[n := less[n] - 1]))
  {
    var more := count[r := count[r] + 1];
    if count[r] != 0 {
      PayOff(s, more, r);
      assert more[r := more[r] - 1] == count;
    } else {
      FreeNode(s, more, r);
      var n, t, less := s.next[r], Drop(s, r), count - {r};
      assert more - {r} == less;
      if n == NULL {
        NoLeak(t, less);
        SweepIdle(t);
      } else {
        assert CountOk(t, less, n, n);
        PayOff(t, less, n);
      }
    }
  }

  lemma SweepIdle<D(!new)>(s: Shape<D>)
    requires AllReachable(s)
    ensures Sweep(s) == s
  {
    KeepAll(s);
    SweepUnique(s, s);
  }

  lemma KeepAll<D>(s: Shape<D>)
    requires s.data.Keys == s.next.Keys
    ensures s == Keep(s, s.next.Keys)
  {
    var t := Keep(s, s.next.Keys);
    assert t.next == s.next;
    assert t.data == s.data;
  }

  // ----- Iterators -----

  lemma CursorPutCounts<D(!new)>(s: Shape<D>, i: Id, p: Ptr, q: Ptr)
    ensures InDegree(s.(current := s.current[i := p]), q) ==
            InDegree(s, q) - One(i in s.current && s.current[i] == q) + One(p == q)
  {
    SourcesPut(s.current, i, p, q);
  }

  /** Taking an iterator off its node leaves that node one count too high. */
  lemma ReleaseCounts<D(!new)>(s: Shape<D>, count: map<Ptr, int>, i: Id)
    requires Exact(s, count) && NULL !in s.next && i in s.current
    ensures Owing(s.(current := s.current[i := NULL]), count, s.current[i])
    ensures Owing(s.(current := s.current - {i}), count, s.current[i])
  {
    var t, u := s.(current := s.current[i := NULL]), s.(current := s.current - {i});
    forall q | q in s.next
      ensures CountOk(t, count, s.current[i], q)
      ensures CountOk(u, count, s.current[i], q)
    {
      assert CountOk(s, count, NULL, q);
      SourcesPut(s.current, i, NULL, q);
      SourcesDrop(s.current, i, q);
    }
  }

  /** Putting an iterator on a node and counting that pointer keeps the counts exact. */
  lemma SettleCounts<D(!new)>(s: Shape<D>, count: map<Ptr, int>, i: Id, p: Ptr)
    requires Exact(s, count) && NULL !in s.next && Points(s, p)
    requires i in s.current ==> s.current[i] == NULL
    ensures Exact(s.(current := s.current[i := p]), Bump(count, p))
  {
    var t := s.(current := s.current[i := p]);
    forall q | q in t.next ensures CountOk(t, Bump(count, p), NULL, q) {
      assert CountOk(s, count, NULL, q);
      CursorPutCounts(s, i, p, q);
    }
  }

  /** SLNextItem lets go of the current node. When that frees it, the cascade stops at the node
      the iterator goes on to; when not, the iterator goes on to the next node. */
  lemma LetGo<D(!new)>(s: Shape<D>, count: map<Ptr, int>, i: Id)
    requires WellFormed(s) && Exact(s, count) && i in s.current && s.current[i] != NULL
    ensures var cur, rel := s.current[i], s.(current := s.current[i := NULL]);
            && WellFormed(rel) && cur in s.next && Owing(rel, count, cur) && Points(s, s.next[cur])
            && Chain(rel, cur) == Chain(s, cur)
            && var target := FirstKept(Chain(s, cur)[1..], Released(s, i).next.Keys);
               && (count[cur] == 1 ==> target == FirstKept(Chain(rel, cur), Sweep(rel).next.Keys))
               && (count[cur] != 1 ==> target == s.next[cur] && Exact(rel, count[cur := count[cur] - 1])
                                       && Sweep(rel) == rel)
  {
    var cur, rel := s.current[i], s.(current := s.current[i := NULL]);
    CursorsWellFormed(s, rel.current);
    ReleaseCounts(s, count, i);
    ChainAllocated(s, cur);
    ChainFrame(s, rel, cur);
    assert EdgeOk(s, cur);
    if count[cur] == 1 { LastPointer(rel, count, cur); } else { NotLastPointer(rel, count, cur); }
  }

  lemma SettledIsNext<D(!new)>(s: Shape<D>, i: Id, to: Ptr, t: Shape<D>)
    requires WellFormed(s) && i in s.current && s.current[i] != NULL
    requires to == FirstKept(Chain(s, s.current[i])[1..], Released(s, i).next.Keys)
    requires t == Released(s, i).(current := Released(s, i).current[i := to])
    ensures t == Apply(s, Op.Next(i))
  {
  }

  lemma SweptIsEnd<D(!new)>(s: Shape<D>, i: Id, t: Shape<D>)
    requires WellFormed(s) && i in s.current && WellFormed(s.(current := s.current - {i}))
    requires t == Sweep(s.(current := s.current - {i}))
    ensures t == Apply(s, Op.End(i))
  {
  }

  lemma LastPointer<D(!new)>(s: Shape<D>, count: map<Ptr, int>, p: Ptr)
    requires WellFormed(s) && Owing(s, count, p) && p in s.next && count[p] == 1
    ensures FirstKept(Chain(s, p)[1..], Sweep(s).next.Keys) == FirstKept(Chain(s, p), Sweep(s).next.Keys)
  {
    assert CountOk(s, count, p, p);
    SweepAfterDrop(s, p);
    assert Chain(s, p)[1..] == Chain(s, s.next[p]);
  }

  lemma NotLastPointer<D(!new)>(s: Shape<D>, count: map<Ptr, int>, p: Ptr)
    requires WellFormed(s) && Owing(s, count, p) && p in s.next && count[p] != 1
    ensures Exact(s, count[p := count[p] - 1]) && Sweep(s) == s
    ensures FirstKept(Chain(s, p)[1..], Sweep(s).next.Keys) == s.next[p]
  {
    PayOff(s, count, p);
    assert EdgeOk(s, p);
    assert Chain(s, p)[1..] == Chain(s, s.next[p]);
  }

  /** The first item stands at its own place. */
  lemma HeadPlace<D(!new)>(s: Shape<D>)
    requires WellFormed(s) && s.first != NULL
    ensures s.first in s.data && Found(s, s.data[s.first]) && Place(s, s.data[s.first]) == 0
  {
    var d := s.data[s.first];
    LiveAt(s, 0);
    Antisymmetric(s.cmp, d, d);
    ChainDescends(s, s.first);
    EqualIsAtRank(s.cmp, Items(s), d, 0);
    FoundAtPlace(s, d);
  }

  /** What a sweep keeps once the list has moved on is a matter of its nodes only. */
  lemma SweepHead<D(!new)>(s: Shape<D>, u: Shape<D>)
    requires WellFormed(u) && u == s.(first := u.first)
    ensures Sweep(u).next.Keys <= s.next.Keys
    ensures Sweep(u).(first := NULL) == Keep(s.(first := NULL), Sweep(u).next.Keys)
  {
    assert Sweep(u).next.Keys == Traced(u);
  }

  /** Emptying the list one first item at a time. */
  lemma ClearStep<D(!new)>(s: Shape<D>)
    requires WellFormed(s) && s.first != NULL
    ensures var t := Apply(s, Op.Remove(s.data[s.first]));
            && Found(s, s.data[s.first])
            && WellFormed(t) && |Live(t)| == |Live(s)| - 1
            && t.next.Keys <= s.next.Keys
            && t.(first := NULL) == Keep(s.(first := NULL), t.next.Keys)
  {
    var d := s.data[s.first];
    HeadPlace(s);
    UnlinkEffect(s, d);
    var u := UnlinkNode(s, d);
    SweepKeeps(u);
    assert u == s.(first := At(Live(s), 1));
    SweepHead(s, u);
  }

  lemma Cleared<D(!new)>(s: Shape<D>, t: Shape<D>, count: map<Ptr, int>)
    requires WellFormed(s) && WellFormed(t) && Exact(t, count) && t.first == NULL
    requires t.next.Keys <= s.next.Keys && t.(first := NULL) == Keep(s.(first := NULL), t.next.Keys)
    ensures t == Apply(s, Op.Clear)
  {
    ClearWellFormed(s);
    NoLeak(t, count);
    assert t == t.(first := NULL);
    SweepUnique(s.(first := NULL), t);
  }
}
