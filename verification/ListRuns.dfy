/** Whole runs: any interleaving of insertions, removals, destruction of the list, and the
    creation, stepping and destruction of any number of iterators. */
module ListRuns {
  import opened Order
  import opened ListShape
  import opened ListSpec
  import ListCounts
  import opened Options

  ghost predicate Step<D(!new)>(s: Shape<D>, op: Op<D>, t: Shape<D>) {
    AllReachable(s) && Enabled(s, op) && t == Apply(s, op)
  }

  ghost predicate IsRun<D(!new)>(states: seq<Shape<D>>, ops: seq<Op<D>>) {
    && |states| == |ops| + 1
    && forall k | 0 <= k < |ops| :: Step(states[k], ops[k], states[k + 1])
  }

  // ----- One step -----

  lemma CursorChains<D(!new)>(s: Shape<D>, current: map<Id, Ptr>)
    requires WellFormed(s) && forall i | i in current :: Points(s, current[i])
    ensures WellFormed(s.(current := current))
    ensures forall x | Points(s, x) :: Chain(s.(current := current), x) == Chain(s, x)
  {
    CursorsWellFormed(s, current);
    forall x | Points(s, x) ensures Chain(s.(current := current), x) == Chain(s, x) {
      ChainAllocated(s, x);
      ChainFrame(s, s.(current := current), x);
    }
  }

  /** Putting an idle or new iterator on a node strands nothing. */
  lemma Retarget<D(!new)>(r: Shape<D>, i: Id, x: Ptr)
    requires AllReachable(r) && (i in r.current ==> r.current[i] == NULL) && Points(r, x)
    ensures var t := r.(current := r.current[i := x]);
            AllReachable(t) && Live(t) == Live(r)
  {
    var t := r.(current := r.current[i := x]);
    CursorChains(r, t.current);
    forall p | p in t.next ensures Reachable(t, p) {
      assert Reachable(r, p);
      if p !in Live(r) {
        var j :| j in r.current && p in Chain(r, r.current[j]);
        assert j != i && t.current[j] == r.current[j];
        assert Chain(t, t.current[j]) == Chain(r, r.current[j]);
      }
    }
  }

  lemma AdvanceEffect<D(!new)>(s: Shape<D>, i: Id)
    requires WellFormed(s) && i in s.current && s.current[i] != NULL
    ensures AllReachable(Released(s, i)) && Points(Released(s, i), Advance(s, i).current[i])
    ensures AllReachable(Advance(s, i)) && Live(Advance(s, i)) == Live(s)
  {
    var rel := s.(current := s.current[i := NULL]);
    CursorChains(s, rel.current);
    SweepKeeps(rel);
    assert i in Released(s, i).current && Released(s, i).current[i] == NULL;
    Retarget(Released(s, i), i, Advance(s, i).current[i]);
  }

  lemma InsertReachable<D(!new)>(s: Shape<D>, d: D, p: Ptr)
    requires AllReachable(s) && p != NULL && p !in s.next
    ensures AllReachable(InsertNode(s, d, p))
  {
    if !Found(s, d) {
      var t := InsertNode(s, d, p);
      InsertEffect(s, d, p);
      InsertKeepsChains(s, d, p);
      forall q | q in t.next ensures Reachable(t, q) {
        if q == p {
          assert Live(t)[Place(s, d)] == p;
        } else if q in Live(s) {
          FirstAfterInsert(s, d, p, q);
        } else {
          var i :| i in s.current && q in Chain(s, s.current[i]);
          assert i in t.current && q in Chain(t, t.current[i]);
        }
      }
    }
  }

  lemma FirstAfterInsert<D(!new)>(s: Shape<D>, d: D, p: Ptr, q: Ptr)
    requires WellFormed(s) && !Found(s, d) && p != NULL && p !in s.next && q in Live(s)
    ensures WellFormed(InsertNode(s, d, p)) && q in Live(InsertNode(s, d, p))
  {
    InsertEffect(s, d, p);
    var j :| 0 <= j < |Live(s)| && Live(s)[j] == q;
    var k := Place(s, d);
    assert Live(InsertNode(s, d, p))[if j < k then j else j + 1] == q;
  }

  /** In every run, at every state, a node is allocated exactly while the list or an iterator
      can reach it: nothing leaks and nothing is freed early. */
  lemma StepSound<D(!new)>(s: Shape<D>, op: Op<D>, t: Shape<D>)
    requires Step(s, op, t)
    ensures AllReachable(t) && t.cmp == s.cmp
  {
    match op
    case Insert(d, p) => InsertReachable(s, d, p);
    case Remove(d) => if Found(s, d) { UnlinkEffect(s, d); SweepKeeps(UnlinkNode(s, d)); }
    case Begin(i) => Retarget(s, i, s.first);
    case Next(i) => if s.current[i] != NULL { AdvanceEffect(s, i); }
    case End(i) => CursorsWellFormed(s, s.current - {i}); SweepKeeps(s.(current := s.current - {i}));
    case Clear => ClearWellFormed(s); SweepKeeps(s.(first := NULL));
  }

  /** The list refines a set under its comparator: only insertion, removal and destruction of
      the list change its items, and they change them as such a set would. */
  lemma ItemsAfter<D(!new)>(s: Shape<D>, op: Op<D>, t: Shape<D>)
    requires Step(s, op, t)
    ensures WellFormed(t)
    ensures Items(t) == match op
                        case Insert(d, _) => Inserted(s.cmp, Items(s), d)
                        case Remove(d) => Removed(s.cmp, Items(s), d)
                        case Clear => []
                        case _ => Items(s)
  {
    StepSound(s, op, t);
    match op
    case Insert(d, p) => InsertItems(s, d, p);
    case Remove(d) =>
      FoundAtPlace(s, d);
      if Found(s, d) { UnlinkItems(s, d); SweepKeeps(UnlinkNode(s, d)); }
    case Begin(i) => CursorChains(s, t.current); SameItems(s, t);
    case Next(i) => if s.current[i] != NULL { AdvanceEffect(s, i); ChainAllocated(t, t.first); SameItems(s, t); }
    case End(i) =>
      CursorChains(s, s.current - {i});
      SweepKeeps(s.(current := s.current - {i}));
      SameItems(s, s.(current := s.current - {i}));
    case Clear => ClearWellFormed(s); SweepKeeps(s.(first := NULL));
  }

  lemma SameItems<D(!new)>(s: Shape<D>, t: Shape<D>)
    requires WellFormed(s) && WellFormed(t) && Live(t) == Live(s)
    requires forall q | q in t.data :: q in s.data && t.data[q] == s.data[q]
    ensures Items(t) == Items(s)
  {
    ChainAllocated(s, s.first);
    ChainAllocated(t, t.first);
  }

  // ----- One iterator, and everything else that goes on -----

  /** Whatever does not step or end iterator i leaves it on its node, with every item that
      stays in the list still in front of it. */
  lemma OthersKeepAhead<D(!new)>(s: Shape<D>, op: Op<D>, t: Shape<D>, i: Id)
    requires Step(s, op, t) && i in s.current && op != Op.Next(i) && op != Op.End(i)
    ensures WellFormed(t) && i in t.current && t.current[i] == s.current[i]
    ensures forall q | q in Chain(s, s.current[i]) && q in Live(t) :: q in Chain(t, t.current[i])
  {
    StepSound(s, op, t);
    var x := s.current[i];
    match op
    case Insert(d, p) => if !Found(s, d) { InsertKeepsChains(s, d, p); }
    case Remove(d) => if Found(s, d) { RemoveKeepsAhead(s, d, i); }
    case Begin(j) => CursorChains(s, t.current);
    case Next(j) => if s.current[j] != NULL { OtherAdvance(s, i, j); }
    case End(j) => OtherEnd(s, i, j);
    case Clear => ClearWellFormed(s); SweepKeeps(s.(first := NULL));
  }

  lemma RemoveKeepsAhead<D(!new)>(s: Shape<D>, d: D, i: Id)
    requires WellFormed(s) && Found(s, d) && i in s.current
    ensures WellFormed(UnlinkNode(s, d))
    ensures var t := Sweep(UnlinkNode(s, d));
            && WellFormed(t) && i in t.current && t.current[i] == s.current[i]
            && forall q | q in Chain(s, s.current[i]) && q in Live(t) :: q in Chain(t, t.current[i])
  {
    UnlinkKeepsChains(s, d);
    RemovedNotLive(s, d);
    SweepKeeps(UnlinkNode(s, d));
    assert Points(s, s.current[i]);
  }

  lemma OtherEnd<D(!new)>(s: Shape<D>, i: Id, j: Id)
    requires WellFormed(s) && i in s.current && j in s.current && i != j
    ensures WellFormed(s.(current := s.current - {j}))
    ensures var t := Sweep(s.(current := s.current - {j}));
            WellFormed(t) && i in t.current && Chain(t, t.current[i]) == Chain(s, s.current[i])
  {
    CursorChains(s, s.current - {j});
    SweepKeeps(s.(current := s.current - {j}));
    assert i in s.current - {j};
  }

  lemma RemovedNotLive<D(!new)>(s: Shape<D>, d: D)
    requires WellFormed(s) && Found(s, d)
    ensures Place(s, d) < |Live(s)| && WellFormed(UnlinkNode(s, d))
    ensures Live(s)[Place(s, d)] !in Live(UnlinkNode(s, d))
  {
    UnlinkEffect(s, d);
    var k, l := Place(s, d), Live(s);
    LiveAt(s, k);
    forall j | 0 <= j < k ensures l[j] != l[k] {
      LiveAt(s, j);
      assert l[j + 1..][k - j - 1] == l[k];
    }
  }

  lemma OtherAdvance<D(!new)>(s: Shape<D>, i: Id, j: Id)
    requires AllReachable(s) && i in s.current && j in s.current && i != j && s.current[j] != NULL
    ensures WellFormed(Advance(s, j)) && i in Advance(s, j).current
    ensures Advance(s, j).current[i] == s.current[i]
    ensures Chain(Advance(s, j), s.current[i]) == Chain(s, s.current[i])
  {
    var rel := s.(current := s.current[j := NULL]);
    AdvanceEffect(s, j);
    CursorChains(s, rel.current);
    SweepKeeps(rel);
    assert i in rel.current && rel.current[i] == s.current[i];
    CursorChains(Released(s, j), Advance(s, j).current);
  }

  /** Iterator i has been stepped, to position m of its chain. */
  ghost predicate SteppedTo<D(!new)>(s: Shape<D>, t: Shape<D>, i: Id, m: nat)
    requires WellFormed(s) && i in s.current
  {
    var c := Chain(s, s.current[i]);
    && WellFormed(t) && i in t.current
    && 1 <= m <= |c| && (forall j | 1 <= j < m :: c[j] !in Live(t))
    && if m < |c| then t.current[i] == c[m] && Chain(t, c[m]) == c[m..] else t.current[i] == NULL
  }

  /** Where stepping iterator i leads: position m of its chain, past nodes no longer in the
      list only. */
  lemma NextTarget<D(!new)>(s: Shape<D>, i: Id) returns (m: nat)
    requires WellFormed(s) && i in s.current && s.current[i] != NULL
    ensures SteppedTo(s, Advance(s, i), i, m) && Live(Advance(s, i)) == Live(s)
  {
    var cur, rel, r := s.current[i], s.(current := s.current[i := NULL]), Released(s, i);
    var t, c := Advance(s, i), Chain(s, s.current[i]);
    AdvanceEffect(s, i);
    CursorChains(s, rel.current);
    CursorChains(r, t.current);
    ChainAllocated(t, t.first);
    var n := FirstKeptAt(c[1..], r.next.Keys);
    m := n + 1;
    if m < |c| {
      KeepChain(rel, Traced(rel), c[m]);
      ChainSuffix(s, cur, m);
    }
    forall j | 1 <= j < m ensures c[j] !in Live(t) {
      assert c[1..][j - 1] == c[j];
    }
  }

  /** Stepping iterator i: the node it goes on to is smaller, and no item that stays in the list
      is skipped. */
  lemma NextSkipsNothing<D(!new)>(s: Shape<D>, t: Shape<D>, i: Id)
    requires Step(s, Op.Next(i), t) && s.current[i] != NULL
    ensures WellFormed(t) && i in t.current && Live(t) == Live(s)
    ensures s.current[i] in s.data
    ensures t.current[i] != NULL ==>
              t.current[i] in t.data && s.cmp(s.data[s.current[i]], t.data[t.current[i]]) > 0
    ensures forall q | q in Chain(s, s.current[i]) && q != s.current[i] && q in Live(t) ::
              q in Chain(t, t.current[i])
  {
    var m := NextTarget(s, i);
    NextDescends(s, t, i, m);
    NextKeepsAhead(s, t, i, m);
  }

  lemma NextDescends<D(!new)>(s: Shape<D>, t: Shape<D>, i: Id, m: nat)
    requires Step(s, Op.Next(i), t) && s.current[i] != NULL && SteppedTo(s, t, i, m)
    ensures s.current[i] in s.data
    ensures t.current[i] != NULL ==>
              t.current[i] in t.data && s.cmp(s.data[s.current[i]], t.data[t.current[i]]) > 0
  {
    var c := Chain(s, s.current[i]);
    ChainDescends(s, s.current[i]);
    StepKeepsData(s, Op.Next(i), t);
    if m < |c| { assert s.cmp(DataOf(s, c)[0], DataOf(s, c)[m]) > 0; }
  }

  lemma NextKeepsAhead<D(!new)>(s: Shape<D>, t: Shape<D>, i: Id, m: nat)
    requires WellFormed(s) && i in s.current && s.current[i] != NULL && SteppedTo(s, t, i, m)
    ensures forall q | q in Chain(s, s.current[i]) && q != s.current[i] && q in Live(t) ::
              q in Chain(t, t.current[i])
  {
    var c := Chain(s, s.current[i]);
    forall q | q in c && q != s.current[i] && q in Live(t) ensures q in Chain(t, t.current[i]) {
      var j :| 0 <= j < |c| && c[j] == q;
      assert c[m..][j - m] == q;
    }
  }

  lemma {:induction false} FirstKeptAt(c: seq<Ptr>, kept: set<Ptr>) returns (m: nat)
    requires NULL !in kept
    ensures m <= |c| && forall j | 0 <= j < m :: c[j] !in kept
    ensures if m < |c| then c[m] in kept && FirstKept(c, kept) == c[m] else FirstKept(c, kept) == NULL
  {
    if c == [] || c[0] in kept {
      m := 0;
    } else {
      var n := FirstKeptAt(c[1..], kept);
      m := n + 1;
    }
  }

  // ----- A whole walk -----

  ghost function Yield<D>(t: Shape<D>, op: Op<D>, i: Id): seq<D> {
    if (op == Op.Begin(i) || op == Op.Next(i)) && i in t.current && t.current[i] in t.data
    then [t.data[t.current[i]]] else []
  }

  /** The items SLGetItem and SLNextItem give for iterator i during the first k operations. */
  ghost function Yields<D>(states: seq<Shape<D>>, ops: seq<Op<D>>, i: Id, k: nat): seq<D>
    requires |states| == |ops| + 1 && k <= |ops|
  {
    if k == 0 then [] else Yields(states, ops, i, k - 1) + Yield(states[k], ops[k - 1], i)
  }

  /** A run that starts by creating iterator i and does not destroy it; anything else may
      happen in between. */
  ghost predicate IsWalk<D(!new)>(states: seq<Shape<D>>, ops: seq<Op<D>>, i: Id) {
    && IsRun(states, ops) && |ops| >= 1 && ops[0] == Op.Begin(i)
    && forall k | 1 <= k < |ops| :: ops[k] != Op.End(i)
  }

  /** Node p is in the list from the creation of the iterator to the end of operation k. */
  ghost predicate Stays<D(!new)>(states: seq<Shape<D>>, k: nat, p: Ptr)
    requires k < |states|
  {
    forall j | 1 <= j <= k :: WellFormed(states[j]) && p in Live(states[j])
  }

  ghost predicate WalkedSoFar<D(!new)>(t: Shape<D>, i: Id, yielded: seq<D>, p: Ptr)
    requires WellFormed(t) && i in t.current
  {
    && p in t.data
    && (t.data[p] in yielded || (p in Chain(t, t.current[i]) && p != t.current[i]))
  }

  /** What has been given descends, down to the item the iterator stands on. */
  ghost predicate StandsBelow<D(!new)>(t: Shape<D>, i: Id, yielded: seq<D>)
    requires WellFormed(t) && i in t.current
  {
    && Descending(t.cmp, yielded)
    && (t.current[i] != NULL ==>
          t.current[i] in t.data && yielded != [] && yielded[|yielded| - 1] == t.data[t.current[i]])
  }

  ghost predicate WalkInvariant<D(!new)>(states: seq<Shape<D>>, ops: seq<Op<D>>, i: Id, k: nat)
    requires |states| == |ops| + 1 && k <= |ops|
  {
    var t, yielded := states[k], Yields(states, ops, i, k);
    && WellFormed(t) && i in t.current && t.cmp == states[0].cmp
    && StandsBelow(t, i, yielded)
    && (forall p | Stays(states, k, p) :: WalkedSoFar(t, i, yielded, p))
  }

  lemma StepKeepsData<D(!new)>(s: Shape<D>, op: Op<D>, t: Shape<D>)
    requires Step(s, op, t)
    ensures forall q | q in s.data && q in t.data :: t.data[q] == s.data[q]
  {
    match op
    case Insert(d, p) => assert t == InsertNode(s, d, p);
    case Next(i) => assert t == Advance(s, i);
    case _ =>
  }

  lemma WalkBegins<D(!new)>(states: seq<Shape<D>>, ops: seq<Op<D>>, i: Id)
    requires IsWalk(states, ops, i)
    ensures WalkInvariant(states, ops, i, 1)
  {
    assert Step(states[0], ops[0], states[1]);
    StepSound(states[0], ops[0], states[1]);
    var t := states[1];
    ChainAllocated(t, t.first);
    assert Yields(states, ops, i, 0) == [];
    assert Yields(states, ops, i, 1) == Yield(t, ops[0], i);
    forall p | Stays(states, 1, p) ensures WalkedSoFar(t, i, Yields(states, ops, i, 1), p) {
      assert p in Live(t);
    }
  }

  lemma WalkGoesOn<D(!new)>(states: seq<Shape<D>>, ops: seq<Op<D>>, i: Id, k: nat)
    requires IsWalk(states, ops, i) && 1 <= k < |ops| && WalkInvariant(states, ops, i, k)
    ensures WalkInvariant(states, ops, i, k + 1)
  {
    var s, t := states[k], states[k + 1];
    var before := Yields(states, ops, i, k);
    assert Step(s, ops[k], t);
    WalkStep(s, ops[k], t, i, before);
    forall p | Stays(states, k + 1, p) ensures WalkedSoFar(t, i, before + Yield(t, ops[k], i), p) {
      assert Stays(states, k, p) && p in Live(t);
      assert WalkedSoFar(s, i, before, p);
    }
  }

  /** One operation of the run, seen by iterator i. */
  lemma WalkStep<D(!new)>(s: Shape<D>, op: Op<D>, t: Shape<D>, i: Id, before: seq<D>)
    requires Step(s, op, t) && i in s.current && op != Op.End(i)
    requires StandsBelow(s, i, before)
    ensures WellFormed(t) && i in t.current && t.cmp == s.cmp
    ensures StandsBelow(t, i, before + Yield(t, op, i))
    ensures forall p | p in Live(t) && WalkedSoFar(s, i, before, p) ::
              WalkedSoFar(t, i, before + Yield(t, op, i), p)
  {
    StepSound(s, op, t);
    StepKeepsData(s, op, t);
    ChainAllocated(t, t.first);
    if op == Op.Next(i) && s.current[i] != NULL {
      NextSkipsNothing(s, t, i);
      StillDescending(s.cmp, before, Yield(t, op, i));
    } else {
      if op != Op.Next(i) { OthersKeepAhead(s, op, t, i); }
      assert before + [] == before;
      if t.current[i] != NULL { ChainAllocated(t, t.current[i]); }
    }
  }

  lemma StillDescending<D(!new)>(cmp: (D, D) -> int, s: seq<D>, more: seq<D>)
    requires IsComparator(cmp) && Descending(cmp, s) && s != [] && |more| <= 1
    requires more != [] ==> cmp(s[|s| - 1], more[0]) > 0
    ensures Descending(cmp, s + more)
  {
    if more != [] {
      forall j | 0 <= j < |s| - 1 ensures cmp(s[j], more[0]) > 0 {
        StrictTransitive(cmp, s[j], s[|s| - 1], more[0]);
      }
    }
  }

  lemma {:induction false} WalkHolds<D(!new)>(states: seq<Shape<D>>, ops: seq<Op<D>>, i: Id, k: nat)
    requires IsWalk(states, ops, i) && 1 <= k <= |ops|
    ensures WalkInvariant(states, ops, i, k)
  {
    if k == 1 {
      WalkBegins(states, ops, i);
    } else {
      WalkHolds(states, ops, i, k - 1);
      WalkGoesOn(states, ops, i, k - 1);
    }
  }

  /** The promise of the iterator, kept under any interference: what it gives strictly descends,
      and once it has come to its end, an item that was in the list all along has been given
      exactly once. */
  lemma IteratorComplete<D(!new)>(states: seq<Shape<D>>, ops: seq<Op<D>>, i: Id, p: Ptr)
    requires IsWalk(states, ops, i)
    requires i in states[|ops|].current && states[|ops|].current[i] == NULL
    requires Stays(states, |ops|, p)
    ensures Descending(states[0].cmp, Yields(states, ops, i, |ops|))
    ensures p in states[|ops|].data
    ensures multiset(Yields(states, ops, i, |ops|))[states[|ops|].data[p]] == 1
  {
    WalkHolds(states, ops, i, |ops|);
    assert WalkedSoFar(states[|ops|], i, Yields(states, ops, i, |ops|), p);
    DescendingOnce(states[|ops|].cmp, Yields(states, ops, i, |ops|), states[|ops|].data[p]);
  }

  lemma DescendingOnce<D(!new)>(cmp: (D, D) -> int, s: seq<D>, x: D)
    requires IsComparator(cmp) && Descending(cmp, s) && x in s
    ensures multiset(s)[x] == 1
  {
    var k :| 0 <= k < |s| && s[k] == x;
    Antisymmetric(cmp, x, x);
    forall j | 0 <= j < |s| && j != k ensures s[j] != x {
      assert j < k ==> cmp(s[j], s[k]) > 0;
      assert j > k ==> cmp(s[k], s[j]) > 0;
    }
    OccursOnce(s, k);
  }

  lemma OccursOnce<D>(s: seq<D>, k: nat)
    requires k < |s| && forall j | 0 <= j < |s| && j != k :: s[j] != s[k]
    ensures multiset(s)[s[k]] == 1
  {
    assert s == s[..k] + [s[k]] + s[k + 1..];
    assert s[k] !in s[..k] && s[k] !in s[k + 1..];
  }

  // ----- A walk nobody interferes with -----

  ghost function OnNode<D(!new)>(s: Shape<D>, i: Id, k: nat): Shape<D>
    requires WellFormed(s)
  {
    s.(current := s.current[i := At(Live(s), k)])
  }

  lemma QuietStands<D(!new)>(s: Shape<D>, i: Id, k: nat)
    requires AllReachable(s) && i !in s.current
    ensures Enabled(s, Op.Begin(i)) && Apply(s, Op.Begin(i)) == OnNode(s, i, 0)
    ensures AllReachable(OnNode(s, i, k)) && |Items(s)| == |Live(s)|
    ensures Current(OnNode(s, i, k), i) == if k < |Items(s)| then Some(Items(s)[k]) else None
  {
    LiveAt(s, 0);
    ChainAllocated(s, s.first);
    Retarget(s, i, At(Live(s), k));
  }

  lemma PutTwice(m: map<Id, Ptr>, i: Id, x: Ptr, y: Ptr)
    ensures m[i := x][i := y] == m[i := y]
  {
  }

  lemma QuietStep<D(!new)>(s: Shape<D>, i: Id, k: nat)
    requires AllReachable(s) && i !in s.current && WellFormed(OnNode(s, i, k)) && k < |Live(s)|
    ensures Advance(OnNode(s, i, k), i) == OnNode(s, i, k + 1)
  {
    var on, rel := OnNode(s, i, k), s.(current := s.current[i := NULL]);
    LiveAt(s, k);
    CursorChains(s, on.current);
    PutTwice(s.current, i, At(Live(s), k), NULL);
    PutTwice(s.current, i, At(Live(s), k), At(Live(s), k + 1));
    PutTwice(s.current, i, NULL, At(Live(s), k + 1));
    Retarget(s, i, NULL);
    ListCounts.SweepIdle(rel);
    assert Chain(on, on.current[i])[1..] == Live(s)[k + 1..];
    ChainAllocated(s, s.first);
    assert FirstKept(Live(s)[k + 1..], rel.next.Keys) == At(Live(s), k + 1);
  }

  lemma QuietEnd<D(!new)>(s: Shape<D>, i: Id, k: nat)
    requires AllReachable(s) && i !in s.current && WellFormed(OnNode(s, i, k))
    ensures Apply(OnNode(s, i, k), Op.End(i)) == s
  {
    var on := OnNode(s, i, k);
    assert on.current - {i} == s.current;
    assert on.(current := on.current - {i}) == s;
    ListCounts.SweepIdle(s);
  }

  /** Such a walk gives the items one by one in list order, frees nothing, and once its iterator
      is destroyed leaves the graph, and with it every reference count, as it was. */
  lemma QuietWalk<D(!new)>(s: Shape<D>, i: Id, k: nat)
    requires AllReachable(s) && i !in s.current
    ensures Enabled(s, Op.Begin(i)) && Apply(s, Op.Begin(i)) == OnNode(s, i, 0)
    ensures WellFormed(OnNode(s, i, k))
    ensures Current(OnNode(s, i, k), i) == if k < |Items(s)| then Some(Items(s)[k]) else None
    ensures Apply(OnNode(s, i, k), Op.Next(i)) == OnNode(s, i, k + 1)
    ensures Apply(OnNode(s, i, k), Op.End(i)) == s
  {
    QuietStands(s, i, k);
    QuietEnd(s, i, k);
    if k < |Live(s)| {
      ChainAllocated(s, s.first);
      LiveAt(s, k);
      QuietStep(s, i, k);
    }
  }
}
