/** What each list operation does to the pointer graph. Memory is reclaimed here by tracing: a
    node is kept exactly when a chain from the list or from an iterator meets it. */
module ListSpec {
  import opened Order
  import opened ListShape
  import opened Options

  // ----- Tracing reclamation -----

  ghost predicate Reachable<D(!new)>(s: Shape<D>, p: Ptr)
    requires WellFormed(s)
  {
    p in Live(s) || exists i :: i in s.current && p in Chain(s, s.current[i])
  }

  ghost predicate AllReachable<D(!new)>(s: Shape<D>) {
    WellFormed(s) && forall p | p in s.next :: Reachable(s, p)
  }

  ghost function Keep<D>(s: Shape<D>, kept: set<Ptr>): Shape<D> {
    s.(next := map p | p in s.next && p in kept :: s.next[p],
       data := map p | p in s.data && p in kept :: s.data[p])
  }

  lemma KeepTwice<D>(s: Shape<D>, a: set<Ptr>, b: set<Ptr>)
    requires b <= a
    ensures Keep(Keep(s, a), b) == Keep(s, b)
  {
  }

  ghost function Traced<D(!new)>(s: Shape<D>): set<Ptr>
    requires WellFormed(s)
  {
    set p | p in s.next && Reachable(s, p)
  }

  ghost function Sweep<D(!new)>(s: Shape<D>): Shape<D>
    requires WellFormed(s)
  {
    Keep(s, Traced(s))
  }

  lemma ReachableClosed<D(!new)>(s: Shape<D>, p: Ptr)
    requires WellFormed(s) && p in s.next && Reachable(s, p)
    ensures Points(s, s.next[p])
    ensures s.next[p] == NULL || Reachable(s, s.next[p])
  {
    if p in Live(s) {
      var k :| 0 <= k < |Live(s)| && Live(s)[k] == p;
      ChainSuffix(s, s.first, k);
    } else {
      var i :| i in s.current && p in Chain(s, s.current[i]);
      var c := Chain(s, s.current[i]);
      var k :| 0 <= k < |c| && c[k] == p;
      ChainSuffix(s, s.current[i], k);
    }
  }

  /** Keeping a set of nodes closed under every pointer leaves a well-formed graph in which
      the kept nodes have the chains they had. */
  lemma KeepWellFormed<D(!new)>(s: Shape<D>, kept: set<Ptr>)
    requires WellFormed(s)
    requires s.first == NULL || s.first in kept
    requires forall i | i in s.current :: s.current[i] == NULL || s.current[i] in kept
    requires forall p | p in s.next && p in kept :: s.next[p] == NULL || s.next[p] in kept
    ensures WellFormed(Keep(s, kept))
  {
    var t := Keep(s, kept);
    forall p | p in t.next ensures EdgeOk(t, p) {
      assert EdgeOk(s, p);
    }
  }

  lemma {:induction false} KeepChain<D(!new)>(s: Shape<D>, kept: set<Ptr>, p: Ptr)
    requires WellFormed(s) && WellFormed(Keep(s, kept))
    requires Points(s, p) && (p == NULL || p in kept)
    ensures Chain(Keep(s, kept), p) == Chain(s, p)
    ensures forall q | q in Chain(s, p) :: q in kept
    decreases |Chain(s, p)|
  {
    if p != NULL {
      DownSetShrinks(s, p);
      assert EdgeOk(Keep(s, kept), p);
      KeepChain(s, kept, s.next[p]);
    }
  }

  /** A sweep frees unreachable nodes only: the list and what every iterator has in front of it
      stay as they were, and nothing unreachable is left. */
  lemma SweepKeeps<D(!new)>(s: Shape<D>)
    requires WellFormed(s)
    ensures AllReachable(Sweep(s))
    ensures Live(Sweep(s)) == Live(s) && Items(Sweep(s)) == Items(s)
    ensures forall i | i in s.current :: Chain(Sweep(s), s.current[i]) == Chain(s, s.current[i])
  {
    var t := Sweep(s);
    RootsTraced(s);
    forall p | p in s.next && p in Traced(s) ensures s.next[p] == NULL || s.next[p] in Traced(s) {
      ReachableClosed(s, p);
    }
    KeepWellFormed(s, Traced(s));
    KeepChain(s, Traced(s), s.first);
    forall i | i in s.current ensures Chain(t, s.current[i]) == Chain(s, s.current[i]) {
      KeepChain(s, Traced(s), s.current[i]);
    }
    ChainAllocated(t, t.first);
    ChainAllocated(s, s.first);
    forall p | p in t.next ensures Reachable(t, p) {
      assert Reachable(s, p);
    }
  }

  lemma RootsTraced<D(!new)>(s: Shape<D>)
    requires WellFormed(s)
    ensures s.first == NULL || s.first in Traced(s)
    ensures forall i | i in s.current :: s.current[i] == NULL || s.current[i] in Traced(s)
  {
    if s.first != NULL { assert s.first == Live(s)[0]; }
    forall i | i in s.current && s.current[i] != NULL ensures s.current[i] in Traced(s) {
      assert s.current[i] == Chain(s, s.current[i])[0];
    }
  }

  /** Any way of freeing nodes that keeps the pointers intact and leaves no unreachable node
      is the sweep. */
  lemma SweepUnique<D(!new)>(s: Shape<D>, t: Shape<D>)
    requires WellFormed(s) && AllReachable(t)
    requires t == Keep(s, t.next.Keys) && t.next.Keys <= s.next.Keys
    ensures t == Sweep(s)
  {
    KeepChain(s, t.next.Keys, s.first);
    forall i | i in s.current
      ensures Chain(t, s.current[i]) == Chain(s, s.current[i])
      ensures forall q | q in Chain(s, s.current[i]) :: q in t.next
    {
      KeepChain(s, t.next.Keys, s.current[i]);
    }
    assert t.next.Keys == Traced(s) by {
      forall p ensures p in t.next.Keys <==> p in Traced(s) {
        if p in t.next.Keys { assert Reachable(t, p); }
      }
    }
  }

  // ----- The operations -----

  /** The node before position k of c, and the node at it. */
  function Before(c: seq<Ptr>, k: nat): Ptr {
    if 0 < k <= |c| then c[k - 1] else NULL
  }

  function At(c: seq<Ptr>, k: nat): Ptr {
    if k < |c| then c[k] else NULL
  }

  ghost predicate Found<D(!new)>(s: Shape<D>, d: D)
    requires WellFormed(s)
  {
    Member(s.cmp, Items(s), d)
  }

  ghost function Place<D(!new)>(s: Shape<D>, d: D): nat
    requires WellFormed(s)
  {
    Rank(s.cmp, Items(s), d)
  }

  ghost function Link<D>(s: Shape<D>, prev: Ptr, p: Ptr, d: D, n: Ptr): Shape<D> {
    if prev == NULL then s.(first := p, next := s.next[p := n], data := s.data[p := d])
    else s.(next := s.next[p := n][prev := p], data := s.data[p := d])
  }

  ghost function Unlink<D>(s: Shape<D>, prev: Ptr, n: Ptr): Shape<D> {
    if prev == NULL then s.(first := n) else s.(next := s.next[prev := n])
  }

  ghost function InsertNode<D(!new)>(s: Shape<D>, d: D, p: Ptr): Shape<D>
    requires WellFormed(s)
  {
    var k := Place(s, d);
    if Found(s, d) then s else Link(s, Before(Live(s), k), p, d, At(Live(s), k))
  }

  ghost function UnlinkNode<D(!new)>(s: Shape<D>, d: D): Shape<D>
    requires WellFormed(s)
  {
    var k := Place(s, d);
    Unlink(s, Before(Live(s), k), At(Live(s), k + 1))
  }

  /** The first node of a chain that survives. */
  function FirstKept(c: seq<Ptr>, kept: set<Ptr>): (p: Ptr)
    ensures p == NULL || p in kept
  {
    if c == [] then NULL else if c[0] in kept then c[0] else FirstKept(c[1..], kept)
  }

  /** An iterator moves to the first node behind it that its leaving does not free. */
  ghost function Advance<D(!new)>(s: Shape<D>, i: Id): Shape<D>
    requires WellFormed(s) && i in s.current
  {
    var cur := s.current[i];
    if cur == NULL then s
    else
      var t := Released(s, i);
      var tail := Chain(s, cur)[1..];
      t.(current := t.current[i := FirstKept(tail, t.next.Keys)])
  }

  lemma CursorsWellFormed<D(!new)>(s: Shape<D>, current: map<Id, Ptr>)
    requires WellFormed(s) && forall i | i in current :: Points(s, current[i])
    ensures WellFormed(s.(current := current))
  {
    var t := s.(current := current);
    forall q | q in t.next ensures EdgeOk(t, q) { assert EdgeOk(s, q); }
  }

  /** The graph once iterator i has let go of its node. */
  ghost function Released<D(!new)>(s: Shape<D>, i: Id): Shape<D>
    requires WellFormed(s) && i in s.current
  {
    CursorsWellFormed(s, s.current[i := NULL]);
    Sweep(s.(current := s.current[i := NULL]))
  }

  /** The item an iterator stands on. */
  ghost function Current<D(!new)>(s: Shape<D>, i: Id): Option<D>
    requires WellFormed(s) && i in s.current
  {
    if s.current[i] == NULL then None else Some(s.data[s.current[i]])
  }

  datatype Op<!D> =
    | Insert(d: D, p: Ptr)
    | Remove(d: D)
    | Begin(i: Id)
    | Next(i: Id)
    | End(i: Id)
    | Clear

  ghost predicate Enabled<D>(s: Shape<D>, op: Op<D>) {
    match op
    case Insert(_, p) => p != NULL && p !in s.next
    case Begin(i) => i !in s.current
    case Next(i) => i in s.current
    case End(i) => i in s.current
    case _ => true
  }

  ghost function Apply<D(!new)>(s: Shape<D>, op: Op<D>): Shape<D>
    requires WellFormed(s) && Enabled(s, op)
  {
    match op
    case Insert(d, p) => InsertNode(s, d, p)
    case Remove(d) => if Found(s, d) then UnlinkEffect(s, d); Sweep(UnlinkNode(s, d)) else s
    case Begin(i) => s.(current := s.current[i := s.first])
    case Next(i) => Advance(s, i)
    case End(i) => CursorsWellFormed(s, s.current - {i}); Sweep(s.(current := s.current - {i}))
    case Clear => ClearWellFormed(s); Sweep(s.(first := NULL))
  }

  lemma ClearWellFormed<D(!new)>(s: Shape<D>)
    requires WellFormed(s)
    ensures WellFormed(s.(first := NULL))
  {
    var t := s.(first := NULL);
    forall q | q in t.next ensures EdgeOk(t, q) { assert EdgeOk(s, q); }
  }

  // ----- Their effect on the list and on everybody's chains -----

  lemma {:induction false} ChainPath<D(!new)>(s: Shape<D>, c: seq<Ptr>)
    requires WellFormed(s) && c != []
    requires forall i :: 0 <= i < |c| - 1 ==> c[i] in s.next && s.next[c[i]] == c[i + 1]
    requires Points(s, c[|c| - 1])
    ensures Points(s, c[0])
    ensures Chain(s, c[0]) == c[..|c| - 1] + Chain(s, c[|c| - 1])
  {
    if |c| > 1 {
      ChainPath(s, c[1..]);
      assert c[0] != NULL;
      assert c[..|c| - 1] == [c[0]] + c[1..][..|c| - 2];
      assert c[1..][|c| - 2] == c[|c| - 1];
    } else {
      assert c[..0] == [];
    }
  }

  /** From s to t, node q got a node p put behind it, lost the node r behind it, or was left
      alone. */
  ghost predicate Detour<D>(s: Shape<D>, t: Shape<D>, p: Ptr, r: Ptr, q: Ptr)
    requires q in s.next
  {
    && q in t.next
    && (|| t.next[q] == s.next[q]
        || (t.next[q] == p && p != NULL && p in t.next && t.next[p] == s.next[q])
        || (s.next[q] == r && r != NULL && r in s.next && t.next[q] == s.next[r]))
  }

  /** Whoever had node q in front of it still has, unless q is the node taken out. */
  lemma {:induction false} ChainSurvives<D(!new)>(s: Shape<D>, t: Shape<D>, p: Ptr, r: Ptr, x: Ptr)
    requires WellFormed(s) && WellFormed(t) && Points(s, x)
    requires forall q {:trigger Detour(s, t, p, r, q)} | q in s.next :: Detour(s, t, p, r, q)
    ensures Points(t, x)
    ensures forall q | q in Chain(s, x) && q != r :: q in Chain(t, x)
    decreases |Chain(s, x)|
  {
    if x != NULL {
      DownSetShrinks(s, x);
      assert Detour(s, t, p, r, x);
      DownSetShrinks(t, x);
      var n := s.next[x];
      if t.next[x] == n {
        ChainSurvives(s, t, p, r, n);
      } else if t.next[x] == p && p != NULL && p in t.next && t.next[p] == n {
        DownSetShrinks(t, p);
        ChainSurvives(s, t, p, r, n);
      } else {
        DownSetShrinks(s, r);
        ChainSurvives(s, t, p, r, s.next[r]);
      }
    }
  }

  lemma LiveAt<D(!new)>(s: Shape<D>, k: nat)
    requires WellFormed(s) && k <= |Live(s)|
    ensures |Items(s)| == |Live(s)|
    ensures k == 0 ==> s.first == At(Live(s), 0)
    ensures k < |Live(s)| ==>
              && Live(s)[k] in s.next && Live(s)[k] != NULL
              && s.data[Live(s)[k]] == Items(s)[k]
              && s.next[Live(s)[k]] == At(Live(s), k + 1)
              && Live(s)[k] !in Live(s)[k + 1..]
    ensures Chain(s, At(Live(s), k)) == Live(s)[k..]
  {
    ChainAllocated(s, s.first);
    if k < |Live(s)| {
      ChainSuffix(s, s.first, k);
      ChainDescends(s, s.first);
      if Live(s)[k] in Live(s)[k + 1..] {
        var j :| k < j < |Live(s)| && Live(s)[j] == Live(s)[k];
        Antisymmetric(s.cmp, Items(s)[j], Items(s)[k]);
      }
    }
  }

  lemma FoundAtPlace<D(!new)>(s: Shape<D>, d: D)
    requires WellFormed(s)
    ensures |Items(s)| == |Live(s)|
    ensures Found(s, d) <==> Place(s, d) < |Items(s)| && s.cmp(Items(s)[Place(s, d)], d) == 0
  {
    ChainDescends(s, s.first);
    RankLocates(s.cmp, Items(s), d);
  }

  /** The two nodes between which d belongs. */
  lemma Neighbours<D(!new)>(s: Shape<D>, d: D)
    requires WellFormed(s) && !Found(s, d)
    ensures var k, l := Place(s, d), Live(s);
            var prev, n := Before(l, k), At(l, k);
            && k <= |l| && (prev == NULL <==> k == 0)
            && Points(s, n) && (n != NULL ==> s.cmp(d, s.data[n]) > 0)
            && (if prev == NULL then s.first == n
                else prev in s.next && s.next[prev] == n && s.cmp(s.data[prev], d) > 0)
            && (prev == NULL || prev !in Chain(s, n))
  {
    var k := Place(s, d);
    LiveAt(s, 0);
    LiveAt(s, k);
    if k > 0 { LiveAt(s, k - 1); }
    ChainDescends(s, s.first);
    RankLocates(s.cmp, Items(s), d);
  }

  lemma LinkWellFormed<D(!new)>(s: Shape<D>, prev: Ptr, p: Ptr, d: D, n: Ptr)
    requires WellFormed(s) && p != NULL && p !in s.next
    requires Points(s, n) && (n != NULL ==> s.cmp(d, s.data[n]) > 0)
    requires if prev == NULL then s.first == n
             else prev in s.next && s.next[prev] == n && s.cmp(s.data[prev], d) > 0
    ensures WellFormed(Link(s, prev, p, d, n))
  {
    var t := Link(s, prev, p, d, n);
    forall q | q in t.next ensures EdgeOk(t, q) {
      if q in s.next { assert EdgeOk(s, q); }
    }
  }

  lemma LinkedChain<D(!new)>(s: Shape<D>, prev: Ptr, p: Ptr, d: D, n: Ptr)
    requires WellFormed(s) && WellFormed(Link(s, prev, p, d, n))
    requires p != NULL && p !in s.next && p != prev && Points(s, n) && (prev == NULL || prev !in Chain(s, n))
    ensures Chain(Link(s, prev, p, d, n), p) == [p] + Chain(s, n)
  {
    ChainAllocated(s, n);
    ChainFrame(s, Link(s, prev, p, d, n), n);
  }

  /** Insertion puts d in its place in the list. */
  lemma InsertEffect<D(!new)>(s: Shape<D>, d: D, p: Ptr)
    requires WellFormed(s) && !Found(s, d) && p != NULL && p !in s.next
    ensures WellFormed(InsertNode(s, d, p))
    ensures Live(InsertNode(s, d, p)) == Live(s)[..Place(s, d)] + [p] + Live(s)[Place(s, d)..]
  {
    Neighbours(s, d);
    var t, k, l := InsertNode(s, d, p), Place(s, d), Live(s);
    LinkWellFormed(s, Before(l, k), p, d, At(l, k));
    LiveAt(s, k);
    if k > 0 { LiveAt(s, k - 1); }
    LinkedChain(s, Before(l, k), p, d, At(l, k));
    if k > 0 { PrefixPath(s, t, k, p); }
  }

  /** The first k nodes of the list lead, in t, to p. */
  lemma PrefixPath<D(!new)>(s: Shape<D>, t: Shape<D>, k: nat, p: Ptr)
    requires WellFormed(s) && WellFormed(t) && 0 < k <= |Live(s)| && Points(t, p)
    requires t.first == s.first
    requires forall q | q in s.next && q != Live(s)[k - 1] :: q in t.next && t.next[q] == s.next[q]
    requires Live(s)[k - 1] in t.next && t.next[Live(s)[k - 1]] == p
    ensures Live(t) == Live(s)[..k] + Chain(t, p)
  {
    var c := Live(s)[..k] + [p];
    forall i | 0 <= i < k ensures c[i] in t.next && t.next[c[i]] == c[i + 1] {
      LiveAt(s, i);
      assert i < k - 1 ==> Live(s)[i + 1..][k - 2 - i] == Live(s)[k - 1];
    }
    LiveAt(s, 0);
    ChainPath(t, c);
    assert c[..|c| - 1] == Live(s)[..k];
  }

  /** Insertion takes nothing away from any chain. */
  lemma InsertKeepsChains<D(!new)>(s: Shape<D>, d: D, p: Ptr)
    requires WellFormed(s) && !Found(s, d) && p != NULL && p !in s.next
    ensures WellFormed(InsertNode(s, d, p))
    ensures forall x, q | Points(s, x) && q in Chain(s, x) :: q in Chain(InsertNode(s, d, p), x)
  {
    Neighbours(s, d);
    var t, k, l := InsertNode(s, d, p), Place(s, d), Live(s);
    LinkWellFormed(s, Before(l, k), p, d, At(l, k));
    forall x, q | Points(s, x) && q in Chain(s, x) ensures q in Chain(t, x) {
      ChainAllocated(s, x);
      ChainSurvives(s, t, p, NULL, x);
    }
  }

  lemma DataSplice<D(!new)>(s: Shape<D>, t: Shape<D>, l: seq<Ptr>, k: nat, m: seq<Ptr>, j: nat)
    requires k <= |l| && j <= |l|
    requires forall q | q in l :: q in s.data && q in t.data && s.data[q] == t.data[q]
    requires forall q | q in m :: q in t.data
    ensures forall q | q in l[..k] + m + l[j..] :: q in t.data
    ensures DataOf(t, l[..k] + m + l[j..]) == DataOf(s, l)[..k] + DataOf(t, m) + DataOf(s, l)[j..]
  {
  }

  lemma InsertItems<D(!new)>(s: Shape<D>, d: D, p: Ptr)
    requires WellFormed(s) && p != NULL && p !in s.next
    ensures WellFormed(InsertNode(s, d, p))
    ensures Items(InsertNode(s, d, p)) == Inserted(s.cmp, Items(s), d)
  {
    FoundAtPlace(s, d);
    ChainAllocated(s, s.first);
    if !Found(s, d) {
      InsertEffect(s, d, p);
      var t, k := InsertNode(s, d, p), Place(s, d);
      DataSplice(s, t, Live(s), k, [p], k);
      assert DataOf(t, [p]) == [d];
      assert Inserted(s.cmp, Items(s), d) == Items(s)[..k] + [d] + Items(s)[k..];
    }
  }

  /** The node that holds the item equal to d, and the nodes around it. */
  lemma Surroundings<D(!new)>(s: Shape<D>, d: D)
    requires WellFormed(s) && Found(s, d)
    ensures var k, l := Place(s, d), Live(s);
            && k < |l|
            && var prev, r, n := Before(l, k), l[k], At(l, k + 1);
            && (prev == NULL <==> k == 0)
            && r in s.next && r != NULL && s.next[r] == n && Points(s, n)
            && s.cmp(s.data[r], d) == 0
            && (if prev == NULL then s.first == r
                else prev in s.next && s.next[prev] == r && prev != r && prev !in Chain(s, n))
  {
    var k := Place(s, d);
    FoundAtPlace(s, d);
    LiveAt(s, 0);
    LiveAt(s, k);
    LiveAt(s, k + 1);
    if k > 0 {
      LiveAt(s, k - 1);
      assert Live(s)[k..][1..] == Live(s)[k + 1..];
    }
  }

  lemma UnlinkWellFormed<D(!new)>(s: Shape<D>, prev: Ptr, r: Ptr, n: Ptr)
    requires WellFormed(s) && r in s.next && r != NULL && s.next[r] == n
    requires if prev == NULL then s.first == r else prev in s.next && s.next[prev] == r
    ensures WellFormed(Unlink(s, prev, n))
  {
    var t := Unlink(s, prev, n);
    assert EdgeOk(s, r);
    forall q | q in t.next ensures EdgeOk(t, q) {
      assert EdgeOk(s, q);
      if q == prev && n != NULL { StrictTransitive(s.cmp, s.data[prev], s.data[r], s.data[n]); }
    }
  }

  lemma UnlinkedChain<D(!new)>(s: Shape<D>, prev: Ptr, n: Ptr)
    requires WellFormed(s) && WellFormed(Unlink(s, prev, n))
    requires Points(s, n) && (prev == NULL || prev !in Chain(s, n))
    ensures Chain(Unlink(s, prev, n), n) == Chain(s, n)
  {
    ChainAllocated(s, n);
    ChainFrame(s, Unlink(s, prev, n), n);
  }

  /** Unlinking takes the node of the item equal to d out of the list. */
  lemma UnlinkEffect<D(!new)>(s: Shape<D>, d: D)
    requires WellFormed(s) && Found(s, d)
    ensures Place(s, d) < |Live(s)|
    ensures WellFormed(UnlinkNode(s, d))
    ensures Live(UnlinkNode(s, d)) == Live(s)[..Place(s, d)] + Live(s)[Place(s, d) + 1..]
  {
    Surroundings(s, d);
    var t, k, l := UnlinkNode(s, d), Place(s, d), Live(s);
    UnlinkWellFormed(s, Before(l, k), l[k], At(l, k + 1));
    LiveAt(s, k + 1);
    if k > 0 { LiveAt(s, k - 1); }
    UnlinkedChain(s, Before(l, k), At(l, k + 1));
    if k > 0 { PrefixPath(s, t, k, At(l, k + 1)); }
  }

  /** Unlinking takes nothing but that node off any chain. */
  lemma UnlinkKeepsChains<D(!new)>(s: Shape<D>, d: D)
    requires WellFormed(s) && Found(s, d)
    ensures Place(s, d) < |Live(s)|
    ensures WellFormed(UnlinkNode(s, d))
    ensures forall x, q | Points(s, x) && q in Chain(s, x) && q != Live(s)[Place(s, d)] ::
              q in Chain(UnlinkNode(s, d), x)
  {
    Surroundings(s, d);
    var t, k, l := UnlinkNode(s, d), Place(s, d), Live(s);
    UnlinkWellFormed(s, Before(l, k), l[k], At(l, k + 1));
    forall x, q | Points(s, x) && q in Chain(s, x) && q != l[k] ensures q in Chain(t, x) {
      ChainAllocated(s, x);
      ChainSurvives(s, t, NULL, l[k], x);
    }
  }

  lemma UnlinkItems<D(!new)>(s: Shape<D>, d: D)
    requires WellFormed(s) && Found(s, d)
    ensures WellFormed(UnlinkNode(s, d))
    ensures Items(UnlinkNode(s, d)) == Removed(s.cmp, Items(s), d)
  {
    FoundAtPlace(s, d);
    UnlinkEffect(s, d);
    ChainAllocated(s, s.first);
    DataSplice(s, UnlinkNode(s, d), Live(s), Place(s, d), [], Place(s, d) + 1);
    assert Live(s)[..Place(s, d)] + [] == Live(s)[..Place(s, d)];
    assert DataOf(UnlinkNode(s, d), []) == [];
  }
}
