/** What a caller can rely on: every run of malloc and free, valid or erroneous. */
module HeapRuns {
  import opened HeapLayout
  import opened HeapSpec
  import opened Options

  /** The blocks that have been handed out and not freed. */
  function Alive(e: nat, h: nat, s: Heap): set<Chunk>
    requires e <= h
  {
    Live(e, 0, Layout(e, h, s))
  }

  ghost predicate Sound(e: nat, h: nat, s: Heap) {
    0 < e <= h && Canonical(e, h, Layout(e, h, s))
  }

  lemma InitiallySound(e: nat, h: nat)
    requires 0 < e <= h
    ensures Sound(e, h, Uninitialized) && Alive(e, h, Uninitialized) == {}
  {
    One(e, 0, Block(h - e, true));
  }

  /** Live payloads, and the headers in front of them, do not overlap. */
  ghost predicate Apart(e: nat, c: Chunk, d: Chunk) {
    c.address + c.size <= d.address - e || d.address + d.size <= c.address - e
  }

  lemma LiveApart(e: nat, b: seq<Block>, c: Chunk, d: Chunk)
    requires e > 0 && c in Live(e, 0, b) && d in Live(e, 0, b)
    ensures c != d ==> Apart(e, c, d) && c.address != d.address
    ensures e <= c.address && c.address + c.size <= Span(e, b)
  {
    var j := EntryOf(e, b, c);
    var k := EntryOf(e, b, d);
    OffOrder(e, b, j, k);
    ClearOfHeaders(e, b, c, j);
  }

  lemma EntryOf(e: nat, b: seq<Block>, c: Chunk) returns (j: nat)
    requires c in Live(e, 0, b)
    ensures j < |b| && !b[j].free && c == Chunk(Off(e, b, j) + e, b[j].size)
  {
    LiveIsEntry(e, 0, b, c);
    j :| 0 <= j < |b| && !b[j].free && c == Chunk(0 + Off(e, b, j) + e, b[j].size);
  }

  /** A live payload lies inside the arena and clear of every header, that of a free entry too. */
  lemma ClearOfHeaders(e: nat, b: seq<Block>, c: Chunk, k: nat)
    requires e > 0 && c in Live(e, 0, b) && k < |b|
    ensures c.address + c.size <= Off(e, b, k) || Off(e, b, k) + e <= c.address
    ensures e <= c.address && c.address + c.size <= Span(e, b)
  {
    var j := EntryOf(e, b, c);
    OffOrder(e, b, j, k);
    OffIncreases(e, b, j, |b|);
    assert b[..|b|] == b;
  }

  /** malloc succeeds exactly when some free entry is big enough for the request and a header;
      it then hands out new bytes apart from all live ones, and no live block changes. A failing
      malloc changes nothing. */
  lemma MallocEffect(e: nat, h: nat, s: Heap, n: nat)
    requires Sound(e, h, s)
    ensures var (t, r) := Malloc(e, h, s, n);
            && Sound(e, h, t)
            && (r == None <==> forall x | x in Layout(e, h, s) :: !Fits(e, x, n))
            && (r == None ==> Layout(e, h, t) == Layout(e, h, s))
            && (r.Some? ==>
                  && Alive(e, h, t) == Alive(e, h, s) + {Chunk(r.value, n)}
                  && forall c | c in Alive(e, h, s) :: Apart(e, c, Chunk(r.value, n)))
  {
    var b := Layout(e, h, s);
    var k := FirstFit(e, b, n);
    if k < |b| {
      SplitEffect(e, b, k, n);
      SplitShape(e, b, k, n);
      var c := Split(e, b, k, n);
      var m := Chunk(Off(e, b, k) + e, n);
      forall d | d in Live(e, 0, b) ensures Apart(e, d, m) {
        NewIsApart(e, b, k, n, d);
      }
      assert b[k] in b;
    }
  }

  /** malloc takes the lowest free entry with room for the request and one more header; NULL means
      that there is none. */
  lemma MallocTakesFirst(e: nat, h: nat, s: Heap, n: nat)
    requires e <= h
    ensures var b, r := Layout(e, h, s), Malloc(e, h, s, n).1;
            if r == None then forall j | 0 <= j < |b| :: !b[j].free || b[j].size < n + e
            else exists k :: 0 <= k < |b| && r.value == Off(e, b, k) + e && b[k].free && b[k].size >= n + e
                             && forall j | 0 <= j < k :: !b[j].free || b[j].size < n + e
  {
  }

  lemma NewIsApart(e: nat, b: seq<Block>, k: nat, n: nat, d: Chunk)
    requires e > 0 && k < |b| && Fits(e, b[k], n) && d in Live(e, 0, b)
    ensures Apart(e, d, Chunk(Off(e, b, k) + e, n))
  {
    var j := EntryOf(e, b, d);
    OffOrder(e, b, j, k);
  }

  // ----- What free makes of an address -----

  ghost predicate Inside(e: nat, b: seq<Block>, k: nat, a: int)
    requires k < |b|
  {
    Off(e, b, k) + e < a < Off(e, b, k) + e + b[k].size
  }

  ghost predicate StartOf(e: nat, b: seq<Block>, k: nat, a: int)
    requires k < |b|
  {
    a == Off(e, b, k) + e
  }

  lemma OneClaimant(e: nat, b: seq<Block>, j: nat, k: nat, a: int)
    requires e > 0 && j < |b| && k < |b| && Claims(e, b, j, a) && Claims(e, b, k, a)
    ensures j == k
  {
    if j < k { OffIncreases(e, b, j, k); }
    if k < j { OffIncreases(e, b, k, j); }
  }

  /** The four verdicts divide all addresses: inside some payload, start of a free payload,
      start of a live one, or neither. */
  lemma VerdictMeans(e: nat, b: seq<Block>, a: int)
    requires e > 0
    ensures Judge(e, b, a) == Middle <==> exists k :: 0 <= k < |b| && Inside(e, b, k, a)
    ensures Judge(e, b, a) == Redundant <==> exists k :: 0 <= k < |b| && b[k].free && StartOf(e, b, k, a)
    ensures Judge(e, b, a) == Freed <==> exists k :: 0 <= k < |b| && !b[k].free && StartOf(e, b, k, a)
    ensures Judge(e, b, a) == NotAllocated <==>
            forall k :: 0 <= k < |b| ==> !Inside(e, b, k, a) && !StartOf(e, b, k, a)
  {
    var c := Claimant(e, b, a, 0);
    forall k | 0 <= k < |b| && (Inside(e, b, k, a) || StartOf(e, b, k, a)) ensures k == c {
      assert Claims(e, b, k, a);
      OneClaimant(e, b, k, c, a);
    }
    if c < |b| { assert Inside(e, b, c, a) || StartOf(e, b, c, a); }
  }

  /** What free reports, and that it reports nothing else: an address is inside a payload, or the
      start of a free one, or the start of a live one, or none of these, as are all addresses
      before the first malloc. */
  lemma FreeReports(e: nat, s: Heap, a: int)
    requires e > 0
    ensures Free(e, s, a).1 == Middle <==> s.Ready? && exists k :: 0 <= k < |s.b| && Inside(e, s.b, k, a)
    ensures Free(e, s, a).1 == Redundant <==>
            s.Ready? && exists k :: 0 <= k < |s.b| && s.b[k].free && StartOf(e, s.b, k, a)
    ensures Free(e, s, a).1 == Freed <==>
            s.Ready? && exists k :: 0 <= k < |s.b| && !s.b[k].free && StartOf(e, s.b, k, a)
    ensures Free(e, s, a).1 == NotAllocated <==>
            s.Ready? ==> forall k :: 0 <= k < |s.b| ==> !Inside(e, s.b, k, a) && !StartOf(e, s.b, k, a)
  {
    if s.Ready? { VerdictMeans(e, s.b, a); }
  }

  /** free takes away the live block at its address, if there is one, and changes nothing
      otherwise. */
  lemma FreeEffect(e: nat, h: nat, s: Heap, a: int)
    requires Sound(e, h, s)
    ensures var (t, v) := Free(e, s, a);
            && Sound(e, h, t) && (t.Ready? <==> s.Ready?)
            && (v == Freed <==> exists c :: c in Alive(e, h, s) && c.address == a)
            && (v != Freed ==> t == s)
            && Alive(e, h, t) == Without(Alive(e, h, s), a)
  {
    if s.Uninitialized? {
      InitiallySound(e, h);
    } else {
      FreedIsLive(e, s.b, a);
      if Judge(e, s.b, a) == Freed {
        var c := ReleaseAt(e, h, s.b, Claimant(e, s.b, a, 0), a);
        assert Free(e, s, a).0 == Ready(c);
      } else {
        assert Without(Live(e, 0, s.b), a) == Live(e, 0, s.b);
      }
    }
  }

  ghost function Without(chunks: set<Chunk>, a: int): set<Chunk> {
    set c | c in chunks && c.address != a
  }

  lemma ReleaseAt(e: nat, h: nat, b: seq<Block>, k: nat, a: int) returns (c: seq<Block>)
    requires e > 0 && Canonical(e, h, b) && k < |b| && !b[k].free && StartOf(e, b, k, a)
    ensures c == Release(e, b, k) && Canonical(e, h, c)
    ensures Live(e, 0, c) == Without(Live(e, 0, b), a)
  {
    c := Release(e, b, k);
    ReleaseEffect(e, h, b, k);
    OnlyLiveAt(e, b, k);
  }

  lemma OnlyLiveAt(e: nat, b: seq<Block>, k: nat)
    requires e > 0 && k < |b| && !b[k].free
    ensures var a, l := Off(e, b, k) + e, Live(e, 0, b);
            l - {Chunk(a, b[k].size)} == Without(l, a)
  {
    var m := Chunk(Off(e, b, k) + e, b[k].size);
    LiveIsEntry(e, 0, b, m);
    assert m == Chunk(0 + Off(e, b, k) + e, b[k].size);
    forall c | c in Live(e, 0, b) ensures c == m || c.address != m.address {
      if c != m { LiveApart(e, b, c, m); }
    }
  }

  lemma FreedIsLive(e: nat, b: seq<Block>, a: int)
    requires e > 0
    ensures Judge(e, b, a) == Freed <==> exists c :: c in Live(e, 0, b) && c.address == a
  {
    VerdictMeans(e, b, a);
    if k :| 0 <= k < |b| && !b[k].free && StartOf(e, b, k, a) {
      LiveIsEntry(e, 0, b, Chunk(a, b[k].size));
      assert Chunk(a, b[k].size) in Live(e, 0, b);
    }
    if c :| c in Live(e, 0, b) && c.address == a {
      var k := EntryOf(e, b, c);
      assert StartOf(e, b, k, a);
    }
  }

  // ----- Runs -----

  datatype Op = DoMalloc(n: nat) | DoFree(a: int)

  function Exec(e: nat, h: nat, s: Heap, op: Op): Heap
    requires e <= h
  {
    match op
    case DoMalloc(n) => Malloc(e, h, s, n).0
    case DoFree(a) => Free(e, s, a).0
  }

  function Run(e: nat, h: nat, s: Heap, ops: seq<Op>): Heap
    requires e <= h
    decreases |ops|
  {
    if ops == [] then s else Run(e, h, Exec(e, h, s, ops[0]), ops[1..])
  }

  lemma {:induction false} RunSound(e: nat, h: nat, s: Heap, ops: seq<Op>)
    requires Sound(e, h, s)
    ensures Sound(e, h, Run(e, h, s, ops))
    decreases |ops|
  {
    if ops != [] {
      match ops[0] {
        case DoMalloc(n) => MallocEffect(e, h, s, n);
        case DoFree(a) => FreeEffect(e, h, s, a);
      }
      RunSound(e, h, Exec(e, h, s, ops[0]), ops[1..]);
    }
  }

  /** The arena remembers nothing but the live blocks: however two heaps came about, if the same
      blocks are live in both, their entries are the same, offset by offset. */
  lemma HistoryForgotten(e: nat, h: nat, xs: seq<Op>, ys: seq<Op>)
    requires 0 < e <= h
    requires Alive(e, h, Run(e, h, Uninitialized, xs)) == Alive(e, h, Run(e, h, Uninitialized, ys))
    ensures Layout(e, h, Run(e, h, Uninitialized, xs)) == Layout(e, h, Run(e, h, Uninitialized, ys))
  {
    InitiallySound(e, h);
    RunSound(e, h, Uninitialized, xs);
    RunSound(e, h, Uninitialized, ys);
    SameAlive(e, h, Run(e, h, Uninitialized, xs), Run(e, h, Uninitialized, ys));
  }

  lemma SameAlive(e: nat, h: nat, s: Heap, t: Heap)
    requires Sound(e, h, s) && Sound(e, h, t) && Alive(e, h, s) == Alive(e, h, t)
    ensures Layout(e, h, s) == Layout(e, h, t)
  {
    LayoutUnique(e, 0, Layout(e, h, s), Layout(e, h, t));
  }

  /** free undoes malloc, down to the last header. */
  lemma FreeUndoesMalloc(e: nat, h: nat, s: Heap, n: nat)
    requires Sound(e, h, s)
    ensures var (t, r) := Malloc(e, h, s, n);
            r.Some? ==> Free(e, t, r.value).1 == Freed && Layout(e, h, Free(e, t, r.value).0) == Layout(e, h, s)
  {
    var (t, r) := Malloc(e, h, s, n);
    MallocEffect(e, h, s, n);
    if r.Some? {
      var m, u := Chunk(r.value, n), Free(e, t, r.value).0;
      FreeEffect(e, h, t, r.value);
      assert m in Alive(e, h, t);
      WithoutNew(e, Alive(e, h, s), m);
      SameAlive(e, h, u, s);
    }
  }

  lemma WithoutNew(e: nat, before: set<Chunk>, m: Chunk)
    requires e > 0 && forall c | c in before :: Apart(e, c, m)
    ensures Without(before + {m}, m.address) == before
  {
    forall c | c in before ensures c.address != m.address {
      assert Apart(e, c, m);
    }
  }

  function FreeAll(e: nat, s: Heap, addresses: seq<int>): Heap
    decreases |addresses|
  {
    if addresses == [] then s
    else FreeAll(e, Free(e, s, addresses[0]).0, addresses[1..])
  }

  lemma {:induction false} FreeAllEffect(e: nat, h: nat, s: Heap, xs: seq<int>)
    requires Sound(e, h, s)
    ensures Sound(e, h, FreeAll(e, s, xs))
    ensures Alive(e, h, FreeAll(e, s, xs)) == set c | c in Alive(e, h, s) && c.address !in xs
    decreases |xs|
  {
    if xs != [] {
      FreeEffect(e, h, s, xs[0]);
      FreeAllEffect(e, h, Free(e, s, xs[0]).0, xs[1..]);
    }
  }

  /** Freeing the same addresses in any order, repeatedly, and with any mistakes among them, gives
      the same heap. */
  lemma FreeOrderIrrelevant(e: nat, h: nat, s: Heap, xs: seq<int>, ys: seq<int>)
    requires Sound(e, h, s) && forall a :: a in xs <==> a in ys
    ensures Layout(e, h, FreeAll(e, s, xs)) == Layout(e, h, FreeAll(e, s, ys))
  {
    FreeAllEffect(e, h, s, xs);
    FreeAllEffect(e, h, s, ys);
    SameAlive(e, h, FreeAll(e, s, xs), FreeAll(e, s, ys));
  }

  /** Freeing everything leaves one free entry. */
  lemma AllFreed(e: nat, h: nat, s: Heap, xs: seq<int>)
    requires Sound(e, h, s) && forall c | c in Alive(e, h, s) :: c.address in xs
    ensures Layout(e, h, FreeAll(e, s, xs)) == [Block(h - e, true)]
  {
    FreeAllEffect(e, h, s, xs);
    InitiallySound(e, h);
    SameAlive(e, h, FreeAll(e, s, xs), Uninitialized);
  }

  // ----- A guaranteed allocation -----

  function Count(b: seq<Block>, free: bool): nat {
    if b == [] then 0 else (if b[0].free == free then 1 else 0) + Count(b[1..], free)
  }

  function Bytes(b: seq<Block>, free: bool): nat {
    if b == [] then 0 else (if b[0].free == free then b[0].size else 0) + Bytes(b[1..], free)
  }

  lemma {:induction false} BytesConserved(e: nat, b: seq<Block>)
    ensures Span(e, b) == Bytes(b, true) + Bytes(b, false) + (Count(b, true) + Count(b, false)) * e
  {
    if b != [] {
      var n := Count(b[1..], true) + Count(b[1..], false);
      BytesConserved(e, b[1..]);
      assert (n + 1) * e == n * e + e;
      assert Count(b, true) + Count(b, false) == n + 1;
    }
  }

  lemma {:induction false} FewFree(b: seq<Block>)
    requires NoTwoFree(b)
    ensures Count(b, true) <= Count(b, false) + if b != [] && b[0].free then 1 else 0
  {
    if b != [] {
      SliceNoTwoFree(b, 1);
      FewFree(b[1..]);
      if |b| > 1 { assert !(b[0].free && b[0 + 1].free) && b[1..][0] == b[1]; }
    }
  }

  lemma {:induction false} SmallFree(b: seq<Block>, m: nat)
    requires forall x | x in b :: x.free ==> x.size <= m
    ensures Bytes(b, true) <= Count(b, true) * m
  {
    if b != [] {
      assert b[0] in b;
      SmallFree(b[1..], m);
      var n := Count(b[1..], true);
      assert (n + 1) * m == n * m + m;
    }
  }

  lemma LiveCount(e: nat, o: int, b: seq<Block>)
    requires e > 0
    ensures |Live(e, o, b)| == Count(b, false)
    decreases |b|
  {
    if b != [] {
      LiveCount(e, o + e + b[0].size, b[1..]);
      LiveAddresses(e, o + e + b[0].size, b[1..]);
    }
  }

  /** With k live blocks of B bytes in all, a request n with
      (k + 1)(n + e) <= h - B - (2k + 1)e cannot fail, however fragmented the arena is. */
  lemma GuaranteedAllocation(e: nat, h: nat, s: Heap, n: nat)
    requires Sound(e, h, s)
    requires var k, used := |Alive(e, h, s)|, Bytes(Layout(e, h, s), false);
             (k + 1) * (n + e) <= h - used - (2 * k + 1) * e
    ensures Malloc(e, h, s, n).1.Some?
  {
    var b, k := Layout(e, h, s), |Alive(e, h, s)|;
    MallocEffect(e, h, s, n);
    LiveCount(e, 0, b);
    FewFree(b);
    BytesConserved(e, b);
    if forall x | x in b :: !Fits(e, x, n) {
      SmallFree(b, n + e - 1);
      Pigeonhole(e, h, n, k, Count(b, true), Bytes(b, false), Bytes(b, true));
    }
  }

  lemma Pigeonhole(e: nat, h: nat, n: nat, k: nat, f: nat, used: nat, spare: nat)
    requires e > 0 && f <= k + 1 && h == spare + used + (f + k) * e
    requires (k + 1) * (n + e) <= h - used - (2 * k + 1) * e
    ensures spare > f * (n + e - 1)
  {
    MulMonotone(f, k + 1, n + e - 1);
    MulMonotone(f + k, 2 * k + 1, e);
    MulSuccessor(k + 1, n + e - 1);
  }

  lemma MulMonotone(a: nat, b: nat, c: nat)
    requires a <= b
    ensures a * c <= b * c
  {
    assert b * c - a * c == (b - a) * c;
  }

  lemma MulSuccessor(a: nat, m: nat)
    ensures a * (m + 1) == a * m + a
  {
  }
}
