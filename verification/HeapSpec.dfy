/** What malloc and free do to the layout, and that each of them keeps it canonical. */
module HeapSpec {
  import opened HeapLayout
  import opened Options

  // ----- The operations -----

  predicate Fits(e: nat, x: Block, n: nat) {
    x.free && x.size >= n + e
  }

  /** The first entry that n bytes and one more header fit into. */
  function FirstFit(e: nat, b: seq<Block>, n: nat): (k: nat)
    ensures k <= |b|
    ensures k < |b| ==> Fits(e, b[k], n)
    ensures forall j | 0 <= j < k :: !Fits(e, b[j], n)
  {
    if b == [] || Fits(e, b[0], n) then 0 else 1 + FirstFit(e, b[1..], n)
  }

  function Split(e: nat, b: seq<Block>, k: nat, n: nat): seq<Block>
    requires k < |b| && Fits(e, b[k], n)
  {
    b[..k] + [Block(n, false), Block(b[k].size - n - e, true)] + b[k + 1..]
  }

  function Merge(e: nat, b: seq<Block>, k: nat): seq<Block>
    requires k + 1 < |b|
  {
    b[..k] + [Block(b[k].size + e + b[k + 1].size, true)] + b[k + 2..]
  }

  function MarkFree(b: seq<Block>, k: nat): seq<Block>
    requires k < |b|
  {
    b[k := Block(b[k].size, true)]
  }

  /** The first of the entries that become one when entry k is released. */
  function MergeFrom(b: seq<Block>, k: nat): (lo: nat)
    requires k < |b|
    ensures lo <= k
  {
    if k > 0 && b[k - 1].free then k - 1 else k
  }

  /** The marked entry joined to a free predecessor: it is entry MergeFrom(b, k) then. */
  function MergeBack(e: nat, b: seq<Block>, k: nat): (c: seq<Block>)
    requires k < |b|
    ensures MergeFrom(b, k) < |c|
  {
    if MergeFrom(b, k) < k then Merge(e, MarkFree(b, k), k - 1) else MarkFree(b, k)
  }

  function MergeForward(e: nat, c: seq<Block>, j: nat): seq<Block>
    requires j < |c|
  {
    if j + 1 < |c| && c[j + 1].free then Merge(e, c, j) else c
  }

  /** Entry k becomes free and is merged with a free predecessor, then with a free successor. */
  function Release(e: nat, b: seq<Block>, k: nat): seq<Block>
    requires k < |b|
  {
    MergeForward(e, MergeBack(e, b, k), MergeFrom(b, k))
  }

  datatype Verdict = Freed | Middle | Redundant | NotAllocated

  /** Address a is the payload address of entry k, or lies inside its payload. */
  predicate Claims(e: nat, b: seq<Block>, k: nat, a: int)
    requires k < |b|
  {
    var p := Off(e, b, k) + e;
    p == a || p < a < p + b[k].size
  }

  /** The first entry from k on that claims a. */
  function Claimant(e: nat, b: seq<Block>, a: int, k: nat): (c: nat)
    requires k <= |b|
    ensures k <= c <= |b| && (c < |b| ==> Claims(e, b, c, a))
    ensures forall j | k <= j < c :: !Claims(e, b, j, a)
    decreases |b| - k
  {
    if k == |b| || Claims(e, b, k, a) then k else Claimant(e, b, a, k + 1)
  }

  function Judge(e: nat, b: seq<Block>, a: int): Verdict {
    var k := Claimant(e, b, a, 0);
    if k == |b| then NotAllocated
    else if a != Off(e, b, k) + e then Middle
    else if b[k].free then Redundant
    else Freed
  }

  datatype Heap = Uninitialized | Ready(b: seq<Block>)

  /** The first call of malloc lays the arena out as one free entry. */
  function Layout(e: nat, h: nat, s: Heap): seq<Block>
    requires e <= h
  {
    if s.Ready? then s.b else [Block(h - e, true)]
  }

  function Malloc(e: nat, h: nat, s: Heap, n: nat): (Heap, Option<int>)
    requires e <= h
  {
    var b := Layout(e, h, s);
    var k := FirstFit(e, b, n);
    if k == |b| then (Ready(b), None) else (Ready(Split(e, b, k, n)), Some(Off(e, b, k) + e))
  }

  function Free(e: nat, s: Heap, a: int): (Heap, Verdict) {
    if s.Uninitialized? then (s, NotAllocated)
    else
      var v := Judge(e, s.b, a);
      (if v == Freed then Ready(Release(e, s.b, Claimant(e, s.b, a, 0))) else s, v)
  }

  // ----- Each operation keeps the layout canonical and changes the live blocks as it should -----

  /** Entries y between entries x and z. */
  lemma Pieces(e: nat, x: seq<Block>, y: seq<Block>, z: seq<Block>, o: nat)
    requires o == Span(e, x) + Span(e, y)
    ensures Span(e, x + y + z) == o + Span(e, z)
    ensures Live(e, 0, x + y + z) == Live(e, 0, x) + Live(e, Span(e, x), y) + Live(e, o, z)
  {
    SpanConcat(e, x + y, z);
    SpanConcat(e, x, y);
    LiveConcat(e, 0, x + y, z);
    LiveConcat(e, 0, x, y);
  }

  lemma One(e: nat, o: int, x: Block)
    ensures Span(e, [x]) == e + x.size
    ensures Live(e, o, [x]) == if x.free then {} else {Chunk(o + e, x.size)}
  {
    assert Span(e, [x][1..]) == 0;
    assert Live(e, o + e + x.size, [x][1..]) == {};
  }

  lemma Two(e: nat, o: int, x: Block, y: Block)
    ensures Span(e, [x, y]) == e + x.size + e + y.size
    ensures Live(e, o, [x, y]) == Live(e, o, [x]) + Live(e, o + e + x.size, [y])
  {
    assert [x, y] == [x] + [y];
    SpanConcat(e, [x], [y]);
    LiveConcat(e, o, [x], [y]);
    One(e, o, x);
    One(e, o, y);
  }

  lemma NoTwoFreeConcat(x: seq<Block>, y: seq<Block>)
    ensures NoTwoFree(x + y) <==>
            NoTwoFree(x) && NoTwoFree(y) && (x != [] && y != [] ==> !(x[|x| - 1].free && y[0].free))
  {
    var c := x + y;
    if NoTwoFree(c) {
      forall k | 0 <= k < |x| - 1 ensures !(x[k].free && x[k + 1].free) { assert c[k] == x[k] && c[k + 1] == x[k + 1]; }
      forall k | 0 <= k < |y| - 1 ensures !(y[k].free && y[k + 1].free) {
        assert c[|x| + k] == y[k] && c[|x| + k + 1] == y[k + 1];
      }
      if x != [] && y != [] { assert c[|x| - 1] == x[|x| - 1] && c[|x| - 1 + 1] == y[0]; }
    }
  }

  lemma SplitEffect(e: nat, b: seq<Block>, k: nat, n: nat)
    requires k < |b| && Fits(e, b[k], n)
    ensures Span(e, Split(e, b, k, n)) == Span(e, b)
    ensures Live(e, 0, Split(e, b, k, n)) == Live(e, 0, b) + {Chunk(Off(e, b, k) + e, n)}
  {
    assert b == b[..k] + [b[k]] + b[k + 1..];
    SplitPieces(e, b[..k], b[k], n, b[k + 1..]);
  }

  lemma SplitPieces(e: nat, x: seq<Block>, f: Block, n: nat, z: seq<Block>)
    requires Fits(e, f, n)
    ensures var c := x + [Block(n, false), Block(f.size - n - e, true)] + z;
            && Span(e, c) == Span(e, x + [f] + z)
            && Live(e, 0, c) == Live(e, 0, x + [f] + z) + {Chunk(Span(e, x) + e, n)}
  {
    var o, two := Span(e, x), [Block(n, false), Block(f.size - n - e, true)];
    var p := o + e + f.size;
    var before, after, c := Live(e, 0, x), Live(e, p, z), Chunk(o + e, n);
    SplitTwo(e, o, f, n);
    Pieces(e, x, [f], z, p);
    Pieces(e, x, two, z, p);
    assert Live(e, 0, x + [f] + z) == before + {} + after;
    assert Live(e, 0, x + two + z) == before + {c} + after;
  }

  lemma SplitTwo(e: nat, o: int, f: Block, n: nat)
    requires Fits(e, f, n)
    ensures var two := [Block(n, false), Block(f.size - n - e, true)];
            && Span(e, two) == Span(e, [f]) == e + f.size
            && Live(e, o, [f]) == {} && Live(e, o, two) == {Chunk(o + e, n)}
  {
    var u, v := Block(n, false), Block(f.size - n - e, true);
    One(e, o, f);
    One(e, o, u);
    One(e, o + e + n, v);
    Two(e, o, u, v);
  }

  lemma SplitShape(e: nat, b: seq<Block>, k: nat, n: nat)
    requires k < |b| && Fits(e, b[k], n) && NoTwoFree(b)
    ensures NoTwoFree(Split(e, b, k, n))
  {
    var u, v := Block(n, false), Block(b[k].size - n - e, true);
    assert b == b[..k] + [b[k]] + b[k + 1..];
    NoTwoFreeConcat(b[..k] + [b[k]], b[k + 1..]);
    NoTwoFreeConcat(b[..k], [b[k]]);
    NoTwoFreeConcat(b[..k], [u, v]);
    NoTwoFreeConcat(b[..k] + [u, v], b[k + 1..]);
  }

  lemma MarkEffect(e: nat, b: seq<Block>, k: nat)
    requires e > 0 && k < |b| && !b[k].free
    ensures var c := MarkFree(b, k);
            && Span(e, c) == Span(e, b)
            && Live(e, 0, c) == Live(e, 0, b) - {Chunk(Off(e, b, k) + e, b[k].size)}
  {
    assert b == b[..k] + [b[k]] + b[k + 1..];
    assert b[k := Block(b[k].size, true)] == b[..k] + [Block(b[k].size, true)] + b[k + 1..];
    MarkPieces(e, b[..k], b[k], b[k + 1..]);
  }

  lemma MarkPieces(e: nat, x: seq<Block>, u: Block, z: seq<Block>)
    requires e > 0 && !u.free
    ensures var c := x + [Block(u.size, true)] + z;
            && Span(e, c) == Span(e, x + [u] + z)
            && Live(e, 0, c) == Live(e, 0, x + [u] + z) - {Chunk(Span(e, x) + e, u.size)}
  {
    var f, o := Block(u.size, true), Span(e, x);
    One(e, o, u);
    One(e, o, f);
    var p := o + e + u.size;
    Pieces(e, x, [u], z, p);
    Pieces(e, x, [f], z, p);
    LiveAddresses(e, p, z);
    LiveBelow(e, 0, x);
    var c := Chunk(o + e, u.size);
    assert c !in Live(e, 0, x) && c !in Live(e, p, z);
  }

  lemma {:induction false} LiveBelow(e: nat, o: int, b: seq<Block>)
    ensures forall c | c in Live(e, o, b) :: c.address <= o + Span(e, b)
    decreases |b|
  {
    if b != [] { LiveBelow(e, o + e + b[0].size, b[1..]); }
  }

  lemma MergeEffect(e: nat, b: seq<Block>, k: nat)
    requires k + 1 < |b| && b[k].free && b[k + 1].free
    ensures Span(e, Merge(e, b, k)) == Span(e, b) && Live(e, 0, Merge(e, b, k)) == Live(e, 0, b)
  {
    assert b == b[..k] + [b[k], b[k + 1]] + b[k + 2..];
    MergePieces(e, b[..k], b[k], b[k + 1], b[k + 2..]);
  }

  lemma MergePieces(e: nat, x: seq<Block>, u: Block, v: Block, z: seq<Block>)
    requires u.free && v.free
    ensures var c := x + [Block(u.size + e + v.size, true)] + z;
            Span(e, c) == Span(e, x + [u, v] + z) && Live(e, 0, c) == Live(e, 0, x + [u, v] + z)
  {
    var m, o := Block(u.size + e + v.size, true), Span(e, x);
    One(e, o, m);
    One(e, o, u);
    One(e, o + e + u.size, v);
    Two(e, o, u, v);
    var p := o + e + m.size;
    Pieces(e, x, [m], z, p);
    Pieces(e, x, [u, v], z, p);
    assert Live(e, 0, x + [m] + z) == Live(e, 0, x) + {} + Live(e, p, z);
    assert Live(e, 0, x + [u, v] + z) == Live(e, 0, x) + {} + Live(e, p, z);
  }

  lemma ReleaseEffect(e: nat, h: nat, b: seq<Block>, k: nat)
    requires e > 0 && Canonical(e, h, b) && k < |b| && !b[k].free
    ensures Canonical(e, h, Release(e, b, k))
    ensures Live(e, 0, Release(e, b, k)) == Live(e, 0, b) - {Chunk(Off(e, b, k) + e, b[k].size)}
  {
    MarkEffect(e, b, k);
    if MergeFrom(b, k) < k { MergeEffect(e, MarkFree(b, k), k - 1); }
    var c, j := MergeBack(e, b, k), MergeFrom(b, k);
    if j + 1 < |c| && c[j + 1].free { MergeEffect(e, c, j); }
    ReleaseShape(e, b, k);
  }

  /** The entry behind the last of them. */
  function MergeTo(b: seq<Block>, k: nat): (hi: nat)
    requires k < |b|
    ensures k < hi <= |b|
  {
    if k + 1 < |b| && b[k + 1].free then k + 2 else k + 1
  }

  lemma BackIs(e: nat, b: seq<Block>, k: nat)
    requires k < |b|
    ensures var c, lo := MergeBack(e, b, k), MergeFrom(b, k);
            c[lo].free && c[..lo] == b[..lo] && c[lo + 1..] == b[k + 1..]
  {
    assert MarkFree(b, k)[k + 1..] == b[k + 1..];
  }

  lemma ForwardIs(e: nat, c: seq<Block>, j: nat) returns (f: Block)
    requires j < |c| && c[j].free
    ensures f.free && MergeForward(e, c, j) == c[..j] + [f] + c[MergeTo(c, j)..]
  {
    f := MergeForward(e, c, j)[j];
    assert c == c[..j] + [c[j]] + c[j + 1..];
  }

  lemma ReleaseIs(e: nat, b: seq<Block>, k: nat) returns (f: Block)
    requires k < |b|
    ensures f.free && Release(e, b, k) == b[..MergeFrom(b, k)] + [f] + b[MergeTo(b, k)..]
  {
    var c, lo := MergeBack(e, b, k), MergeFrom(b, k);
    BackIs(e, b, k);
    f := ForwardIs(e, c, lo);
    if k + 1 < |b| { assert c[lo + 1..][0] == b[k + 1..][0] && c[lo + 1..][1..] == b[k + 1..][1..]; }
    assert c[MergeTo(c, lo)..] == b[MergeTo(b, k)..];
  }

  lemma ReleaseShape(e: nat, b: seq<Block>, k: nat)
    requires NoTwoFree(b) && b != [] && b[|b| - 1].free && k < |b| && !b[k].free
    ensures var c := Release(e, b, k); NoTwoFree(c) && c != [] && c[|c| - 1].free
  {
    var f := ReleaseIs(e, b, k);
    FreeFits(b, k, f);
  }

  lemma FreeFits(b: seq<Block>, k: nat, f: Block)
    requires NoTwoFree(b) && k < |b| && !b[k].free && b[|b| - 1].free && f.free
    ensures var c := b[..MergeFrom(b, k)] + [f] + b[MergeTo(b, k)..];
            NoTwoFree(c) && c[|c| - 1].free
  {
    var lo, hi := MergeFrom(b, k), MergeTo(b, k);
    SliceNoTwoFree(b, lo);
    SliceNoTwoFree(b, hi);
    if lo < k { NeighbourLive(b, lo); }
    if hi == k + 2 { NeighbourLive(b, k + 1); }
    FreeBetween(b[..lo], f, b[hi..]);
  }

  lemma SliceNoTwoFree(b: seq<Block>, k: nat)
    requires NoTwoFree(b) && k <= |b|
    ensures NoTwoFree(b[..k]) && NoTwoFree(b[k..])
  {
    assert b == b[..k] + b[k..];
    NoTwoFreeConcat(b[..k], b[k..]);
  }

  lemma NeighbourLive(b: seq<Block>, k: nat)
    requires NoTwoFree(b) && k < |b| && b[k].free
    ensures (k > 0 ==> !b[k - 1].free) && (k + 1 < |b| ==> !b[k + 1].free)
  {
    SliceNoTwoFree(b, k);
    NoTwoFreeConcat(b[..k], b[k..]);
    assert b == b[..k] + b[k..];
  }

  lemma FreeBetween(x: seq<Block>, f: Block, z: seq<Block>)
    requires NoTwoFree(x) && NoTwoFree(z)
    requires (x != [] ==> !x[|x| - 1].free) && (z != [] ==> !z[0].free)
    ensures NoTwoFree(x + [f] + z)
  {
    NoTwoFreeConcat(x, [f]);
    NoTwoFreeConcat(x + [f], z);
  }
}
