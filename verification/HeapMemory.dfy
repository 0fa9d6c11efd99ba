/** The headers as they lie in the arena, doubly linked, against the layout they stand for. */
module HeapMemory {
  import opened HeapLayout
  import opened HeapSpec

  const NIL: int := -1

  /** The fields of the headers, by offset. Bytes that were a header once may stay behind. */
  datatype Headers = Headers(
    prev: map<int, int>,
    next: map<int, int>,
    isFree: map<int, bool>,
    size: map<int, int>)

  /** The offset of header k, NIL outside the list. */
  function HeadAt(e: nat, b: seq<Block>, k: int): int {
    if 0 <= k < |b| then Off(e, b, k) else NIL
  }

  ghost predicate EntryOk(e: nat, m: Headers, b: seq<Block>, k: nat)
    requires k < |b|
  {
    var o := Off(e, b, k);
    && o in m.prev && o in m.next && o in m.isFree && o in m.size
    && m.size[o] == b[k].size && m.isFree[o] == b[k].free
    && m.next[o] == HeadAt(e, b, k + 1) && m.prev[o] == HeadAt(e, b, k - 1)
  }

  ghost predicate Represents(e: nat, m: Headers, b: seq<Block>) {
    forall k {:trigger EntryOk(e, m, b, k)} | 0 <= k < |b| :: EntryOk(e, m, b, k)
  }

  // ----- Splitting -----

  lemma SplitOffsets(e: nat, b: seq<Block>, k: nat, n: nat, j: nat)
    requires k < |b| && Fits(e, b[k], n) && j <= |b|
    ensures var c := Split(e, b, k, n);
            && (j <= k ==> Off(e, c, j) == Off(e, b, j))
            && (j == k ==> Off(e, c, k + 1) == Off(e, b, k) + e + n)
            && (j > k ==> Off(e, c, j + 1) == Off(e, b, j))
  {
    var c := Split(e, b, k, n);
    if j <= k {
      assert c[..j] == b[..j];
      if j == k { OffStep(e, c, k); }
    } else {
      var u, v := Block(n, false), Block(b[k].size - n - e, true);
      assert c[..j + 1] == b[..k] + [u, v] + b[k + 1..j];
      assert b[..j] == b[..k] + [b[k]] + b[k + 1..j];
      SplitPieces(e, b[..k], b[k], n, b[k + 1..j]);
    }
  }

  function SplitHeaders(e: nat, m: Headers, o: int, n: nat): Headers
    requires o in m.next && o in m.size
  {
    var q, after := o + e + n, m.next[o];
    Headers(
      if after == NIL then m.prev[q := o] else m.prev[q := o][after := q],
      m.next[q := after][o := q],
      m.isFree[q := true][o := false],
      m.size[q := m.size[o] - n - e][o := n])
  }

  lemma SplitRepresents(e: nat, m: Headers, b: seq<Block>, k: nat, n: nat)
    requires e > 0 && Represents(e, m, b) && k < |b| && Fits(e, b[k], n)
    ensures Off(e, b, k) in m.next && Off(e, b, k) in m.size
    ensures Represents(e, SplitHeaders(e, m, Off(e, b, k), n), Split(e, b, k, n))
  {
    assert EntryOk(e, m, b, k);
    var t, c := SplitHeaders(e, m, Off(e, b, k), n), Split(e, b, k, n);
    forall j | 0 <= j < |c| ensures EntryOk(e, t, c, j) {
      SplitEntry(e, m, b, k, n, j);
    }
  }

  /** Where the headers are afterwards. */
  lemma SplitHeads(e: nat, b: seq<Block>, k: nat, n: nat, j: int)
    requires k < |b| && Fits(e, b[k], n)
    ensures HeadAt(e, Split(e, b, k, n), j) ==
            if j <= k then HeadAt(e, b, j) else if j == k + 1 then Off(e, b, k) + e + n else HeadAt(e, b, j - 1)
  {
    if 0 <= j <= k { SplitOffsets(e, b, k, n, j); }
    if j == k + 1 { SplitOffsets(e, b, k, n, k); }
    if k + 1 < j <= |b| { SplitOffsets(e, b, k, n, j - 1); }
  }

  /** Header i is none of the places a split of entry k writes to, unless it is k or k + 1. */
  lemma Untouched(e: nat, b: seq<Block>, k: nat, i: nat, q: int)
    requires e > 0 && k < |b| && i < |b|
    requires Off(e, b, k) < q <= Off(e, b, k) + b[k].size
    ensures Off(e, b, i) != q && (i != k ==> Off(e, b, i) != Off(e, b, k))
    ensures i != k + 1 ==> Off(e, b, i) != HeadAt(e, b, k + 1)
    ensures HeadAt(e, b, k + 1) != q && HeadAt(e, b, k + 1) != Off(e, b, k)
  {
    OffOrder(e, b, i, k);
    OffOrder(e, b, k, k + 1);
    OffOrder(e, b, k + 1, i);
  }

  lemma SplitEntry(e: nat, m: Headers, b: seq<Block>, k: nat, n: nat, j: nat)
    requires e > 0 && Represents(e, m, b) && k < |b| && Fits(e, b[k], n)
    requires EntryOk(e, m, b, k) && j <= |b|
    ensures EntryOk(e, SplitHeaders(e, m, Off(e, b, k), n), Split(e, b, k, n), j)
  {
    var i := if j <= k then j else j - 1;
    assert EntryOk(e, m, b, i);
    Untouched(e, b, k, i, Off(e, b, k) + e + n);
    SplitHeads(e, b, k, n, j - 1);
    SplitHeads(e, b, k, n, j);
    SplitHeads(e, b, k, n, j + 1);
  }

  // ----- Marking free -----

  function MarkedHeaders(m: Headers, o: int): Headers {
    m.(isFree := m.isFree[o := true])
  }

  lemma MarkRepresents(e: nat, m: Headers, b: seq<Block>, k: nat)
    requires e > 0 && Represents(e, m, b) && k < |b|
    ensures Represents(e, MarkedHeaders(m, Off(e, b, k)), MarkFree(b, k))
  {
    var t, c := MarkedHeaders(m, Off(e, b, k)), MarkFree(b, k);
    forall j | 0 <= j < |c| ensures EntryOk(e, t, c, j) {
      assert EntryOk(e, m, b, j);
      OffOrder(e, b, j, k);
      MarkedHead(e, b, k, j - 1);
      MarkedHead(e, b, k, j);
      MarkedHead(e, b, k, j + 1);
    }
  }

  lemma MarkedHead(e: nat, b: seq<Block>, k: nat, j: int)
    requires k < |b|
    ensures HeadAt(e, MarkFree(b, k), j) == HeadAt(e, b, j)
  {
    if 0 <= j < |b| { SameSizes(e, b[..j], MarkFree(b, k)[..j]); }
  }

  lemma {:induction false} SameSizes(e: nat, x: seq<Block>, y: seq<Block>)
    requires |x| == |y| && forall i :: 0 <= i < |x| ==> x[i].size == y[i].size
    ensures Span(e, x) == Span(e, y)
  {
    if x != [] { SameSizes(e, x[1..], y[1..]); }
  }

  // ----- Merging with the successor -----

  function MergedHeaders(e: nat, m: Headers, o: int): Headers
    requires o in m.next && o in m.size && m.next[o] in m.next && m.next[o] in m.size
  {
    var p := m.next[o];
    var after := m.next[p];
    m.(size := m.size[o := m.size[o] + e + m.size[p]],
       next := m.next[o := after],
       prev := if after == NIL then m.prev else m.prev[after := o])
  }

  lemma MergeHeads(e: nat, b: seq<Block>, k: nat, j: int)
    requires k + 1 < |b|
    ensures HeadAt(e, Merge(e, b, k), j) == HeadAt(e, b, if j <= k then j else j + 1)
  {
    var c := Merge(e, b, k);
    if 0 <= j <= k {
      assert c[..j] == b[..j];
    } else if k < j < |c| {
      var v := Block(b[k].size + e + b[k + 1].size, true);
      assert c[..j] == b[..k] + [v] + b[k + 2..j + 1];
      assert b[..j + 1] == b[..k] + [b[k], b[k + 1]] + b[k + 2..j + 1];
      MergedSpan(e, b[..k], b[k], b[k + 1], b[k + 2..j + 1]);
    }
  }

  lemma MergedSpan(e: nat, x: seq<Block>, u: Block, v: Block, z: seq<Block>)
    ensures Span(e, x + [Block(u.size + e + v.size, true)] + z) == Span(e, x + [u, v] + z)
  {
    var o := Span(e, x);
    One(e, o, Block(u.size + e + v.size, true));
    Two(e, o, u, v);
    Pieces(e, x, [Block(u.size + e + v.size, true)], z, o + Span(e, [u, v]));
    Pieces(e, x, [u, v], z, o + Span(e, [u, v]));
  }

  lemma MergeRepresents(e: nat, m: Headers, b: seq<Block>, k: nat)
    requires e > 0 && Represents(e, m, b) && k + 1 < |b| && b[k].free
    ensures var o := Off(e, b, k);
            && o in m.next && o in m.size && m.next[o] in m.next && m.next[o] in m.size
            && Represents(e, MergedHeaders(e, m, o), Merge(e, b, k))
  {
    assert EntryOk(e, m, b, k) && EntryOk(e, m, b, k + 1);
    var t, c := MergedHeaders(e, m, Off(e, b, k)), Merge(e, b, k);
    forall j | 0 <= j < |c| ensures EntryOk(e, t, c, j) {
      MergeEntry(e, m, b, k, j);
    }
  }

  lemma MergeEntry(e: nat, m: Headers, b: seq<Block>, k: nat, j: nat)
    requires e > 0 && Represents(e, m, b) && k + 1 < |b| && b[k].free
    requires EntryOk(e, m, b, k) && EntryOk(e, m, b, k + 1) && j < |b| - 1
    ensures EntryOk(e, MergedHeaders(e, m, Off(e, b, k)), Merge(e, b, k), j)
  {
    var i := if j <= k then j else j + 1;
    assert EntryOk(e, m, b, i);
    OffOrder(e, b, i, k);
    OffOrder(e, b, i, k + 2);
    MergeHeads(e, b, k, j - 1);
    MergeHeads(e, b, k, j);
    MergeHeads(e, b, k, j + 1);
  }
}
