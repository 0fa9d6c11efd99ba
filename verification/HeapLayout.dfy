/** The allocator's arena as the list of its entries, in address order. Every entry is a header
    of e bytes followed by `size` bytes of payload. */
module HeapLayout {

  datatype Block = Block(size: nat, free: bool)

  /** The bytes that entries take up. */
  function Span(e: nat, b: seq<Block>): nat {
    if b == [] then 0 else e + b[0].size + Span(e, b[1..])
  }

  /** The offset of the header of entry k. */
  function Off(e: nat, b: seq<Block>, k: nat): nat
    requires k <= |b|
  {
    Span(e, b[..k])
  }

  datatype Chunk = Chunk(address: int, size: nat)

  /** The live blocks, by payload address, of entries that start at offset o. */
  function Live(e: nat, o: int, b: seq<Block>): set<Chunk>
    decreases |b|
  {
    if b == [] then {}
    else (if b[0].free then {} else {Chunk(o + e, b[0].size)}) + Live(e, o + e + b[0].size, b[1..])
  }

  ghost predicate NoTwoFree(b: seq<Block>) {
    forall k :: 0 <= k < |b| - 1 ==> !(b[k].free && b[k + 1].free)
  }

  /** The entries tile the arena of h bytes, no two neighbours are free, and the last is. */
  ghost predicate Canonical(e: nat, h: nat, b: seq<Block>) {
    && Span(e, b) == h
    && NoTwoFree(b)
    && b != [] && b[|b| - 1].free
  }

  // ----- Concatenation -----

  lemma {:induction false} SpanConcat(e: nat, x: seq<Block>, y: seq<Block>)
    ensures Span(e, x + y) == Span(e, x) + Span(e, y)
  {
    if x == [] {
      assert x + y == y;
    } else {
      assert (x + y)[1..] == x[1..] + y;
      SpanConcat(e, x[1..], y);
    }
  }

  lemma {:induction false} LiveConcat(e: nat, o: int, x: seq<Block>, y: seq<Block>)
    ensures Live(e, o, x + y) == Live(e, o, x) + Live(e, o + Span(e, x), y)
    decreases |x|
  {
    if x == [] {
      assert x + y == y;
    } else {
      assert (x + y)[1..] == x[1..] + y;
      LiveConcat(e, o + e + x[0].size, x[1..], y);
    }
  }

  lemma OffStep(e: nat, b: seq<Block>, k: nat)
    requires k < |b|
    ensures Off(e, b, k + 1) == Off(e, b, k) + e + b[k].size
  {
    assert b[..k + 1] == b[..k] + [b[k]];
    SpanConcat(e, b[..k], [b[k]]);
  }

  lemma {:induction false} OffIncreases(e: nat, b: seq<Block>, j: nat, k: nat)
    requires e > 0 && j < k <= |b|
    ensures Off(e, b, j) + e + b[j].size <= Off(e, b, k)
    decreases k
  {
    OffStep(e, b, k - 1);
    if j < k - 1 { OffIncreases(e, b, j, k - 1); }
  }

  /** Offsets tell entries apart. */
  lemma OffOrder(e: nat, b: seq<Block>, j: nat, k: nat)
    requires e > 0 && j <= |b| && k <= |b|
    ensures j < k ==> Off(e, b, j) + e + b[j].size <= Off(e, b, k)
    ensures k < j ==> Off(e, b, k) + e + b[k].size <= Off(e, b, j)
  {
    if j < k { OffIncreases(e, b, j, k); }
    if k < j { OffIncreases(e, b, k, j); }
  }

  /** Every live block is an entry, and every live entry a block. */
  lemma {:induction false} LiveIsEntry(e: nat, o: int, b: seq<Block>, c: Chunk)
    ensures c in Live(e, o, b) <==>
            exists k :: 0 <= k < |b| && !b[k].free && c == Chunk(o + Off(e, b, k) + e, b[k].size)
    decreases |b|
  {
    if b != [] {
      var o', t := o + e + b[0].size, b[1..];
      LiveIsEntry(e, o', t, c);
      assert b[..0] == [];
      forall k | 0 <= k < |t| ensures o + Off(e, b, k + 1) == o' + Off(e, t, k) {
        assert b[..k + 1] == [b[0]] + t[..k];
        SpanConcat(e, [b[0]], t[..k]);
      }
      if c in Live(e, o', t) {
        var k :| 0 <= k < |t| && !t[k].free && c == Chunk(o' + Off(e, t, k) + e, t[k].size);
        assert b[k + 1] == t[k];
      }
      if k :| 0 < k < |b| && !b[k].free && c == Chunk(o + Off(e, b, k) + e, b[k].size) {
        assert t[k - 1] == b[k] && o + Off(e, b, k - 1 + 1) == o' + Off(e, t, k - 1);
      }
    }
  }

  // ----- The layout is determined by the live blocks -----

  lemma {:induction false} LiveAddresses(e: nat, o: int, b: seq<Block>)
    ensures forall c | c in Live(e, o, b) :: c.address >= o + e
    decreases |b|
  {
    if b != [] { LiveAddresses(e, o + e + b[0].size, b[1..]); }
  }

  /** Behind a free entry comes a live one, and it has the lowest address of all. */
  lemma SecondIsLowest(e: nat, o: int, b: seq<Block>)
    requires |b| > 1 && b[0].free && NoTwoFree(b)
    ensures Chunk(o + e + b[0].size + e, b[1].size) in Live(e, o, b)
    ensures forall c | c in Live(e, o, b) :: c.address >= o + e + b[0].size + e
  {
    assert !b[1].free && b[1..][0] == b[1];
    LiveAddresses(e, o + e + b[0].size, b[1..]);
  }

  lemma {:induction false} LayoutUnique(e: nat, o: int, b: seq<Block>, c: seq<Block>)
    requires e > 0 && Span(e, b) == Span(e, c) && Live(e, o, b) == Live(e, o, c)
    requires NoTwoFree(b) && (b != [] ==> b[|b| - 1].free)
    requires NoTwoFree(c) && (c != [] ==> c[|c| - 1].free)
    ensures b == c
    decreases |b|
  {
    if b != [] && c != [] {
      SameFirst(e, o, b, c);
      var o' := o + e + b[0].size;
      LiveAddresses(e, o', b[1..]);
      LiveAddresses(e, o', c[1..]);
      assert Live(e, o', b[1..]) == Live(e, o, b) - {Chunk(o + e, b[0].size)};
      assert Live(e, o', c[1..]) == Live(e, o, c) - {Chunk(o + e, c[0].size)};
      LayoutUnique(e, o', b[1..], c[1..]);
    }
  }

  lemma SameFirst(e: nat, o: int, b: seq<Block>, c: seq<Block>)
    requires e > 0 && b != [] && c != [] && Span(e, b) == Span(e, c) && Live(e, o, b) == Live(e, o, c)
    requires NoTwoFree(b) && b[|b| - 1].free && NoTwoFree(c) && c[|c| - 1].free
    ensures b[0] == c[0]
  {
    if b[0].free && c[0].free {
      if |b| > 1 { SecondIsLowest(e, o, b); }
      if |c| > 1 { SecondIsLowest(e, o, c); }
    } else {
      LiveAddresses(e, o + e + b[0].size, b[1..]);
      LiveAddresses(e, o + e + c[0].size, c[1..]);
      assert !b[0].free ==> Chunk(o + e, b[0].size) in Live(e, o, b);
      assert !c[0].free ==> Chunk(o + e, c[0].size) in Live(e, o, c);
    }
  }
}
