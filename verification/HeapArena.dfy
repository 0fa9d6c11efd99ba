/** customMalloc and customFree over the headers in the arena. An address is an offset into the
    arena; the sizes of a header and of the arena are parameters. */
module HeapArena {
  import opened HeapLayout
  import opened HeapSpec
  import opened HeapMemory
  import opened Options

  class Arena {
    const ENTRY_SIZE: nat
    const HEAP_SIZE: nat
    var initialized: bool
    var head: int
    var prev: map<int, int>
    var next: map<int, int>
    var isFree: map<int, bool>
    var size: map<int, int>
    // The entries the headers stand for.
    ghost var blocks: seq<Block>

    ghost function Memory(): Headers
      reads this
    {
      Headers(prev, next, isFree, size)
    }

    ghost function State(): Heap
      reads this
    {
      if initialized then Ready(blocks) else Uninitialized
    }

    ghost predicate Valid()
      reads this
    {
      && 0 < ENTRY_SIZE <= HEAP_SIZE
      && (initialized ==>
            && head == 0 && blocks != []
            && Represents(ENTRY_SIZE, Memory(), blocks)
            && Canonical(ENTRY_SIZE, HEAP_SIZE, blocks))
    }

    constructor (entrySize: nat, heapSize: nat)
      requires 0 < entrySize <= heapSize
      ensures Valid() && State() == Uninitialized
      ensures ENTRY_SIZE == entrySize && HEAP_SIZE == heapSize
    {
      ENTRY_SIZE, HEAP_SIZE, initialized := entrySize, heapSize, false;
    }

    // The first call of customMalloc.
    method Initialize()
      requires Valid() && !initialized
      modifies this
      ensures Valid() && State() == Ready([Block(HEAP_SIZE - ENTRY_SIZE, true)])
    {
      head := 0;
      prev, next := prev[0 := NIL], next[0 := NIL];
      isFree, size := isFree[0 := true], size[0 := HEAP_SIZE - ENTRY_SIZE];
      initialized := true;
      blocks := [Block(HEAP_SIZE - ENTRY_SIZE, true)];
      One(ENTRY_SIZE, 0, blocks[0]);
      assert EntryOk(ENTRY_SIZE, Memory(), blocks, 0);
    }

    // customMalloc. The result is the payload's offset, or None for NULL.
    method CustomMalloc(n: nat) returns (r: Option<int>)
      requires Valid()
      modifies this
      ensures Valid()
      ensures (State(), r) == Malloc(ENTRY_SIZE, HEAP_SIZE, old(State()), n)
    {
      if !initialized {
        Initialize();
      }
      var temp := FindFit(n);
      if temp == NIL {
        return None;
      }
      SplitAt(temp, n);
      r := Some(temp + ENTRY_SIZE);
    }

    // The scan of customMalloc.
    method FindFit(n: nat) returns (temp: int)
      requires Valid() && initialized
      ensures temp == HeadAt(ENTRY_SIZE, blocks, FirstFit(ENTRY_SIZE, blocks, n))
    {
      temp := head;
      ghost var k := 0;
      while temp != NIL
        invariant k <= |blocks| && temp == HeadAt(ENTRY_SIZE, blocks, k)
        invariant forall j | 0 <= j < k :: !Fits(ENTRY_SIZE, blocks[j], n)
        decreases |blocks| - k
      {
        assert EntryOk(ENTRY_SIZE, Memory(), blocks, k);
        if isFree[temp] && size[temp] >= n + ENTRY_SIZE {
          break;
        }
        temp, k := next[temp], k + 1;
      }
    }

    // The allocation itself: the rest of the entry becomes a new free entry.
    method SplitAt(temp: int, n: nat)
      requires Valid() && initialized
      requires temp == HeadAt(ENTRY_SIZE, blocks, FirstFit(ENTRY_SIZE, blocks, n)) && temp != NIL
      modifies this`prev, this`next, this`isFree, this`size, this`blocks
      ensures Valid()
      ensures blocks == Split(ENTRY_SIZE, old(blocks), FirstFit(ENTRY_SIZE, old(blocks), n), n)
    {
      ghost var k := FirstFit(ENTRY_SIZE, blocks, n);
      ghost var split := SplitKeeps(ENTRY_SIZE, HEAP_SIZE, Memory(), blocks, k, n);
      var newEntry := temp + ENTRY_SIZE + n;
      prev := prev[newEntry := temp];
      var after := next[temp];
      next := next[newEntry := after];
      next := next[temp := newEntry];
      if after != NIL {
        prev := prev[after := newEntry];
      }
      isFree := isFree[newEntry := true];
      size := size[newEntry := size[temp] - n - ENTRY_SIZE];
      isFree := isFree[temp := false];
      size := size[temp := n];
      blocks := split;
    }

    // customFree
    method CustomFree(data: int) returns (v: Verdict)
      requires Valid()
      modifies this
      ensures Valid()
      ensures (State(), v) == Free(ENTRY_SIZE, old(State()), data)
    {
      if !initialized {
        return NotAllocated;
      }
      var temp := FindClaimant(data);
      if temp == NIL {
        return NotAllocated;
      }
      ghost var k := Claimant(ENTRY_SIZE, blocks, data, 0);
      assert EntryOk(ENTRY_SIZE, Memory(), blocks, k);
      if temp + ENTRY_SIZE != data {
        v := Middle;
      } else if isFree[temp] {
        v := Redundant;
      } else {
        ReleaseEntry(temp, k);
        v := Freed;
      }
    }

    // The scan of customFree: the entry whose payload holds the address.
    method FindClaimant(data: int) returns (temp: int)
      requires Valid() && initialized
      ensures temp == HeadAt(ENTRY_SIZE, blocks, Claimant(ENTRY_SIZE, blocks, data, 0))
    {
      temp := head;
      ghost var k := 0;
      while temp != NIL
        invariant k <= |blocks| && temp == HeadAt(ENTRY_SIZE, blocks, k)
        invariant Claimant(ENTRY_SIZE, blocks, data, 0) == Claimant(ENTRY_SIZE, blocks, data, k)
        decreases |blocks| - k
      {
        assert EntryOk(ENTRY_SIZE, Memory(), blocks, k);
        var offset := temp + ENTRY_SIZE;
        if (offset < data && data < offset + size[temp]) || offset == data {
          break;
        }
        temp, k := next[temp], k + 1;
      }
    }

    // Free the memory, and merge it with a free predecessor and a free successor.
    method ReleaseEntry(temp: int, ghost k: nat)
      requires Valid() && initialized && k < |blocks| && temp == Off(ENTRY_SIZE, blocks, k)
      requires !blocks[k].free
      modifies this`prev, this`next, this`isFree, this`size, this`blocks
      ensures Valid() && blocks == Release(ENTRY_SIZE, old(blocks), k)
    {
      ReleaseEffect(ENTRY_SIZE, HEAP_SIZE, blocks, k);
      var at := FreeAndMergeBack(temp, k);
      ghost var j := MergeFrom(old(blocks), k);
      assert EntryOk(ENTRY_SIZE, Memory(), blocks, j);
      assert j + 1 < |blocks| ==> EntryOk(ENTRY_SIZE, Memory(), blocks, j + 1);
      if next[at] != NIL && isFree[next[at]] {
        AbsorbNext(at, j);
      }
    }

    method FreeAndMergeBack(temp: int, ghost k: nat) returns (at: int)
      requires 0 < ENTRY_SIZE && Represents(ENTRY_SIZE, Memory(), blocks)
      requires k < |blocks| && temp == Off(ENTRY_SIZE, blocks, k)
      modifies this`prev, this`next, this`isFree, this`size, this`blocks
      ensures Represents(ENTRY_SIZE, Memory(), blocks)
      ensures blocks == MergeBack(ENTRY_SIZE, old(blocks), k)
      ensures at == Off(ENTRY_SIZE, blocks, MergeFrom(old(blocks), k))
      ensures blocks[MergeFrom(old(blocks), k)].free
    {
      MarkRepresents(ENTRY_SIZE, Memory(), blocks, k);
      MarkedHead(ENTRY_SIZE, blocks, k, k);
      isFree := isFree[temp := true];
      blocks := MarkFree(blocks, k);
      at := temp;
      assert EntryOk(ENTRY_SIZE, Memory(), blocks, k);
      assert k > 0 ==> EntryOk(ENTRY_SIZE, Memory(), blocks, k - 1);
      if prev[temp] != NIL && isFree[prev[temp]] {
        at := prev[temp];
        MergeHeads(ENTRY_SIZE, blocks, k - 1, k - 1);
        AbsorbNext(at, k - 1);
      }
    }

    // A free entry takes over the one behind it. The program does this in two places, once
    // reaching the pair from behind and once from the front; the fields end up the same.
    method AbsorbNext(temp: int, ghost k: nat)
      requires 0 < ENTRY_SIZE && Represents(ENTRY_SIZE, Memory(), blocks)
      requires k + 1 < |blocks| && blocks[k].free && temp == Off(ENTRY_SIZE, blocks, k)
      modifies this`prev, this`next, this`size, this`blocks
      ensures Represents(ENTRY_SIZE, Memory(), blocks) && blocks == Merge(ENTRY_SIZE, old(blocks), k)
    {
      MergeRepresents(ENTRY_SIZE, Memory(), blocks, k);
      var absorbed := next[temp];
      size := size[temp := size[temp] + ENTRY_SIZE + size[absorbed]];
      next := next[temp := next[absorbed]];
      if next[temp] != NIL {
        prev := prev[next[temp] := temp];
      }
      blocks := Merge(ENTRY_SIZE, blocks, k);
    }
  }

  lemma SplitKeeps(e: nat, h: nat, m: Headers, b: seq<Block>, k: nat, n: nat) returns (c: seq<Block>)
    requires e > 0 && Represents(e, m, b) && Canonical(e, h, b) && k < |b| && Fits(e, b[k], n)
    ensures c == Split(e, b, k, n) && c != [] && Canonical(e, h, c)
    ensures var o := Off(e, b, k);
            && o in m.prev && o in m.next && o in m.isFree && o in m.size && m.size[o] == b[k].size
            && Represents(e, SplitHeaders(e, m, o, n), c)
  {
    c := Split(e, b, k, n);
    assert EntryOk(e, m, b, k);
    SplitRepresents(e, m, b, k, n);
    SplitEffect(e, b, k, n);
    SplitShape(e, b, k, n);
  }
}
