/** The sorted list and its iterators as the program keeps them: nodes with a reference count,
    updated in place. The memory of `struct Node` is one map per field, keyed by address; a
    node that is not allocated is in none of them, so every access below is proved not to touch
    freed memory. An iterator is known by a number, and `current` is its one field. */
module ListStore {
  import opened Order
  import opened ListShape
  import opened ListSpec
  import opened ListCounts
  import opened Options

  /** There is always an unused address. */
  lemma FreshAddress(used: set<nat>) returns (p: nat)
    ensures p != 0 && p !in used
  {
    p := 1;
    var todo := used;
    while todo != {}
      invariant p != 0 && forall q | q in used :: q in todo || q < p
      decreases todo
    {
      var q :| q in todo;
      todo := todo - {q};
      if q >= p { p := q + 1; }
    }
  }

  lemma LinkedMaps(next: map<Ptr, Ptr>, previous: Ptr, p: Ptr, n: Ptr)
    requires p != previous
    ensures next[p := NULL][p := n] == next[p := n]
    ensures next[p := NULL][previous := p][p := n] == next[p := n][previous := p]
  {
  }

  class SortedList<D(!new, ==)> {
    const compare: (D, D) -> int
    var first: Ptr
    var ptrCount: map<Ptr, int>
    var data: map<Ptr, D>
    var next: map<Ptr, Ptr>
    var current: map<Id, Ptr>
    // The data handed to the user's destruct function so far.
    var destructed: seq<D>
    // The data the list has taken over so far.
    ghost var inserted: multiset<D>

    ghost function Graph(): Shape<D>
      reads this
    {
      Shape(compare, first, next, data, current)
    }

    /** Everything taken over is held by exactly one node or has been destructed once. */
    ghost predicate Conserved()
      reads this`data, this`destructed, this`inserted
    {
      forall d :: |Sources(data, d)| + multiset(destructed)[d] == inserted[d]
    }

    ghost predicate Sound(owed: Ptr)
      reads this
    {
      && WellFormed(Graph())
      && Owing(Graph(), ptrCount, owed)
      && Conserved()
    }

    ghost predicate Valid()
      reads this
    {
      Sound(NULL)
    }

    constructor (cf: (D, D) -> int)
      requires IsComparator(cf)
      ensures Valid() && Graph() == Shape(cf, NULL, map[], map[], map[])
      ensures destructed == [] && inserted == multiset{}
    {
      compare, first := cf, NULL;
      ptrCount, data, next, current := map[], map[], map[], map[];
      destructed, inserted := [], multiset{};
      new;
      assert forall d :: Sources(data, d) == {};
    }

    // nodeDestroy: drop one pointer to the node; free it, and on down the chain, when that was
    // the last one.
    method NodeDestroy(node: Ptr) returns (left: Ptr)
      requires Points(Graph(), node) && Sound(node)
      modifies this`ptrCount, this`data, this`next, this`destructed
      ensures Valid() && Graph() == Sweep(old(Graph()))
      ensures left == FirstKept(Chain(old(Graph()), node), next.Keys)
      ensures old(destructed) <= destructed
      decreases next.Keys
    {
      ghost var s := Graph();
      if node == NULL {
        NoLeak(s, ptrCount);
        SweepIdle(s);
        return NULL;
      } else if ptrCount[node] == 1 {
        FreeNode(s, ptrCount, node);
        var temp := next[node];
        Discard(node);
        left := NodeDestroy(temp);
      } else {
        PayOff(s, ptrCount, node);
        ptrCount := ptrCount[node := ptrCount[node] - 1];
        return node;
      }
    }

    // Destruct the data of a node and free its memory.
    method Discard(node: Ptr)
      requires node in next && node in data && node in ptrCount && Conserved()
      modifies this`ptrCount, this`data, this`next, this`destructed
      ensures Graph() == Drop(old(Graph()), node) && ptrCount == old(ptrCount) - {node}
      ensures destructed == old(destructed) + [old(data)[node]] && Conserved()
    {
      destructed := destructed + [data[node]];
      ghost var before := data;
      next, data, ptrCount := next - {node}, data - {node}, ptrCount - {node};
      forall d ensures |Sources(data, d)| + multiset(destructed)[d] == inserted[d] {
        SourcesDrop(before, node, d);
      }
    }

    // nodeCreate: a new node, with the count its caller's pointer will make true.
    method NodeCreate(d: D) returns (p: Ptr)
      requires Conserved() && data.Keys == next.Keys == ptrCount.Keys
      modifies this`ptrCount, this`data, this`next, this`inserted
      ensures p != NULL && p !in old(next)
      ensures ptrCount == old(ptrCount)[p := 1] && data == old(data)[p := d] && next == old(next)[p := NULL]
      ensures inserted == old(inserted) + multiset{d} && Conserved()
    {
      ghost var q := FreshAddress(next.Keys);
      p :| p != NULL && p !in next;
      ghost var before := data;
      ptrCount, data, next := ptrCount[p := 1], data[p := d], next[p := NULL];
      inserted := inserted + multiset{d};
      forall x ensures |Sources(data, x)| + multiset(destructed)[x] == inserted[x] {
        SourcesPut(before, p, d, x);
      }
    }

    // The tail of SLInsert: a new node between previous, or the head, and smaller.
    method NodeInsert(d: D, previous: Ptr, smaller: Ptr) returns (p: Ptr)
      requires Conserved() && data.Keys == next.Keys == ptrCount.Keys
      requires previous == NULL || previous in next
      modifies this`first, this`ptrCount, this`data, this`next, this`inserted
      ensures p != NULL && p !in old(next)
      ensures Graph() == Link(old(Graph()), previous, p, d, smaller) && ptrCount == old(ptrCount)[p := 1]
      ensures inserted == old(inserted) + multiset{d} && Conserved()
    {
      p := NodeCreate(d);
      if previous == NULL {
        first := p;
      } else {
        next := next[previous := p];
      }
      next := next[p := smaller];
      LinkedMaps(old(next), previous, p, smaller);
    }

    // The walk of SLInsert: pass the items greater than d. It ends at the node previous to a
    // smaller or equal one, or, with comp > 0, at the last node.
    method WalkPast(d: D) returns (previous: Ptr, smaller: Ptr, comp: int)
      requires Valid() && first != NULL
      ensures Points(Graph(), previous) && smaller in next
      ensures comp == 0 <==> Found(Graph(), d)
      ensures comp < 0 ==> forall p :: InsertNode(Graph(), d, p) == Link(Graph(), previous, p, d, smaller)
      ensures comp > 0 ==> forall p :: InsertNode(Graph(), d, p) == Link(Graph(), smaller, p, d, NULL)
    {
      ghost var s := Graph();
      WalkStart(s, d);
      previous, smaller := NULL, first;
      ghost var k := 0;
      comp := compare(data[smaller], d);
      while comp > 0
        invariant Walked(s, d, previous, smaller, k)
        invariant smaller in data && comp == compare(data[smaller], d)
        decreases |Live(s)| - k
      {
        WalkOn(s, d, previous, smaller, k);
        if next[smaller] == NULL {
          WalkEnd(s, d, previous, smaller, k);
          return;
        }
        previous, smaller, k := smaller, next[smaller], k + 1;
        comp := compare(data[smaller], d);
      }
      WalkStop(s, d, previous, smaller, k);
    }

    // SLInsert
    method Insert(d: D) returns (r: int, ghost p: Ptr)
      requires Valid()
      modifies this`first, this`ptrCount, this`data, this`next, this`inserted
      ensures Valid() && p != NULL && p !in old(next)
      ensures Graph() == Apply(old(Graph()), Op.Insert(d, p))
      ensures r == if Found(old(Graph()), d) then 0 else 1
      ensures inserted == old(inserted) + if r == 1 then multiset{d} else multiset{}
    {
      ghost var s := Graph();
      if first == NULL {
        WalkEmpty(s, d);
        p := NodeInsert(d, NULL, NULL);
      } else {
        var previous, smaller, comp := WalkPast(d);
        if comp == 0 {
          p := FreshAddress(next.Keys);
          return 0, p;
        } else if comp > 0 {
          p := NodeInsert(d, smaller, NULL);
        } else {
          p := NodeInsert(d, previous, smaller);
        }
      }
      InsertSound(s, old(ptrCount), d, p);
      r := 1;
    }
 
    // SLRemove
    method Remove(d: D) returns (r: int)
      requires Valid()
      modifies this`first, this`ptrCount, this`data, this`next, this`destructed
      ensures Valid() && Graph() == Apply(old(Graph()), Op.Remove(d))
      ensures r == if Found(old(Graph()), d) then 1 else 0
      ensures old(destructed) <= destructed
    {
      var prev, curr := Search(d);
      if curr == NULL {
        return 0;
      }
      if prev == NULL {
        RemoveHead(curr);
      } else {
        RemoveInner(prev, curr);
      }
      r := 1;
    }

    // The search of SLRemove.
    method Search(d: D) returns (prev: Ptr, curr: Ptr)
      requires Valid()
      ensures curr != NULL <==> Found(Graph(), d)
      ensures curr != NULL ==> curr in next && UnlinkNode(Graph(), d) == Unlink(Graph(), prev, next[curr])
      ensures curr != NULL ==> if prev == NULL then first == curr else prev in next && next[prev] == curr
    {
      ghost var s, k := Graph(), 0;
      SearchStart(s, d);
      prev, curr := NULL, first;
      while curr != NULL && compare(data[curr], d) != 0
        invariant Searched(s, d, prev, curr, k)
        decreases |Live(s)| - k
      {
        SearchOn(s, d, prev, curr, k);
        prev, curr, k := curr, next[curr], k + 1;
      }
      if curr == NULL {
        SearchFailed(s, d, prev, k);
      } else {
        SearchFound(s, d, prev, curr, k);
      }
    }

    // SLRemove of the first node: the list moves on, and frees the node itself when no iterator
    // and no removed node holds it.
    method RemoveHead(temp: Ptr)
      requires Valid() && temp == first && temp != NULL
      modifies this`first, this`ptrCount, this`data, this`next, this`destructed
      ensures WellFormed(Unlink(old(Graph()), NULL, old(next)[temp]))
      ensures Valid() && Graph() == Sweep(Unlink(old(Graph()), NULL, old(next)[temp]))
      ensures old(destructed) <= destructed
    {
      MoveOff(Graph(), ptrCount, temp);
      ptrCount := ptrCount[first := ptrCount[first] - 1];
      first := next[first];
      if first != NULL {
        ptrCount := ptrCount[first := ptrCount[first] + 1];
      }
      FreeIfUnheld(temp);
    }

    method FreeIfUnheld(temp: Ptr)
      requires MovedOff(Graph(), ptrCount, temp) && Conserved()
      modifies this`ptrCount, this`data, this`next, this`destructed
      ensures Valid() && Graph() == Sweep(old(Graph()))
      ensures old(destructed) <= destructed
    {
      FreeFirst(Graph(), ptrCount, temp);
      if ptrCount[temp] == 0 {
        var n := next[temp];
        Discard(temp);
        if n != NULL {
          ptrCount := ptrCount[n := ptrCount[n] - 1];
        }
      }
    }

    // SLRemove of a later node: its predecessor skips it, and one pointer to it is dropped.
    method RemoveInner(prev: Ptr, curr: Ptr)
      requires Valid() && prev in next && prev != NULL && next[prev] == curr && curr in next
      modifies this`ptrCount, this`data, this`next, this`destructed
      ensures WellFormed(Unlink(old(Graph()), prev, old(next)[curr]))
      ensures Valid() && Graph() == Sweep(Unlink(old(Graph()), prev, old(next)[curr]))
      ensures old(destructed) <= destructed
    {
      ghost var s, count := Graph(), ptrCount;
      assert EdgeOk(s, curr);
      UnlinkWellFormed(s, prev, curr, next[curr]);
      UnlinkCounts(s, count, prev, curr, next[curr]);
      NotBehindItself(s, prev);
      NotBehindItself(s, curr);
      next := next[prev := next[curr]];
      if next[curr] != NULL {
        ptrCount := ptrCount[next[curr] := ptrCount[next[curr]] + 1];
      }
      var left := NodeDestroy(curr);
    }
 
    // SLDestroy
    method Destroy()
      requires Valid()
      modifies this`first, this`ptrCount, this`data, this`next, this`destructed
      ensures Valid() && Graph() == Apply(old(Graph()), Op.Clear)
      ensures old(destructed) <= destructed
    {
      ghost var s := Graph();
      assert s.(first := NULL) == Keep(s.(first := NULL), s.next.Keys);
      while first != NULL
        invariant Valid() && next.Keys <= s.next.Keys
        invariant Graph().(first := NULL) == Keep(s.(first := NULL), next.Keys)
        invariant old(destructed) <= destructed
        decreases |Live(Graph())|
      {
        ghost var t := Graph();
        ClearStep(t);
        var r := Remove(data[first]);
        KeepTwice(s.(first := NULL), t.next.Keys, next.Keys);
      }
      Cleared(s, Graph(), ptrCount);
    }

    // SLCreateIterator
    method CreateIterator() returns (i: Id)
      requires Valid()
      modifies this`ptrCount, this`current
      ensures Valid() && i !in old(current)
      ensures Graph() == Apply(old(Graph()), Op.Begin(i))
    {
      ghost var unused := FreshAddress(current.Keys);
      i :| i !in current;
      CursorsWellFormed(Graph(), current[i := first]);
      SettleCounts(Graph(), ptrCount, i, first);
      current := current[i := first];
      if first != NULL {
        ptrCount := ptrCount[first := ptrCount[first] + 1];
      }
    }

    // SLGetItem
    method GetItem(i: Id) returns (item: Option<D>)
      requires Valid() && i in current
      ensures item == Current(Graph(), i)
    {
      if current[i] == NULL {
        item := None;
      } else {
        item := Some(data[current[i]]);
      }
    }

    // SLNextItem
    method NextItem(i: Id) returns (item: Option<D>)
      requires Valid() && i in current
      modifies this`ptrCount, this`data, this`next, this`destructed, this`current
      ensures Valid() && Graph() == Apply(old(Graph()), Op.Next(i))
      ensures item == Current(Graph(), i)
      ensures old(destructed) <= destructed
    {
      if current[i] == NULL {
        return None;
      }
      ghost var s := Graph();
      var to := StepOff(i);
      Settle(i, to);
      SettledIsNext(s, i, to, Graph());
      item := GetItem(i);
    }

    // The iterator gives up its node. What is left of the chain decides where it goes on.
    method StepOff(i: Id) returns (to: Ptr)
      requires Valid() && i in current && current[i] != NULL
      modifies this`ptrCount, this`data, this`next, this`destructed, this`current
      ensures Valid() && Graph() == Released(old(Graph()), i) && current == old(current)[i := NULL]
      ensures to == FirstKept(Chain(old(Graph()), old(current)[i])[1..], next.Keys)
      ensures old(destructed) <= destructed
    {
      LetGo(Graph(), ptrCount, i);
      var cur := current[i];
      // No longer a pointer to cur: SLNextItem overwrites current before anything reads it again.
      current := current[i := NULL];
      if ptrCount[cur] == 1 {
        to := NodeDestroy(cur);
      } else {
        ptrCount := ptrCount[cur := ptrCount[cur] - 1];
        to := next[cur];
      }
    }

    // The iterator goes on to node p, and p counts it.
    method Settle(i: Id, p: Ptr)
      requires Valid() && i in current && current[i] == NULL && Points(Graph(), p)
      modifies this`ptrCount, this`current
      ensures Valid() && Graph() == old(Graph()).(current := current) && current == old(current)[i := p]
    {
      CursorsWellFormed(Graph(), current[i := p]);
      SettleCounts(Graph(), ptrCount, i, p);
      current := current[i := p];
      if p != NULL {
        ptrCount := ptrCount[p := ptrCount[p] + 1];
      }
    }

    // SLDestroyIterator
    method DestroyIterator(i: Id)
      requires Valid() && i in current
      modifies this`ptrCount, this`data, this`next, this`destructed, this`current
      ensures Valid() && Graph() == Apply(old(Graph()), Op.End(i))
      ensures old(destructed) <= destructed
    {
      ghost var s := Graph();
      CursorsWellFormed(s, current - {i});
      ReleaseCounts(s, ptrCount, i);
      var cur := current[i];
      current := current - {i};
      var left := NodeDestroy(cur);
      SweptIsEnd(s, i, Graph());
    }
 
    /** Once the list has been destroyed and every iterator is destroyed or at its end, no node is
        allocated and everything the list took over has been destructed exactly once. */
    lemma AllDestructedOnce()
      requires Valid() && first == NULL && forall i | i in current :: current[i] == NULL
      ensures next == map[] && data == map[] && ptrCount == map[]
      ensures multiset(destructed) == inserted
    {
      NothingLeft(Graph(), ptrCount);
      forall d ensures multiset(destructed)[d] == inserted[d] {
        assert Sources(data, d) == {};
      }
    }
  }
}
