/** The index as the program keeps it: a sorted list of index_t, each with a token and a sorted
    list of records. A records pointer is a position in the sequence of all record lists. */
module IndexLists {
  import opened Options
  import opened Order
  import opened ListShape
  import opened ListSpec
  import opened ListCounts
  import opened ListRuns
  import opened ListStore
  import opened Index

  type IndexT = IndexOf<nat>

  ghost predicate NotBefore(items: seq<IndexT>, t: string, i: nat) {
    i <= |items| && forall j | 0 <= j < i :: items[j].token != t
  }

  /** The first structure with the token stands at position i; there is none if that is the end. */
  ghost predicate FirstAt(items: seq<IndexT>, t: string, i: nat) {
    NotBefore(items, t, i) && (i < |items| ==> items[i].token == t)
  }

  lemma NotYet(items: seq<IndexT>, t: string, i: nat)
    requires NotBefore(items, t, i) && i < |items| && items[i].token != t
    ensures NotBefore(items, t, i + 1)
  {
  }

  // find_index: a walk with an iterator, which leaves the list and all its counts as they were.
  method FindIndex(indeces: SortedList<IndexT>, token: string) returns (found: Option<IndexT>, ghost k: nat)
    requires indeces.Valid()
    modifies indeces
    ensures indeces.Valid() && indeces.Graph() == old(indeces.Graph())
    ensures indeces.ptrCount == old(indeces.ptrCount) && indeces.inserted == old(indeces.inserted)
    ensures var items := Items(indeces.Graph());
            FirstAt(items, token, k) && found == if k < |items| then Some(items[k]) else None
  {
    ghost var s := indeces.Graph();
    ghost var items := Items(s);
    k := 0;
    var sli, temp := BeginWalk(indeces);
    while temp.Some? && temp.value.token != token
      invariant Walking(indeces, s, sli, k) && indeces.inserted == old(indeces.inserted)
      invariant NotBefore(items, token, k) && temp == if k < |items| then Some(items[k]) else None
      decreases |items| - k
    {
      NotYet(items, token, k);
      temp := WalkOn(indeces, s, sli, k);
      k := k + 1;
    }
    EndWalk(indeces, s, sli, k);
    ExactDetermined(s, old(indeces.ptrCount), indeces.ptrCount);
    found := temp;
  }

  /** Iterator i, alone, stands on item k of list s. */
  ghost predicate Walking(list: SortedList<IndexT>, s: Shape<IndexT>, i: Id, k: nat)
    reads list
  {
    list.Valid() && AllReachable(s) && i !in s.current && list.Graph() == OnNode(s, i, k)
  }

  method BeginWalk(list: SortedList<IndexT>) returns (i: Id, item: Option<IndexT>)
    requires list.Valid()
    modifies list
    ensures Walking(list, old(list.Graph()), i, 0) && list.inserted == old(list.inserted)
    ensures var items := old(Items(list.Graph())); item == if 0 < |items| then Some(items[0]) else None
  {
    ghost var s := list.Graph();
    NoLeak(s, list.ptrCount);
    i := list.CreateIterator();
    QuietWalk(s, i, 0);
    item := list.GetItem(i);
  }

  method EndWalk(list: SortedList<IndexT>, ghost s: Shape<IndexT>, i: Id, ghost k: nat)
    requires Walking(list, s, i, k)
    modifies list
    ensures list.Valid() && list.Graph() == s && list.inserted == old(list.inserted)
  {
    QuietWalk(s, i, k);
    list.DestroyIterator(i);
  }

  method WalkOn(list: SortedList<IndexT>, ghost s: Shape<IndexT>, i: Id, ghost k: nat) returns (item: Option<IndexT>)
    requires Walking(list, s, i, k) && k < |Items(s)|
    modifies list
    ensures Walking(list, s, i, k + 1) && list.inserted == old(list.inserted)
    ensures item == if k + 1 < |Items(s)| then Some(Items(s)[k + 1]) else None
  {
    QuietNext(s, i, k);
    item := list.NextItem(i);
  }

  lemma QuietNext(s: Shape<IndexT>, i: Id, k: nat)
    requires AllReachable(s) && i !in s.current && k < |Items(s)|
    ensures WellFormed(OnNode(s, i, k)) && Apply(OnNode(s, i, k), Op.Next(i)) == OnNode(s, i, k + 1)
    ensures WellFormed(OnNode(s, i, k + 1))
    ensures Current(OnNode(s, i, k + 1), i) == if k + 1 < |Items(s)| then Some(Items(s)[k + 1]) else None
  {
    QuietWalk(s, i, k);
    QuietWalk(s, i, k + 1);
  }

  // ----- The values the two levels of lists stand for -----

  /** Structure k has a record list of its own, and is entry k with the records of that list. */
  ghost predicate EntryAt(items: seq<IndexT>, recs: seq<seq<Record>>, ix: seq<Entry>, k: nat)
    requires k < |items| == |ix|
  {
    && items[k].records < |recs| && ix[k] == Entry(items[k].token, recs[items[k].records])
    && forall j | k < j < |items| :: items[j].records != items[k].records
  }

  /** The structures, with pointers to the record lists recs, are the entries of an index. */
  ghost predicate Mirrors(items: seq<IndexT>, recs: seq<seq<Record>>, ix: seq<Entry>) {
    && |items| == |ix|
    && forall k {:trigger EntryAt(items, recs, ix, k)} | 0 <= k < |items| :: EntryAt(items, recs, ix, k)
  }

  lemma SamePlace(items: seq<IndexT>, recs: seq<seq<Record>>, ix: seq<Entry>, t: string, k: nat)
    requires Mirrors(items, recs, ix) && FirstAt(items, t, k)
    ensures PlaceOf(ix, t) == k && (k < |items| ==> items[k].records < |recs|)
  {
    forall j | 0 <= j < |ix| ensures ix[j].token == items[j].token { assert EntryAt(items, recs, ix, j); }
    PlaceIs(ix, t, k);
    assert k < |items| ==> EntryAt(items, recs, ix, k);
  }

  lemma RecordsUpdated(items: seq<IndexT>, recs: seq<seq<Record>>, ix: seq<Entry>, k: nat, r: Record)
    requires Mirrors(items, recs, ix) && k < |items| && items[k].records < |recs|
    ensures var l := items[k].records;
            Mirrors(items, recs[l := Inserted(CompareRecord, recs[l], r)], ix[k := WithRecord(ix[k], r)])
  {
    var l, e := items[k].records, WithRecord(ix[k], r);
    var after := recs[l := Inserted(CompareRecord, recs[l], r)];
    assert EntryAt(items, recs, ix, k);
    var ix' := ix[k := e];
    forall j | 0 <= j < |items| ensures EntryAt(items, after, ix', j) {
      assert EntryAt(items, recs, ix, j);
    }
  }

  lemma IndexInserted(items: seq<IndexT>, recs: seq<seq<Record>>, ix: seq<Entry>, t: string, rs: seq<Record>)
    requires Mirrors(items, recs, ix)
    ensures Mirrors(Inserted(CompareIndex<nat>, items, Entry(t, |recs|)), recs + [rs],
                    Inserted(CompareIndex, ix, Entry(t, rs)))
  {
    var h, e := Entry(t, |recs|), Entry(t, rs);
    var k := Rank(CompareIndex<nat>, items, h);
    forall j | 0 <= j < |items| ensures ix[j].token == items[j].token { assert EntryAt(items, recs, ix, j); }
    SameRank(items, ix, h, e);
    if k < |items| && CompareIndex<nat>(items[k], h) == 0 {
      MoreRecords(items, recs, ix, rs);
    } else {
      Spliced(items, recs, ix, k, t, rs);
    }
  }

  lemma SameRank(items: seq<IndexT>, ix: seq<Entry>, h: IndexT, e: Entry)
    requires |ix| == |items| && h.token == e.token && forall k | 0 <= k < |ix| :: ix[k].token == items[k].token
    ensures Rank(CompareIndex, ix, e) == Rank(CompareIndex<nat>, items, h)
  {
    var k := Rank(CompareIndex<nat>, items, h);
    forall i | 0 <= i < |items| ensures CompareIndex(ix[i], e) == CompareIndex<nat>(items[i], h) {}
    RankIs(CompareIndex, ix, e, k);
  }

  lemma MoreRecords(items: seq<IndexT>, recs: seq<seq<Record>>, ix: seq<Entry>, rs: seq<Record>)
    requires Mirrors(items, recs, ix)
    ensures Mirrors(items, recs + [rs], ix)
  {
    forall j | 0 <= j < |items| ensures EntryAt(items, recs + [rs], ix, j) { assert EntryAt(items, recs, ix, j); }
  }

  function Splice<T>(s: seq<T>, k: nat, x: T): (r: seq<T>)
    requires k <= |s|
    ensures |r| == |s| + 1
    ensures forall i | 0 <= i < |r| :: r[i] == if i < k then s[i] else if i == k then x else s[i - 1]
  {
    s[..k] + [x] + s[k..]
  }

  lemma Spliced(items: seq<IndexT>, recs: seq<seq<Record>>, ix: seq<Entry>, k: nat, t: string, rs: seq<Record>)
    requires Mirrors(items, recs, ix) && k <= |items|
    ensures Mirrors(Splice(items, k, Entry(t, |recs|)), recs + [rs], Splice(ix, k, Entry(t, rs)))
  {
    var after, ix' := Splice(items, k, Entry(t, |recs|)), Splice(ix, k, Entry(t, rs));
    forall j | 0 <= j < |items| ensures items[j].records < |recs| { assert EntryAt(items, recs, ix, j); }
    forall j | 0 <= j < |after| ensures EntryAt(after, recs + [rs], ix', j) {
      if j != k { assert EntryAt(items, recs, ix, if j < k then j else j - 1); }
    }
  }

  // ----- The objects -----

  /** A record list that has the records rs. */
  ghost predicate Holds(l: SortedList<Record>, rs: seq<Record>)
    reads l
  {
    l.Valid() && l.compare == CompareRecord && Items(l.Graph()) == rs
  }

  method InsertRecord(l: SortedList<Record>, r: Record, ghost rs: seq<Record>)
    requires Holds(l, rs)
    modifies l
    ensures Holds(l, Inserted(CompareRecord, rs, r))
  {
    ghost var s := l.Graph();
    var inserted, p := l.Insert(r);
    InsertItems(s, r, p);
  }

  method NewRecords(r: Record) returns (l: SortedList<Record>)
    ensures fresh(l) && Holds(l, Inserted(CompareRecord, [], r))
  {
    RecordsOrdered();
    l := new SortedList(CompareRecord);
    assert Items(l.Graph()) == [];
    InsertRecord(l, r, []);
  }

  method InsertIndex(list: SortedList<IndexT>, h: IndexT)
    requires list.Valid()
    modifies list
    ensures list.Valid() && Items(list.Graph()) == Inserted(list.compare, old(Items(list.Graph())), h)
  {
    ghost var s := list.Graph();
    var inserted, p := list.Insert(h);
    InsertItems(s, h, p);
  }

  class Indeces {
    const list: SortedList<IndexT>
    // Every record list made so far, and the records it has.
    var lists: seq<SortedList<Record>>
    ghost var recs: seq<seq<Record>>
    ghost var made: set<SortedList<Record>>
    // The index as a value.
    ghost var entries: seq<Entry>

    ghost predicate Lists()
      reads this`lists, this`recs, this`made, lists
    {
      && |recs| == |lists| && made == (set l | l in lists)
      && (forall k {:trigger Holds(lists[k], recs[k])} | 0 <= k < |lists| :: Holds(lists[k], recs[k]))
      && (forall j, k | 0 <= j < k < |lists| :: lists[j] != lists[k])
    }

    ghost predicate Valid()
      reads this, list, lists
    {
      && list.Valid() && list.compare == CompareIndex<nat>
      && Lists() && Mirrors(Items(list.Graph()), recs, entries)
    }

    constructor ()
      ensures Valid() && fresh(list) && made == {} && entries == []
    {
      EntriesOrdered<nat>();
      list := new SortedList(CompareIndex<nat>);
      lists, recs, made, entries := [], [], {}, [];
      new;
      assert Items(list.Graph()) == [];
    }

    // create_index, with its first record: a record list of its own for a new token.
    method CreateIndex(r: Record)
      requires Lists()
      modifies this`lists, this`recs, this`made
      ensures Lists() && |lists| == |old(lists)| + 1 && fresh(made - old(made))
      ensures recs == old(recs) + [Inserted(CompareRecord, [], r)]
    {
      var records := NewRecords(r);
      lists, made := lists + [records], made + {records};
      recs := recs + [Inserted(CompareRecord, [], r)];
    }

    // A new token with its first record.
    method AddIndex(token: string, r: Record)
      requires Valid()
      modifies this, list
      ensures Valid() && fresh(made - old(made))
      ensures entries == Inserted(CompareIndex, old(entries), Entry(token, Inserted(CompareRecord, [], r)))
    {
      ghost var rs := Inserted(CompareRecord, [], r);
      IndexInserted(Items(list.Graph()), recs, entries, token, rs);
      CreateIndex(r);
      InsertIndex(list, Entry(token, |lists| - 1));
      entries := Inserted(CompareIndex, entries, Entry(token, rs));
    }

    // A record more for a token that is there.
    method AddTo(h: IndexT, ghost k: nat, r: Record)
      requires Valid() && k < |Items(list.Graph())| && Items(list.Graph())[k] == h && h.records < |lists|
      modifies this`recs, this`entries, lists[h.records]
      ensures Valid()
      ensures entries == old(entries)[k := WithRecord(old(entries)[k], r)]
    {
      RecordsUpdated(Items(list.Graph()), recs, entries, k, r);
      InsertRecord(lists[h.records], r, recs[h.records]);
      recs := recs[h.records := Inserted(CompareRecord, recs[h.records], r)];
      entries := entries[k := WithRecord(entries[k], r)];
    }

    // The body of the loop of index_file.
    method AddRecord(token: string, r: Record)
      requires Valid()
      modifies this, list, made
      ensures Valid() && fresh(made - old(made))
      ensures entries == Add(old(entries), token, r)
    {
      ghost var items := Items(list.Graph());
      var found, k := FindIndex(list, token);
      SamePlace(items, recs, entries, token, k);
      if found == None {
        AddIndex(token, r);
      } else {
        AddTo(found.value, k, r);
      }
    }
  }
}
