/** The inverted index as a value: entries with ascending tokens, each with its records by
    descending count and then ascending file name. A sorted list stands here for its items;
    insertion into it is Order.Inserted. */
module Index {
  import opened Order

  /** The sign of strcmp. */
  function StrCmp(a: string, b: string): int {
    if a == [] then (if b == [] then 0 else -1)
    else if b == [] then 1
    else if a[0] < b[0] then -1
    else if a[0] > b[0] then 1
    else StrCmp(a[1..], b[1..])
  }

  datatype Record = Record(file: string, count: nat)

  /** compare_record */
  function CompareRecord(x: Record, y: Record): int {
    if x.count == y.count then StrCmp(y.file, x.file)
    else if x.count > y.count then 1 else -1
  }

  /** index_t, with its records themselves or with a pointer to them. */
  datatype IndexOf<R> = Entry(token: string, records: R)

  type Entry = IndexOf<seq<Record>>

  /** compare_index */
  function CompareIndex<R>(x: IndexOf<R>, y: IndexOf<R>): int {
    StrCmp(y.token, x.token)
  }

  lemma {:induction false} StrCmpLaws(a: string, b: string)
    ensures -1 <= StrCmp(a, b) <= 1 && StrCmp(a, b) == -StrCmp(b, a)
    ensures StrCmp(a, b) == 0 <==> a == b
  {
    if a != [] && b != [] && a[0] == b[0] {
      StrCmpLaws(a[1..], b[1..]);
      assert a == [a[0]] + a[1..] && b == [b[0]] + b[1..];
    }
  }

  lemma {:induction false} StrCmpTransitive(a: string, b: string, c: string)
    requires StrCmp(a, b) >= 0 && StrCmp(b, c) >= 0
    ensures StrCmp(a, c) >= 0
  {
    if a != [] && b != [] && c != [] && a[0] == b[0] == c[0] {
      StrCmpTransitive(a[1..], b[1..], c[1..]);
    }
  }

  lemma RecordsOrdered()
    ensures IsComparator(CompareRecord)
  {
    forall x, y, z ensures Lawful(CompareRecord, x, y, z) {
      StrCmpLaws(y.file, x.file);
      if StrCmp(z.file, y.file) >= 0 && StrCmp(y.file, x.file) >= 0 {
        StrCmpTransitive(z.file, y.file, x.file);
      }
    }
  }

  lemma EntriesOrdered<R(!new)>()
    ensures IsComparator(CompareIndex<R>)
  {
    forall x, y, z ensures Lawful(CompareIndex<R>, x, y, z) {
      StrCmpLaws(y.token, x.token);
      if StrCmp(z.token, y.token) >= 0 && StrCmp(y.token, x.token) >= 0 {
        StrCmpTransitive(z.token, y.token, x.token);
      }
    }
  }

  // ----- What an index says -----

  /** Token t occurs r.count times in r.file. */
  ghost predicate Says(ix: seq<Entry>, t: string, r: Record) {
    exists i :: 0 <= i < |ix| && ix[i].token == t && r in ix[i].records
  }

  ghost predicate EntryOk(e: Entry) {
    e.records != [] && Descending(CompareRecord, e.records)
  }

  ghost predicate IndexOk(ix: seq<Entry>) {
    && Descending(CompareIndex, ix)
    && forall i {:trigger EntryOk(ix[i])} | 0 <= i < |ix| :: EntryOk(ix[i])
  }

  lemma TokensDiffer(ix: seq<Entry>, i: nat, j: nat)
    requires IndexOk(ix) && i < |ix| && j < |ix| && ix[i].token == ix[j].token
    ensures i == j
  {
    StrCmpLaws(ix[i].token, ix[j].token);
    assert i < j ==> CompareIndex(ix[i], ix[j]) > 0;
    assert j < i ==> CompareIndex(ix[j], ix[i]) > 0;
  }

  lemma EntrySays(ix: seq<Entry>, i: nat, r: Record)
    requires IndexOk(ix) && i < |ix|
    ensures Says(ix, ix[i].token, r) <==> r in ix[i].records
  {
    if j :| 0 <= j < |ix| && ix[j].token == ix[i].token && r in ix[j].records {
      TokensDiffer(ix, i, j);
    }
  }

  /** An index in order is determined by what it says. */
  lemma IndexUnique(a: seq<Entry>, b: seq<Entry>)
    requires IndexOk(a) && IndexOk(b)
    requires forall t, r :: Says(a, t, r) <==> Says(b, t, r)
    ensures a == b
  {
    EntriesOrdered<seq<Record>>();
    forall e | e in a ensures e in b { SameEntry(a, b, e); }
    forall e | e in b ensures e in a { SameEntry(b, a, e); }
    DescendingUnique(CompareIndex, a, b);
  }

  lemma SameEntry(a: seq<Entry>, b: seq<Entry>, e: Entry)
    requires IndexOk(a) && IndexOk(b) && e in a
    requires forall t, r :: Says(a, t, r) <==> Says(b, t, r)
    ensures e in b
  {
    var i :| 0 <= i < |a| && a[i] == e;
    assert EntryOk(a[i]);
    assert Says(a, e.token, e.records[0]);
    var j :| 0 <= j < |b| && b[j].token == e.token && e.records[0] in b[j].records;
    assert EntryOk(b[j]);
    forall r ensures r in e.records <==> r in b[j].records {
      EntrySays(a, i, r);
      EntrySays(b, j, r);
    }
    RecordsOrdered();
    DescendingUnique(CompareRecord, e.records, b[j].records);
  }

  // ----- Adding a record -----

  lemma InsertedMember<D(!new)>(cmp: (D, D) -> int, items: seq<D>, d: D, x: D)
    requires IsComparator(cmp) && Descending(cmp, items)
    requires forall y | y in items && cmp(y, d) == 0 :: y == d
    ensures x in Inserted(cmp, items, d) <==> x in items || x == d
  {
    var k := Rank(cmp, items, d);
    if k < |items| && cmp(items[k], d) == 0 {
      assert items[k] in items;
    } else {
      assert x in items <==> x in items[..k] || x in items[k..] by { assert items == items[..k] + items[k..]; }
    }
  }

  /** The records of a token with one more. */
  function WithRecord(e: Entry, r: Record): Entry {
    e.(records := Inserted(CompareRecord, e.records, r))
  }

  lemma WithRecordOk(e: Entry, r: Record)
    requires EntryOk(e)
    ensures EntryOk(WithRecord(e, r))
    ensures forall x :: x in WithRecord(e, r).records <==> x in e.records || x == r
  {
    RecordsOrdered();
    InsertedIsSetInsertion(CompareRecord, e.records, r);
    forall y | y in e.records && CompareRecord(y, r) == 0 ensures y == r {
      StrCmpLaws(r.file, y.file);
    }
    forall x ensures x in WithRecord(e, r).records <==> x in e.records || x == r {
      InsertedMember(CompareRecord, e.records, r, x);
    }
  }

  /** A known token, at position i, gets one more record. */
  lemma AddToEntry(ix: seq<Entry>, i: nat, r: Record)
    requires IndexOk(ix) && i < |ix|
    ensures IndexOk(ix[i := WithRecord(ix[i], r)])
    ensures forall t, x :: Says(ix[i := WithRecord(ix[i], r)], t, x) <==>
                           Says(ix, t, x) || (t == ix[i].token && x == r)
  {
    var a := ix[i := WithRecord(ix[i], r)];
    assert EntryOk(ix[i]);
    WithRecordOk(ix[i], r);
    forall j | 0 <= j < |a| ensures EntryOk(a[j]) { assert j != i ==> EntryOk(ix[j]); }
    forall t, x ensures Says(a, t, x) <==> Says(ix, t, x) || (t == ix[i].token && x == r) {
      if j :| 0 <= j < |a| && a[j].token == t && x in a[j].records { assert ix[j].token == t; }
      if j :| 0 <= j < |ix| && ix[j].token == t && x in ix[j].records { assert a[j].token == t && x in a[j].records; }
      if t == ix[i].token && x == r { assert a[i].token == t && x in a[i].records; }
    }
  }

  lemma EntryAdded(ix: seq<Entry>, e: Entry)
    requires IndexOk(ix) && EntryOk(e) && forall i | 0 <= i < |ix| :: ix[i].token != e.token
    ensures IndexOk(Inserted(CompareIndex, ix, e))
    ensures forall y :: y in Inserted(CompareIndex, ix, e) <==> y in ix || y == e
  {
    var a := Inserted(CompareIndex, ix, e);
    EntriesOrdered<seq<Record>>();
    InsertedIsSetInsertion(CompareIndex, ix, e);
    forall y | y in ix ensures CompareIndex(y, e) != 0 { StrCmpLaws(e.token, y.token); }
    forall y ensures y in a <==> y in ix || y == e { InsertedMember(CompareIndex, ix, e, y); }
    forall j | 0 <= j < |a| ensures EntryOk(a[j]) { AddedEntryOk(ix, e, a[j]); }
  }

  /** A new token gets its first record. */
  lemma AddEntry(ix: seq<Entry>, t: string, r: Record)
    requires IndexOk(ix) && forall i | 0 <= i < |ix| :: ix[i].token != t
    ensures IndexOk(Inserted(CompareIndex, ix, Entry(t, [r])))
    ensures forall u, x :: Says(Inserted(CompareIndex, ix, Entry(t, [r])), u, x) <==>
                           Says(ix, u, x) || (u == t && x == r)
  {
    var e := Entry(t, [r]);
    var a := Inserted(CompareIndex, ix, e);
    EntryAdded(ix, e);
    forall u, x ensures Says(a, u, x) <==> Says(ix, u, x) || (u == t && x == r) {
      SaysWith(ix, a, e, u, x);
      assert x in e.records <==> x == r;
    }
  }

  lemma SaysWith(ix: seq<Entry>, a: seq<Entry>, e: Entry, t: string, r: Record)
    requires forall y :: y in a <==> y in ix || y == e
    ensures Says(a, t, r) <==> Says(ix, t, r) || (t == e.token && r in e.records)
  {
    SaysMember(a, t, r);
    SaysMember(ix, t, r);
    assert e in a;
  }

  lemma AddedEntryOk(ix: seq<Entry>, e: Entry, y: Entry)
    requires IndexOk(ix) && EntryOk(e) && (y in ix || y == e)
    ensures EntryOk(y)
  {
    if y in ix {
      var i :| 0 <= i < |ix| && ix[i] == y;
      assert EntryOk(ix[i]);
    }
  }

  lemma SaysMember(ix: seq<Entry>, t: string, r: Record)
    ensures Says(ix, t, r) <==> exists e :: e in ix && e.token == t && r in e.records
  {
  }

  /** The position of the entry of a token, the number of entries when it has none. */
  function PlaceOf(ix: seq<Entry>, t: string): (i: nat)
    ensures i <= |ix| && (i < |ix| ==> ix[i].token == t)
    ensures forall j | 0 <= j < i :: ix[j].token != t
  {
    if ix == [] || ix[0].token == t then 0 else 1 + PlaceOf(ix[1..], t)
  }

  lemma PlaceIs(ix: seq<Entry>, t: string, i: nat)
    requires i <= |ix| && (i < |ix| ==> ix[i].token == t)
    requires forall j | 0 <= j < i :: ix[j].token != t
    ensures PlaceOf(ix, t) == i
  {
  }

  /** The index with one record more, in the entry of its token. */
  function Add(ix: seq<Entry>, t: string, r: Record): seq<Entry> {
    var i := PlaceOf(ix, t);
    if i < |ix| then ix[i := WithRecord(ix[i], r)]
    else Inserted(CompareIndex, ix, Entry(t, Inserted(CompareRecord, [], r)))
  }

  lemma FirstRecord(r: Record)
    ensures Inserted(CompareRecord, [], r) == [r]
  {
  }

  lemma AddSays(ix: seq<Entry>, t: string, r: Record)
    requires IndexOk(ix)
    ensures IndexOk(Add(ix, t, r))
    ensures forall u, x :: Says(Add(ix, t, r), u, x) <==> Says(ix, u, x) || (u == t && x == r)
  {
    var i := PlaceOf(ix, t);
    if i < |ix| {
      AddToEntry(ix, i, r);
      var e := ix[i];
      assert e.token == t && Add(ix, t, r) == ix[i := WithRecord(e, r)];
      forall u, x ensures Says(Add(ix, t, r), u, x) <==> Says(ix, u, x) || (u == t && x == r) {
        assert Says(ix[i := WithRecord(e, r)], u, x) <==> Says(ix, u, x) || (u == e.token && x == r);
      }
    } else {
      FirstRecord(r);
      AddEntry(ix, t, r);
    }
  }
}
