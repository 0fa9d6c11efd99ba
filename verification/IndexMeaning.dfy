/** What an index says of some files, and in what order. */
module IndexMeaning {
  import opened Index
  import opened WordCounts

  // ----- The order, told without the comparators -----

  /** a comes first in the alphabet of character codes: it is a proper beginning of b, or has the
      smaller character where they first differ. */
  predicate Before(a: string, b: string) {
    exists k | 0 <= k <= |a| && k < |b| :: a[..k] == b[..k] && (k == |a| || a[k] < b[k])
  }

  /** Larger counts come first, and among equal counts the file that comes first. */
  predicate RecordBefore(x: Record, y: Record) {
    x.count > y.count || (x.count == y.count && Before(x.file, y.file))
  }

  predicate RecordsInOrder(rs: seq<Record>) {
    rs != [] && forall i, j | 0 <= i < j < |rs| :: RecordBefore(rs[i], rs[j])
  }

  predicate InOrder(ix: seq<Entry>) {
    && (forall i, j | 0 <= i < j < |ix| :: Before(ix[i].token, ix[j].token))
    && (forall i | 0 <= i < |ix| :: RecordsInOrder(ix[i].records))
  }

  lemma {:induction false} StrCmpBefore(a: string, b: string)
    ensures StrCmp(a, b) < 0 <==> Before(a, b)
  {
    if a == [] {
      assert b != [] ==> a[..0] == b[..0];
    } else if b != [] && a[0] == b[0] {
      StrCmpBefore(a[1..], b[1..]);
      BeforeTail(a, b);
    } else if b != [] && a[0] < b[0] {
      assert a[..0] == b[..0];
    } else {
      SameFirst(a, b);
    }
  }

  lemma SameFirst(a: string, b: string)
    ensures forall k | 0 < k <= |a| && k <= |b| && a[..k] == b[..k] :: a[0] == b[0]
  {
    forall k | 0 < k <= |a| && k <= |b| && a[..k] == b[..k] ensures a[0] == b[0] {
      assert a[..k][0] == b[..k][0];
    }
  }

  lemma BeforeTail(a: string, b: string)
    requires a != [] && b != [] && a[0] == b[0]
    ensures Before(a, b) <==> Before(a[1..], b[1..])
  {
    var x, y := a[1..], b[1..];
    if k :| 0 <= k <= |a| && k < |b| && a[..k] == b[..k] && (k == |a| || a[k] < b[k]) {
      assert x[..k - 1] == a[..k][1..] && y[..k - 1] == b[..k][1..];
    }
    if k :| 0 <= k <= |x| && k < |y| && x[..k] == y[..k] && (k == |x| || x[k] < y[k]) {
      assert a[..k + 1] == [a[0]] + x[..k] && b[..k + 1] == [b[0]] + y[..k];
    }
  }

  lemma RecordOrderMeans(x: Record, y: Record)
    ensures CompareRecord(x, y) > 0 <==> RecordBefore(x, y)
  {
    StrCmpLaws(y.file, x.file);
    StrCmpBefore(x.file, y.file);
  }

  lemma EntryOrderMeans(x: Entry, y: Entry)
    ensures CompareIndex(x, y) > 0 <==> Before(x.token, y.token)
  {
    StrCmpLaws(y.token, x.token);
    StrCmpBefore(x.token, y.token);
  }

  lemma RecordsMean(e: Entry)
    ensures EntryOk(e) <==> RecordsInOrder(e.records)
  {
    var rs := e.records;
    forall i, j | 0 <= i < j < |rs| ensures CompareRecord(rs[i], rs[j]) > 0 <==> RecordBefore(rs[i], rs[j]) {
      RecordOrderMeans(rs[i], rs[j]);
    }
  }

  /** The comparators of the program put an index into this order, and into no other. */
  lemma OrderMeans(ix: seq<Entry>)
    ensures IndexOk(ix) <==> InOrder(ix)
  {
    forall i, j | 0 <= i < j < |ix|
      ensures CompareIndex(ix[i], ix[j]) > 0 <==> Before(ix[i].token, ix[j].token)
    {
      EntryOrderMeans(ix[i], ix[j]);
    }
    forall i | 0 <= i < |ix| ensures EntryOk(ix[i]) <==> RecordsInOrder(ix[i].records) { RecordsMean(ix[i]); }
  }

  // ----- The index of some files -----

  /** Tokens ascend, each with its records by descending count and then ascending file name, and
      token t has record (f, n) if and only if n > 0 is the number of words of a file f that are t
      in lower case. */
  ghost predicate Indexes(ix: seq<Entry>, files: seq<File>) {
    && InOrder(ix)
    && forall t, r :: Says(ix, t, r) <==>
                      r.count > 0 && exists f :: f in files && f.path == r.file && Count(f, t) == r.count
  }

  /** The order in which the files are indexed does not matter. */
  lemma OrderIrrelevant(a: seq<Entry>, b: seq<Entry>, xs: seq<File>, ys: seq<File>)
    requires Indexes(a, xs) && Indexes(b, ys) && forall f :: f in xs <==> f in ys
    ensures a == b
  {
    OrderMeans(a);
    OrderMeans(b);
    IndexUnique(a, b);
  }

  /** With distinct paths a token has at most one record for a file. */
  lemma OneRecordPerFile(ix: seq<Entry>, files: seq<File>, t: string, x: Record, y: Record)
    requires Indexes(ix, files) && forall f, g | f in files && g in files && f.path == g.path :: f == g
    requires Says(ix, t, x) && Says(ix, t, y) && x.file == y.file
    ensures x == y
  {
    var f :| f in files && f.path == x.file && Count(f, t) == x.count;
    var g :| g in files && g.path == y.file && Count(g, t) == y.count;
  }

  /** No token of an index has a capital letter. */
  lemma TokensAreLower(ix: seq<Entry>, files: seq<File>, i: nat)
    requires Indexes(ix, files) && i < |ix|
    ensures !HasCapital(ix[i].token)
  {
    var t, r := ix[i].token, ix[i].records[0];
    assert Says(ix, t, r);
    var f :| f in files && f.path == r.file && Count(f, t) == r.count;
    NoCapitalCounted(f.text, t);
  }
}
