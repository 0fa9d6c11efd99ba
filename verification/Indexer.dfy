/** index.c: counting the words of a file in a hash map, and entering the counts into the index. */
module Indexer {
  import opened Options
  import opened LexSpec
  import opened LexRoundTrip
  import opened LexScanner
  import opened HashMap
  import opened Index
  import opened WordCounts
  import opened IndexMeaning
  import opened ListStore
  import opened IndexLists

  const HASH_SIZE: nat := 100

  /** The hash of a string: the sum of its characters. */
  function StringHash(s: string): nat {
    if s == [] then 0 else StringHash(s[..|s| - 1]) + s[|s| - 1] as nat
  }

  lemma {:induction false} HashIsSum(a: string, b: string)
    ensures StringHash([]) == 0 && StringHash(a + b) == StringHash(a) + StringHash(b)
    ensures forall c: char :: StringHash([c]) == c as nat
  {
    forall c: char ensures StringHash([c]) == c as nat { assert [c][..0] == []; }
    if b == [] {
      assert a + b == a;
    } else {
      HashIsSum(a, b[..|b| - 1]);
      assert (a + b)[..|a + b| - 1] == a + b[..|b| - 1];
    }
  }

  // hash_string
  method HashString(s: string) returns (hash: nat)
    ensures hash == StringHash(s)
  {
    hash := 0;
    for i := 0 to |s|
      invariant hash == StringHash(s[..i])
    {
      assert s[..i + 1][..i] == s[..i];
      hash := hash + s[i] as nat;
    }
    assert s[..|s|] == s;
  }

  // The loop of tokenize_file that lowers a token in place.
  method LowerCase(token: string) returns (lowered: string)
    ensures Spells(token, lowered) && lowered == Lower(token)
  {
    lowered := token;
    for i := 0 to |token|
      invariant |lowered| == |token|
      invariant forall k | 0 <= k < i :: lowered[k] == ToLower(token[k])
      invariant forall k | i <= k < |token| :: lowered[k] == token[k]
    {
      lowered := lowered[i := ToLower(lowered[i])];
    }
    SpellsOne(token, lowered);
  }

  /** The map holds the number of occurrences of every word that occurs. */
  ghost predicate Counts(hm: HashMap<string, nat>, words: seq<string>)
    reads hm
  {
    && hm.Valid()
    && forall t :: hm.Get(t) == if Occurrences(words, t) == 0 then None else Some(Occurrences(words, t))
  }

  // The body of the loop of tokenize_file.
  method CountWord(hm: HashMap<string, nat>, word: string, ghost words: seq<string>)
    requires Counts(hm, words)
    modifies hm
    ensures Counts(hm, words + [word])
  {
    var place := hm.Find(word);
    match place
    case None =>
      var r := hm.Store(word, 1);
    case Some(i) =>
      var value := hm.lists[hm.Bucket(word)][i].value;
      hm.Overwrite(word, i, value + 1);
  }

  /** GetNextToken, called at position before, has given the token and moved to pos. */
  ghost predicate Given(s: string, before: nat, kind: TokenT, pos: nat, token: Option<string>) {
    && before <= |s|
    && var f := Next(s, before);
       pos == f.end && kind == f.kind && token == if f.begin == f.end then None else Some(s[f.begin..f.end])
  }

  // tokenize_file, from the text of the file on
  method TokenizeFile(text: string) returns (hm: HashMap<string, nat>)
    requires forall i | 0 <= i < |text| :: text[i] != NUL
    ensures fresh(hm) && hm.Valid()
    ensures forall t :: hm.Get(t) == if WordCount(text, t) == 0 then None else Some(WordCount(text, t))
    ensures forall t | HasCapital(t) :: hm.Get(t) == None
  {
    var tk := new Tokenizer(text);
    hm := new HashMap(HASH_SIZE, StringHash);
    ghost var words: seq<string>, before := [], 0;
    ghost var all := Words(Tokens(text, 0));
    var token := tk.GetNextToken();
    while token.Some?
      invariant fresh(tk) && fresh(hm) && tk.Valid() && tk.Text() == text && Counts(hm, words)
      invariant Given(text, before, tk.kind, tk.curPos, token)
      invariant words + Words(Tokens(text, before)) == all
      decreases |text| - before
    {
      WordsStep(text, before, tk.kind, tk.curPos, token, words);
      if tk.kind == WORD {
        var word := LowerCase(token.value);
        CountWord(hm, word, words);
        words := words + [word];
      }
      before := tk.curPos;
      token := tk.GetNextToken();
    }
    NoWordsLeft(text, before, tk.kind, tk.curPos, words);
    CountsAll(hm, text);
  }

  lemma CountsAll(hm: HashMap<string, nat>, text: string)
    requires Counts(hm, Words(Tokens(text, 0)))
    ensures forall t :: hm.Get(t) == if WordCount(text, t) == 0 then None else Some(WordCount(text, t))
    ensures forall t | HasCapital(t) :: hm.Get(t) == None
  {
    forall t | HasCapital(t) ensures WordCount(text, t) == 0 {
      if WordCount(text, t) > 0 { NoCapitalCounted(text, t); }
    }
    forall t ensures Occurrences(Words(Tokens(text, 0)), t) == WordCount(text, t) { CountedRight(Tokens(text, 0), t); }
  }

  lemma WordsStep(s: string, i: nat, kind: TokenT, pos: nat, token: Option<string>, words: seq<string>)
    requires Given(s, i, kind, pos, token) && token.Some?
    ensures i < pos <= |s|
    ensures words + Words(Tokens(s, i)) ==
            (if kind == WORD then words + [Lower(token.value)] else words) + Words(Tokens(s, pos))
  {
    WordsCons(Tok(kind, token.value), Tokens(s, pos), words);
  }

  lemma WordsCons(tok: Tok, ts: seq<Tok>, words: seq<string>)
    ensures words + Words([tok] + ts) == (if tok.kind == WORD then words + [Lower(tok.text)] else words) + Words(ts)
  {
    assert ([tok] + ts)[1..] == ts;
  }

  lemma NoWordsLeft(s: string, i: nat, kind: TokenT, pos: nat, words: seq<string>)
    requires Given(s, i, kind, pos, None)
    ensures words + Words(Tokens(s, i)) == words
  {
    assert Tokens(s, i) == [];
  }

  // ----- The index -----

  /** The index with a record for each of some pairs of word and number. */
  function AddAll(ix: seq<Entry>, path: string, pairs: seq<Pair<string, nat>>): seq<Entry> {
    if pairs == [] then ix
    else
      var last := pairs[|pairs| - 1];
      Add(AddAll(ix, path, pairs[..|pairs| - 1]), last.key, Record(path, last.value))
  }

  lemma {:induction false} AddAllSays(ix: seq<Entry>, path: string, pairs: seq<Pair<string, nat>>, t: string, r: Record)
    requires IndexOk(ix)
    ensures IndexOk(AddAll(ix, path, pairs))
    ensures Says(AddAll(ix, path, pairs), t, r) <==> Says(ix, t, r) || (r.file == path && Pair(t, r.count) in pairs)
  {
    if pairs != [] {
      var n := |pairs| - 1;
      var front, last := AddAll(ix, path, pairs[..n]), pairs[n];
      AddAllSays(ix, path, pairs[..n], t, r);
      AddSays(front, last.key, Record(path, last.value));
      assert Says(Add(front, last.key, Record(path, last.value)), t, r) <==>
             Says(front, t, r) || (t == last.key && r == Record(path, last.value));
      InFrontOrLast(pairs, Pair(t, r.count));
    }
  }

  lemma InFrontOrLast(pairs: seq<Pair<string, nat>>, p: Pair<string, nat>)
    requires pairs != []
    ensures p in pairs <==> p in pairs[..|pairs| - 1] || p == pairs[|pairs| - 1]
  {
  }

  lemma AddOneMore(ix: seq<Entry>, path: string, pairs: seq<Pair<string, nat>>, k: nat)
    requires k < |pairs|
    ensures AddAll(ix, path, pairs[..k + 1]) ==
            Add(AddAll(ix, path, pairs[..k]), pairs[k].key, Record(path, pairs[k].value))
  {
    assert pairs[..k + 1][..k] == pairs[..k];
  }

  /** The pairs are the words of the file, each with its number. */
  ghost predicate Tells(pairs: seq<Pair<string, nat>>, f: File) {
    forall t, n :: Pair(t, n) in pairs <==> n > 0 && n == Count(f, t)
  }

  lemma CountsTell(hm: HashMap<string, nat>, f: File)
    requires hm.Valid()
    requires forall t :: hm.Get(t) == if Count(f, t) == 0 then None else Some(Count(f, t))
    ensures Tells(Flatten(hm.lists), f)
  {
    PairsAreContents(hm);
    forall t, n ensures Pair(t, n) in Flatten(hm.lists) <==> n > 0 && n == Count(f, t) {
      assert Pair(t, n) in Flatten(hm.lists) <==> hm.Get(t) == Some(n);
    }
  }

  /** b says what a says, and how often each word of the file occurs in it. */
  ghost predicate Enters(a: seq<Entry>, b: seq<Entry>, f: File) {
    && IndexOk(b)
    && forall t, r :: Says(b, t, r) <==> Says(a, t, r) || (r.file == f.path && r.count > 0 && r.count == Count(f, t))
  }

  lemma AddAllEnters(ix: seq<Entry>, f: File, pairs: seq<Pair<string, nat>>)
    requires IndexOk(ix) && Tells(pairs, f)
    ensures Enters(ix, AddAll(ix, f.path, pairs), f)
  {
    AddAllSays(ix, f.path, pairs, "", Record("", 0));
    forall t, r
      ensures Says(AddAll(ix, f.path, pairs), t, r) <==>
              Says(ix, t, r) || (r.file == f.path && r.count > 0 && r.count == Count(f, t))
    {
      AddAllSays(ix, f.path, pairs, t, r);
      assert Pair(t, r.count) in pairs <==> r.count > 0 && r.count == Count(f, t);
    }
  }

  /** The index of some files becomes the index of one more. */
  lemma EntersIndexes(a: seq<Entry>, b: seq<Entry>, files: seq<File>, f: File)
    requires Indexes(a, files) && Enters(a, b, f)
    ensures Indexes(b, files + [f])
  {
    OrderMeans(b);
    forall t, r
      ensures Says(b, t, r) <==>
              r.count > 0 && exists g :: g in files + [f] && g.path == r.file && Count(g, t) == r.count
    {
      if g :| g in files && g.path == r.file && Count(g, t) == r.count {
        assert g in files + [f];
      }
      assert f in files + [f];
    }
  }

  /** The index goes through these values while the files are indexed one after the other. */
  ghost predicate IsIndexing(states: seq<seq<Entry>>, files: seq<File>) {
    && |states| == |files| + 1 && states[0] == []
    && forall k | 0 <= k < |files| :: Enters(states[k], states[k + 1], files[k])
  }

  /** Whatever files are indexed, the outcome is their index. */
  lemma {:induction false} IndexingCorrect(states: seq<seq<Entry>>, files: seq<File>, k: nat)
    requires IsIndexing(states, files) && k <= |files|
    ensures Indexes(states[k], files[..k])
  {
    if k > 0 {
      IndexingCorrect(states, files, k - 1);
      EntersIndexes(states[k - 1], states[k], files[..k - 1], files[k - 1]);
      assert files[..k] == files[..k - 1] + [files[k - 1]];
    }
  }

  /** Indexing the same files in another order gives the same index. */
  lemma IndexingOrderIrrelevant(ws: seq<seq<Entry>>, xs: seq<File>, bs: seq<seq<Entry>>, ys: seq<File>)
    requires IsIndexing(ws, xs) && IsIndexing(bs, ys) && multiset(xs) == multiset(ys)
    ensures ws[|xs|] == bs[|ys|]
  {
    IndexingCorrect(ws, xs, |xs|);
    IndexingCorrect(bs, ys, |ys|);
    assert xs[..|xs|] == xs && ys[..|ys|] == ys;
    forall f ensures f in xs <==> f in ys {
      assert f in xs <==> f in multiset(xs);
      assert f in ys <==> f in multiset(ys);
    }
    OrderIrrelevant(ws[|xs|], bs[|ys|], xs, ys);
  }

  // The body of the loop of index_file: pair number done is entered, and the next one fetched.
  method EnterPair(indeces: Indeces, hmi: Iterator<string, nat>, path: string, pair: Pair<string, nat>,
                   ghost start: seq<Entry>, ghost done: nat)
    returns (next: Option<Pair<string, nat>>, ghost made: set<SortedList<Record>>)
    requires hmi.Valid() && IsNext(hmi.hm.lists, done, Some(pair), hmi.Given())
    requires indeces.Valid() && done < |Flatten(hmi.hm.lists)|
    requires indeces.entries == AddAll(start, path, Flatten(hmi.hm.lists)[..done])
    modifies indeces, indeces.list, indeces.made, hmi
    ensures hmi.Valid() && IsNext(hmi.hm.lists, done + 1, next, hmi.Given())
    ensures indeces.Valid() && fresh(made) && indeces.made <= old(indeces.made) + made
    ensures indeces.entries == AddAll(start, path, Flatten(hmi.hm.lists)[..done + 1])
  {
    AddOneMore(start, path, Flatten(hmi.hm.lists), done);
    indeces.AddRecord(pair.key, Record(path, pair.value));
    made := indeces.made - old(indeces.made);
    next := hmi.GetNext();
  }

  lemma AllDone(lists: seq<seq<Pair<string, nat>>>, done: nat, m: nat)
    requires done <= |Flatten(lists)| && IsNext(lists, done, None, m)
    ensures Flatten(lists)[..done] == Flatten(lists)
  {
  }

  // The loop of index_file over the pairs of the hash map.
  method AddRecords(indeces: Indeces, hmi: Iterator<string, nat>, path: string)
    requires hmi.Valid() && hmi.Given() == 0 && indeces.Valid()
    modifies indeces, indeces.list, indeces.made, hmi
    ensures indeces.Valid() && fresh(indeces.made - old(indeces.made))
    ensures indeces.entries == AddAll(old(indeces.entries), path, Flatten(hmi.hm.lists))
  {
    ghost var pairs, done := Flatten(hmi.hm.lists), 0;
    ghost var start, made := indeces.entries, {};
    var temp := hmi.GetNext();
    while temp.Some?
      invariant hmi.Valid() && done <= |pairs| && IsNext(hmi.hm.lists, done, temp, hmi.Given())
      invariant indeces.Valid() && fresh(made) && indeces.made <= old(indeces.made) + made
      invariant indeces.entries == AddAll(start, path, pairs[..done])
      decreases |pairs| - done
    {
      ghost var more;
      temp, more := EnterPair(indeces, hmi, path, temp.value, start, done);
      made, done := made + more, done + 1;
    }
    AllDone(hmi.hm.lists, done, hmi.Given());
  }

  // index_file: the path is entered without its first offset characters.
  method IndexFile(indeces: Indeces, offset: nat, path: string, text: string)
    requires offset <= |path| && forall i | 0 <= i < |text| :: text[i] != NUL
    requires indeces.Valid() && IndexOk(indeces.entries)
    modifies indeces, indeces.list, indeces.made
    ensures indeces.Valid() && fresh(indeces.made - old(indeces.made))
    ensures Enters(old(indeces.entries), indeces.entries, File(path[offset..], text))
  {
    ghost var start := indeces.entries;
    var relativePath := path[offset..];
    var hm := TokenizeFile(text);
    CountsTell(hm, File(relativePath, text));
    var hmi := new Iterator(hm);
    AddRecords(indeces, hmi, relativePath);
    AddAllEnters(start, File(relativePath, text), Flatten(hm.lists));
  }

  /** The files as the index knows them: paths without their first offset characters. */
  function Relative(offset: nat, files: seq<File>): (r: seq<File>)
    requires forall f | f in files :: offset <= |f.path|
    ensures |r| == |files|
    ensures forall k | 0 <= k < |r| :: r[k] == File(files[k].path[offset..], files[k].text)
  {
    seq(|files|, k requires 0 <= k < |files| => assert files[k] in files; File(files[k].path[offset..], files[k].text))
  }

  // A run of the program over some files, in the order in which it comes upon them.
  method IndexFiles(offset: nat, files: seq<File>) returns (indeces: Indeces, ghost states: seq<seq<Entry>>)
    requires forall f | f in files :: offset <= |f.path|
    requires forall f | f in files :: forall i | 0 <= i < |f.text| :: f.text[i] != NUL
    ensures fresh(indeces) && indeces.Valid()
    ensures IsIndexing(states, Relative(offset, files)) && states[|files|] == indeces.entries
    ensures Indexes(indeces.entries, Relative(offset, files))
  {
    ghost var rel := Relative(offset, files);
    indeces := new Indeces();
    states := [[]];
    for k := 0 to |files|
      invariant fresh(indeces) && indeces.Valid() && fresh(indeces.list) && fresh(indeces.made)
      invariant Indexed(states, rel, k, indeces.entries)
    {
      IndexedInOrder(states, rel, k, indeces.entries);
      assert files[k] in files;
      IndexFile(indeces, offset, files[k].path, files[k].text);
      IndexedOneMore(states, rel, k, indeces.entries);
      states := states + [indeces.entries];
    }
    IndexedAll(states, rel, indeces.entries);
  }

  /** Of the files the first k have been indexed, and the index is ix. */
  ghost predicate Indexed(states: seq<seq<Entry>>, files: seq<File>, k: nat, ix: seq<Entry>) {
    k <= |files| && IsIndexing(states, files[..k]) && states[k] == ix
  }

  lemma IndexedInOrder(states: seq<seq<Entry>>, files: seq<File>, k: nat, ix: seq<Entry>)
    requires Indexed(states, files, k, ix)
    ensures IndexOk(ix)
  {
    IndexingCorrect(states, files[..k], k);
    OrderMeans(ix);
  }

  lemma IndexedOneMore(states: seq<seq<Entry>>, files: seq<File>, k: nat, ix: seq<Entry>)
    requires k < |files| && |states| == k + 1 && Indexed(states, files, k, states[k])
    requires Enters(states[k], ix, files[k])
    ensures Indexed(states + [ix], files, k + 1, ix)
  {
  }

  lemma IndexedAll(states: seq<seq<Entry>>, files: seq<File>, ix: seq<Entry>)
    requires Indexed(states, files, |files|, ix)
    ensures IsIndexing(states, files) && states[|files|] == ix && Indexes(ix, files)
  {
    assert files[..|files|] == files;
    IndexingCorrect(states, files, |files|);
  }
}
