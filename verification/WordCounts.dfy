/** The words of a file, whatever their case, and how often each occurs. */
module WordCounts {
  import opened LexSpec
  import opened LexRoundTrip

  // ----- What is counted -----

  /** d is c in lower case: the letter as far from a as c is from A, or c itself. */
  predicate Lowers(c: char, d: char) {
    if 'A' <= c <= 'Z' then 'a' <= d <= 'z' && d as int - 'a' as int == c as int - 'A' as int else d == c
  }

  /** t is the text in lower case. */
  predicate Spells(text: string, t: string) {
    |text| == |t| && forall k | 0 <= k < |text| :: Lowers(text[k], t[k])
  }

  /** The places of the word t among some tokens. */
  function Places(ts: seq<Tok>, t: string): set<nat> {
    set k | 0 <= k < |ts| && ts[k].kind == WORD && Spells(ts[k].text, t)
  }

  function WordCount(text: string, t: string): nat {
    |Places(Tokens(text, 0), t)|
  }

  datatype File = File(path: string, text: string)

  function Count(f: File, t: string): nat {
    WordCount(f.text, t)
  }

  predicate HasCapital(t: string) {
    exists k | 0 <= k < |t| :: 'A' <= t[k] <= 'Z'
  }

  /** Only words in lower case are counted. */
  lemma NoCapitalCounted(text: string, t: string)
    requires WordCount(text, t) > 0
    ensures !HasCapital(t)
  {
    var ts := Tokens(text, 0);
    assert Places(ts, t) != {};
    var k :| k in Places(ts, t);
    forall j | 0 <= j < |t| ensures !('A' <= t[j] <= 'Z') {
      assert Lowers(ts[k].text[j], t[j]);
    }
  }

  predicate SameLetter(c: char, d: char) {
    c == d || ('A' <= c <= 'Z' && d as int == c as int + 32) || ('A' <= d <= 'Z' && c as int == d as int + 32)
  }

  /** Words that differ in case only count as one. */
  lemma CaseIgnored(a: string, b: string, t: string)
    requires |a| == |b| && forall k | 0 <= k < |a| :: SameLetter(a[k], b[k])
    ensures Spells(a, t) <==> Spells(b, t)
  {
    if |a| == |t| {
      forall k | 0 <= k < |a| ensures Lowers(a[k], t[k]) <==> Lowers(b[k], t[k]) {
        assert SameLetter(a[k], b[k]);
      }
    }
  }

  // ----- How the program counts -----

  /** tolower */
  function ToLower(c: char): char {
    if 'A' <= c <= 'Z' then (c as int + 32) as char else c
  }

  function Lower(s: string): (r: string)
    ensures |r| == |s| && forall k | 0 <= k < |s| :: r[k] == ToLower(s[k])
  {
    seq(|s|, k requires 0 <= k < |s| => ToLower(s[k]))
  }

  /** The words among some tokens, in lower case. */
  function Words(ts: seq<Tok>): seq<string> {
    if ts == [] then []
    else (if ts[0].kind == WORD then [Lower(ts[0].text)] else []) + Words(ts[1..])
  }

  function Occurrences(words: seq<string>, t: string): nat {
    multiset(words)[t]
  }

  lemma LowersOne(c: char, d: char)
    ensures Lowers(c, d) <==> d == ToLower(c)
  {
  }

  lemma SpellsOne(text: string, t: string)
    ensures Spells(text, t) <==> t == Lower(text)
  {
    if |t| == |text| {
      forall k | 0 <= k < |text| ensures Lowers(text[k], t[k]) <==> t[k] == Lower(text)[k] {
        LowersOne(text[k], t[k]);
      }
    }
  }

  function Up(s: set<nat>): set<nat> {
    set k | k in s :: k + 1
  }

  lemma {:induction false} UpKeepsSize(s: set<nat>)
    ensures |Up(s)| == |s|
  {
    if s != {} {
      var x :| x in s;
      UpKeepsSize(s - {x});
      forall k | k in s ensures k == x || k in s - {x} {}
      forall k | k in s - {x} ensures k in s {}
      assert Up(s) == Up(s - {x}) + {x + 1};
      assert x + 1 !in Up(s - {x});
    }
  }

  lemma PlacesStep(ts: seq<Tok>, t: string)
    requires ts != []
    ensures |Places(ts, t)| == |Places(ts[1..], t)| + if ts[0].kind == WORD && Spells(ts[0].text, t) then 1 else 0
  {
    var rest := Places(ts[1..], t);
    var moved := Up(rest);
    UpKeepsSize(rest);
    forall k ensures k in Places(ts, t) && k > 0 <==> k in moved {
      if k in Places(ts, t) && k > 0 { assert ts[1..][k - 1] == ts[k] && k - 1 in rest; }
    }
    assert Places(ts, t) == moved + if ts[0].kind == WORD && Spells(ts[0].text, t) then {0} else {};
  }

  /** The two agree. */
  lemma {:induction false} CountedRight(ts: seq<Tok>, t: string)
    ensures Occurrences(Words(ts), t) == |Places(ts, t)|
  {
    if ts == [] {
      assert Places(ts, t) == {};
    } else {
      CountedRight(ts[1..], t);
      PlacesStep(ts, t);
      SpellsOne(ts[0].text, t);
    }
  }
}
