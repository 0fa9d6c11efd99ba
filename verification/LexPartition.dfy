/** Tokens and skipped regions together are the whole text, in order. */
module LexPartition {
  import opened LexSpec
  import opened LexRoundTrip
  import opened LexLanguage

  // ----- What may be skipped -----

  predicate NoNewline(s: string, a: nat, b: nat)
    requires b <= |s|
  {
    forall k | a <= k < b :: s[k] != '\n'
  }

  /** A line comment from a to m: to just behind its newline, or to the end of the text. */
  predicate LineComment(s: string, a: nat, m: nat) {
    && a + 1 < m <= |s| && CommentMark(s[a]) && s[a + 1] == '/'
    && ((m > a + 2 && s[m - 1] == '\n' && NoNewline(s, a + 2, m - 1)) || (m == |s| && NoNewline(s, a + 2, m)))
  }

  predicate Closes(s: string, k: nat) {
    k + 1 < |s| && s[k] == '*' && s[k + 1] == '/'
  }

  predicate NoClose(s: string, a: nat, b: nat) {
    forall k | a <= k < b :: !Closes(s, k)
  }

  /** A block comment from a to m: to just behind the first close, or to the end of the text. */
  predicate BlockComment(s: string, a: nat, m: nat) {
    && a + 1 < m <= |s| && CommentMark(s[a]) && s[a + 1] == '*'
    && ((m >= a + 4 && Closes(s, m - 2) && NoClose(s, a + 2, m - 2)) || (m == |s| && NoClose(s, a + 2, m)))
  }

  predicate IsComment(s: string, a: nat, m: nat) {
    LineComment(s, a, m) || BlockComment(s, a, m)
  }

  /** White space and comments, one after the other. */
  ghost predicate Skippable(s: string, a: nat, b: nat)
    decreases b - a
  {
    || a == b <= |s|
    || (a < b <= |s| && IsSpace(s[a]) && Skippable(s, a + 1, b))
    || (exists m :: a < m <= b && IsComment(s, a, m) && Skippable(s, m, b))
  }

  // ----- The lexer skips just that -----

  lemma {:induction false} LineEndMeans(s: string, i: nat)
    requires i <= |s|
    ensures var e := LineEnd(s, i);
            (e > i && s[e - 1] == '\n' && NoNewline(s, i, e - 1)) || (e == |s| && NoNewline(s, i, e))
    decreases |s| - i
  {
    if i < |s| && s[i] != '\n' { LineEndMeans(s, i + 1); }
  }

  lemma {:induction false} BlockEndMeans(s: string, i: nat)
    requires i <= |s|
    ensures var e := BlockEnd(s, i);
            (e >= i + 2 && Closes(s, e - 2) && NoClose(s, i, e - 2)) || (e == |s| && NoClose(s, i, e))
    decreases |s| - i
  {
    if i < |s| && !Closes(s, i) { BlockEndMeans(s, i + 1); }
  }

  lemma CommentIsComment(s: string, i: nat)
    requires i < |s| && Start(s, i).Comment?
    ensures i < Start(s, i).end <= |s| && IsComment(s, i, Start(s, i).end)
  {
    StartAdvances(s, i);
    LineEndMeans(s, i + 2);
    BlockEndMeans(s, i + 2);
  }

  /** A token never starts where a comment does. */
  lemma TokenIsNoComment(s: string, i: nat, m: nat)
    requires i < |s| && Start(s, i).Token?
    ensures !IsComment(s, i, m)
  {
    if i + 1 < |s| && CommentMark(s[i]) {
      assert IsPunct(s[i]) && Peek(s, i + 1) == s[i + 1];
    }
  }

  // ----- Comments, one by one -----

  /** Where a comment starts: at one of the eight characters before a slash or an asterisk. */
  lemma CommentStarts(s: string, i: nat)
    requires i < |s|
    ensures (exists m :: IsComment(s, i, m)) <==>
            i + 1 < |s| && CommentMark(s[i]) && (s[i + 1] == '/' || s[i + 1] == '*')
  {
    if i + 1 < |s| && CommentMark(s[i]) && (s[i + 1] == '/' || s[i + 1] == '*') {
      assert Start(s, i).Comment?;
      CommentIsComment(s, i);
    }
  }

  /** A comment ends where it is first closed. */
  lemma CommentEndsOnce(s: string, i: nat, m: nat, n: nat)
    requires IsComment(s, i, m) && IsComment(s, i, n)
    ensures m == n
  {
    EndsClosed(s, i, m);
    EndsClosed(s, i, n);
  }

  lemma EndsClosed(s: string, i: nat, m: nat)
    requires IsComment(s, i, m)
    ensures s[i + 1] == '/' ==> NoNewline(s, i + 2, m - 1) && (m < |s| ==> m > i + 2 && s[m - 1] == '\n')
    ensures s[i + 1] == '*' ==> NoClose(s, i + 2, m - 2) && (m < |s| ==> m >= i + 4 && Closes(s, m - 2))
    ensures s[i + 1] == '/' || s[i + 1] == '*'
  {
  }

  /** A comment is passed over, to just behind its newline or its close, or to the end. */
  lemma CommentSkipped(s: string, i: nat, m: nat)
    requires IsComment(s, i, m)
    ensures i < m <= |s| && Next(s, i) == Next(s, m)
  {
    assert Start(s, i).Comment? && !IsSpace(s[i]);
    CommentIsComment(s, i);
    CommentEndsOnce(s, i, m, Start(s, i).end);
  }

  /** Whatever is neither white space nor the start of a comment is the start of a token. */
  lemma OthersAreTokens(s: string, i: nat)
    requires Ascii(s) && i < |s| && !IsSpace(s[i]) && forall m :: !IsComment(s, i, m)
    ensures Next(s, i).begin == i < Next(s, i).end
  {
    StartAdvances(s, i);
    if Start(s, i).Comment? { CommentIsComment(s, i); }
  }

  lemma {:induction false} SpacesSkip(s: string, i: nat, b: nat)
    requires i <= SpaceEnd(s, i) <= b <= |s| && Skippable(s, SpaceEnd(s, i), b)
    ensures Skippable(s, i, b)
    decreases |s| - i
  {
    if i < |s| && IsSpace(s[i]) { SpacesSkip(s, i + 1, b); }
  }

  /** What Next passes over is skippable; where it stops nothing more is; and it finds nothing
      only at the end of the text. */
  lemma {:induction false} NextSkips(s: string, i: nat)
    requires Ascii(s) && i <= |s|
    ensures var f := Next(s, i);
            && Skippable(s, i, f.begin)
            && (f.begin < |s| ==> !IsSpace(s[f.begin]) && forall m :: !IsComment(s, f.begin, m))
            && (f.begin == f.end ==> f.begin == |s|)
    decreases |s| - i
  {
    var b, f := SpaceEnd(s, i), Next(s, i);
    if b < |s| {
      StartAdvances(s, b);
      if Start(s, b).Comment? {
        CommentIsComment(s, b);
        NextSkips(s, Start(s, b).end);
        assert Skippable(s, b, f.begin);
      } else {
        forall m ensures !IsComment(s, b, m) { TokenIsNoComment(s, b, m); }
      }
    }
    SpacesSkip(s, i, f.begin);
  }

  // ----- The whole text -----

  function Founds(s: string, i: nat): seq<Found>
    requires i <= |s|
    decreases |s| - i
  {
    var f := Next(s, i);
    if f.begin == f.end then [] else [f] + Founds(s, f.end)
  }

  /** From i on, the text is tokens, in order and apart, with skippable gaps. */
  ghost predicate Covered(s: string, i: nat, fs: seq<Found>)
    requires i <= |s|
    decreases |fs|
  {
    if fs == [] then Skippable(s, i, |s|)
    else
      && i <= fs[0].begin < fs[0].end <= |s|
      && Skippable(s, i, fs[0].begin)
      && Covered(s, fs[0].end, fs[1..])
  }

  lemma {:induction false} Partition(s: string, i: nat)
    requires Ascii(s) && i <= |s|
    ensures Covered(s, i, Founds(s, i))
    decreases |s| - i
  {
    NextSkips(s, i);
    var f := Next(s, i);
    if f.begin < f.end {
      Partition(s, f.end);
      assert Founds(s, i)[1..] == Founds(s, f.end);
    }
  }

  /** The token texts are the covered substrings. */
  lemma {:induction false} TokensAreFounds(s: string, i: nat)
    requires i <= |s|
    ensures |Tokens(s, i)| == |Founds(s, i)|
    ensures forall k | 0 <= k < |Founds(s, i)| ::
              var f := Founds(s, i)[k];
              f.begin <= f.end <= |s| && Tokens(s, i)[k] == Tok(f.kind, s[f.begin..f.end])
    decreases |s| - i
  {
    var f := Next(s, i);
    if f.begin < f.end { TokensAreFounds(s, f.end); }
  }
}
