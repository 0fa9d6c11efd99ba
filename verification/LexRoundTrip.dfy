/** Printing tokens and lexing them again. */
module LexRoundTrip {
  import opened LexSpec

  // ----- The same characters elsewhere, followed by white space or the end -----

  ghost predicate At(s: string, i: nat, t: string, j: nat, k: nat) {
    Peek(s, i + k) == Peek(t, j + k)
  }

  /** n characters of s from i on stand in t from j on. */
  ghost predicate Same(s: string, i: nat, t: string, j: nat, n: nat) {
    forall k {:trigger At(s, i, t, j, k)} | 0 <= k < n :: At(s, i, t, j, k)
  }

  predicate Stop(c: char) {
    IsSpace(c) || c == NUL
  }

  ghost predicate Moved(s: string, i: nat, t: string, j: nat, n: nat) {
    Same(s, i, t, j, n) && Stop(Peek(t, j + n))
  }

  lemma Shift(s: string, i: nat, t: string, j: nat, n: nat, m: nat)
    requires Moved(s, i, t, j, n) && m <= n
    ensures Moved(s, i + m, t, j + m, n - m)
  {
    var i', j' := i + m, j + m;
    forall k | 0 <= k < n - m ensures At(s, i', t, j', k) {
      assert At(s, i, t, j, m + k);
    }
  }

  lemma {:induction false} RunMoves(s: string, i: nat, t: string, j: nat, n: nat, c: Class)
    requires Moved(s, i, t, j, n) && RunEnd(s, i, c) <= i + n
    ensures RunEnd(t, j, c) == j + (RunEnd(s, i, c) - i)
    ensures !In(c, Peek(s, RunEnd(s, i, c)))
    decreases n
  {
    RunIsMaximal(s, i, c);
    if n > 0 {
      assert At(s, i, t, j, 0);
      if In(c, Peek(s, i)) {
        Shift(s, i, t, j, n, 1);
        RunMoves(s, i + 1, t, j + 1, n - 1, c);
      }
    }
  }

  lemma FloatWithExpMoves(s: string, i: nat, t: string, j: nat)
    requires i < FloatWithExp(s, i).end && Moved(s, i, t, j, FloatWithExp(s, i).end - i)
    ensures FloatWithExp(t, j) == Lexeme(FloatWithExp(s, i).kind, j + (FloatWithExp(s, i).end - i))
  {
    var n := FloatWithExp(s, i).end - i;
    if n > 1 {
      assert At(s, i, t, j, 1);
      Shift(s, i, t, j, n, 1);
      if IsDigit(Peek(s, i + 1)) { RunMoves(s, i + 1, t, j + 1, n - 1, Digits); }
    }
    if n > 2 {
      assert At(s, i, t, j, 2);
      Shift(s, i, t, j, n, 2);
      if IsDigit(Peek(s, i + 2)) { RunMoves(s, i + 2, t, j + 2, n - 2, Digits); }
    }
  }

  /** The exponent part, if any, behind the digits that end at e. */
  lemma FloatMoves(s: string, i: nat, t: string, j: nat)
    requires i < Float(s, i).end && Moved(s, i, t, j, Float(s, i).end - i)
    ensures Float(t, j) == Lexeme(Float(s, i).kind, j + (Float(s, i).end - i))
  {
    var n, e := Float(s, i).end - i, RunEnd(s, i + 1, Digits);
    Shift(s, i, t, j, n, 1);
    RunMoves(s, i + 1, t, j + 1, n - 1, Digits);
    if IsExp(Peek(s, e)) {
      Shift(s, i, t, j, n, e - i);
      assert At(s, i, t, j, e - i);
      FloatWithExpMoves(s, e, t, j + (e - i));
    }
  }

  lemma DecimalMoves(s: string, i: nat, t: string, j: nat)
    requires i <= Decimal(s, i).end && Moved(s, i, t, j, Decimal(s, i).end - i)
    ensures Decimal(t, j) == Lexeme(Decimal(s, i).kind, j + (Decimal(s, i).end - i))
  {
    var n, e := Decimal(s, i).end - i, RunEnd(s, i, Digits);
    RunMoves(s, i, t, j, n, Digits);
    Shift(s, i, t, j, n, e - i);
    if e < i + n { assert At(s, i, t, j, e - i); }
    if Peek(s, e) == '.' {
      FloatMoves(s, e, t, j + (e - i));
    } else if IsExp(Peek(s, e)) {
      FloatWithExpMoves(s, e, t, j + (e - i));
    }
  }

  lemma HexMoves(s: string, i: nat, t: string, j: nat)
    requires i < Hex(s, i).end && Moved(s, i, t, j, Hex(s, i).end - i)
    ensures Hex(t, j) == Lexeme(Hex(s, i).kind, j + (Hex(s, i).end - i))
  {
    var n := Hex(s, i).end - i;
    Shift(s, i, t, j, n, 1);
    RunMoves(s, i + 1, t, j + 1, n - 1, XDigits);
    if n > 1 { assert At(s, i, t, j, 1); }
  }

  lemma OctalMoves(s: string, i: nat, t: string, j: nat)
    requires i < Octal(s, i).end && Moved(s, i, t, j, Octal(s, i).end - i)
    ensures Octal(t, j) == Lexeme(Octal(s, i).kind, j + (Octal(s, i).end - i))
  {
    var n, c := Octal(s, i).end - i, Peek(s, i + 1);
    Shift(s, i, t, j, n, 1);
    if n > 1 {
      assert At(s, i, t, j, 1);
      if c == 'x' || c == 'X' {
        HexMoves(s, i + 1, t, j + 1);
      } else if IsODigit(c) {
        OctalRunMoves(s, i, t, j);
      } else {
        FloatMoves(s, i + 1, t, j + 1);
      }
    }
  }

  lemma OctalTailMoves(s: string, i: nat, t: string, j: nat)
    requires i <= OctalTail(s, i).end && Moved(s, i, t, j, OctalTail(s, i).end - i)
    ensures OctalTail(t, j) == Lexeme(OctalTail(s, i).kind, j + (OctalTail(s, i).end - i))
  {
    if i < OctalTail(s, i).end { assert At(s, i, t, j, 0); }
    if '8' <= Peek(s, i) <= '9' {
      DecimalMoves(s, i, t, j);
    } else if Peek(s, i) == '.' {
      FloatMoves(s, i, t, j);
    }
  }

  lemma OctalRunMoves(s: string, i: nat, t: string, j: nat)
    requires i < Octal(s, i).end && Moved(s, i, t, j, Octal(s, i).end - i)
    requires IsODigit(Peek(s, i + 1)) && IsODigit(Peek(t, j + 1))
    ensures Octal(t, j) == Lexeme(Octal(s, i).kind, j + (Octal(s, i).end - i))
  {
    var n, e := Octal(s, i).end - i, RunEnd(s, i + 1, ODigits);
    OctalIsTail(s, i);
    Shift(s, i, t, j, n, 1);
    RunMoves(s, i + 1, t, j + 1, n - 1, ODigits);
    Shift(s, i, t, j, n, e - i);
    OctalTailMoves(s, e, t, j + (e - i));
    OctalIsTail(t, j);
  }

  lemma OctalIsTail(s: string, i: nat)
    requires IsODigit(Peek(s, i + 1))
    ensures Octal(s, i) == OctalTail(s, RunEnd(s, i + 1, ODigits))
  {
  }

  lemma PuncMoves(s: string, i: nat, t: string, j: nat)
    requires i < |s| && IsPunct(s[i]) && Punc(s, i).Token?
    requires Moved(s, i, t, j, Punc(s, i).lexeme.end - i)
    ensures Punc(t, j) == Token(Lexeme(Punc(s, i).lexeme.kind, j + (Punc(s, i).lexeme.end - i)))
  {
    var n := Punc(s, i).lexeme.end - i;
    assert At(s, i, t, j, 0);
    if n > 1 { assert At(s, i, t, j, 1); }
    if n > 2 { assert At(s, i, t, j, 2); }
    if Peek(s, i) == '.' && IsDigit(Peek(s, i + 1)) {
      Shift(s, i, t, j, n, 1);
      FloatMoves(s, i + 1, t, j + 1);
    }
  }

  /** The key to the round trip: the characters of a token, put anywhere and followed by white
      space or the end of the text, are that token again. */
  lemma TokenMoves(s: string, i: nat, t: string, j: nat)
    requires i < |s| && !IsSpace(s[i]) && 0 < s[i] as int < 128 && Start(s, i).Token?
    requires Moved(s, i, t, j, Start(s, i).lexeme.end - i)
    ensures Start(t, j) == Token(Lexeme(Start(s, i).lexeme.kind, j + (Start(s, i).lexeme.end - i)))
  {
    var n := Start(s, i).lexeme.end - i;
    StartAdvances(s, i);
    assert At(s, i, t, j, 0);
    if s[i] == '0' {
      OctalMoves(s, i, t, j);
    } else if IsDigit(s[i]) {
      DecimalMoves(s, i, t, j);
    } else if IsAlpha(s[i]) {
      Shift(s, i, t, j, n, 1);
      RunMoves(s, i + 1, t, j + 1, n - 1, Alnums);
    } else if IsPunct(s[i]) {
      PuncMoves(s, i, t, j);
    }
  }

  // ----- The tokens of a text -----

  datatype Tok = Tok(kind: TokenT, text: string)

  /** What repeated calls of TKGetNextToken give, from position i on. */
  function Tokens(s: string, i: nat): seq<Tok>
    requires i <= |s|
    decreases |s| - i
  {
    var f := Next(s, i);
    if f.begin == f.end then [] else [Tok(f.kind, s[f.begin..f.end])] + Tokens(s, f.end)
  }

  function Join(ts: seq<Tok>): string {
    if ts == [] then "" else if |ts| == 1 then ts[0].text else ts[0].text + " " + Join(ts[1..])
  }

  /** A token whose text, all by itself, is that token. */
  predicate Stands(tok: Tok) {
    && tok.text != [] && !IsSpace(tok.text[0]) && 0 < tok.text[0] as int < 128
    && Start(tok.text, 0) == Token(Lexeme(tok.kind, |tok.text|))
  }

  function Nth(ts: seq<Tok>, k: nat): Tok
    requires k < |ts|
  {
    ts[k]
  }

  ghost predicate AllStand(ts: seq<Tok>) {
    forall k {:trigger Nth(ts, k)} | 0 <= k < |ts| :: Stands(Nth(ts, k))
  }

  lemma AllStandTail(ts: seq<Tok>)
    requires AllStand(ts) && ts != []
    ensures AllStand(ts[1..])
  {
    forall k | 0 <= k < |ts[1..]| ensures Stands(Nth(ts[1..], k)) {
      assert Nth(ts[1..], k) == Nth(ts, k + 1);
    }
  }

  lemma {:induction false} NextIsStart(s: string, i: nat)
    requires i <= |s|
    ensures var f := Next(s, i);
            f.begin < f.end ==> !IsSpace(s[f.begin]) && Start(s, f.begin) == Token(Lexeme(f.kind, f.end))
    decreases |s| - i
  {
    var b := SpaceEnd(s, i);
    if b < |s| && Start(s, b).Comment? {
      StartAdvances(s, b);
      NextIsStart(s, Start(s, b).end);
    }
  }

  lemma {:induction false} TokensStand(s: string, i: nat)
    requires Ascii(s) && i <= |s|
    ensures forall tok | tok in Tokens(s, i) :: Stands(tok)
    decreases |s| - i
  {
    var f := Next(s, i);
    if f.begin < f.end {
      var text := s[f.begin..f.end];
      NextIsStart(s, i);
      forall k | 0 <= k < |text| ensures At(s, f.begin, text, 0, k) {}
      TokenMoves(s, f.begin, text, 0);
      TokensStand(s, f.end);
    }
  }

  lemma SkipSpace(s: string, i: nat)
    requires i < |s| && IsSpace(s[i])
    ensures Next(s, i) == Next(s, i + 1) && Tokens(s, i) == Tokens(s, i + 1)
  {
  }

  /** The tokens stand in t from p to its end, separated by white space. */
  predicate Printed(t: string, p: nat, ts: seq<Tok>)
    requires p <= |t|
    decreases |ts|
  {
    if ts == [] then p == |t|
    else
      var q := p + |ts[0].text|;
      && q <= |t| && t[p..q] == ts[0].text
      && if |ts| == 1 then q == |t| else q < |t| && IsSpace(t[q]) && Printed(t, q + 1, ts[1..])
  }

  lemma {:induction false} JoinPrints(t: string, p: nat, ts: seq<Tok>)
    requires p <= |t| && t[p..] == Join(ts)
    ensures Printed(t, p, ts)
    decreases |ts|
  {
    if ts != [] {
      var n := |ts[0].text|;
      assert t[p..][..n] == t[p..p + n];
      if |ts| > 1 {
        assert t[p..][n] == t[p + n];
        assert t[p..][n + 1..] == t[p + n + 1..];
        JoinPrints(t, p + n + 1, ts[1..]);
      }
    }
  }

  /** Printed tokens lex to themselves. */
  lemma {:induction false} PrintLexes(t: string, p: nat, ts: seq<Tok>)
    requires p <= |t| && Printed(t, p, ts) && AllStand(ts)
    ensures Tokens(t, p) == ts
    decreases |ts|
  {
    if ts == [] {
      NothingAtEnd(t);
    } else if |ts| == 1 {
      LastPrinted(t, p, ts);
    } else {
      AllStandTail(ts);
      PrintLexes(t, p + |ts[0].text| + 1, ts[1..]);
      InnerPrinted(t, p, ts);
    }
  }

  lemma LastPrinted(t: string, p: nat, ts: seq<Tok>)
    requires p <= |t| && Printed(t, p, ts) && AllStand(ts) && |ts| == 1
    ensures Tokens(t, p) == ts
  {
    NextPrinted(t, p, ts);
    LastLexes(t, p, ts[0]);
  }

  lemma InnerPrinted(t: string, p: nat, ts: seq<Tok>)
    requires p <= |t| && Printed(t, p, ts) && AllStand(ts) && |ts| > 1
    requires Tokens(t, p + |ts[0].text| + 1) == ts[1..]
    ensures Tokens(t, p) == ts
  {
    NextPrinted(t, p, ts);
    InnerLexes(t, p, ts, p + |ts[0].text|);
  }

  lemma LastLexes(t: string, p: nat, tok: Tok)
    requires p < |t| && Next(t, p) == Found(tok.kind, p, |t|) && tok.text == t[p..]
    ensures Tokens(t, p) == [tok]
  {
    FoundIsFirst(t, p, tok, |t|);
    NothingAtEnd(t);
  }

  lemma InnerLexes(t: string, p: nat, ts: seq<Tok>, e: nat)
    requires ts != [] && p < e < |t| && Next(t, p) == Found(ts[0].kind, p, e) && ts[0].text == t[p..e]
    requires IsSpace(t[e]) && Tokens(t, e + 1) == ts[1..]
    ensures Tokens(t, p) == ts
  {
    FoundThenSpace(t, p, ts[0], e);
    FirstAndRest(ts);
  }

  /** The first of some printed tokens is found. */
  lemma NextPrinted(t: string, p: nat, ts: seq<Tok>)
    requires p <= |t| && Printed(t, p, ts) && AllStand(ts) && ts != []
    ensures var q := p + |ts[0].text|;
            && p < q <= |t| && t[p..q] == ts[0].text && Next(t, p) == Found(ts[0].kind, p, q)
            && (|ts| > 1 ==> q < |t| && IsSpace(t[q])) && (|ts| == 1 ==> q == |t|)
  {
    NextStands(t, p, Nth(ts, 0));
  }

  lemma FirstAndRest(ts: seq<Tok>)
    requires ts != []
    ensures ts == [ts[0]] + ts[1..]
  {
  }

  lemma NothingAtEnd(t: string)
    ensures Tokens(t, |t|) == []
  {
  }

  lemma SliceMoved(t: string, p: nat, text: string)
    requires p + |text| <= |t| && t[p..p + |text|] == text && Stop(Peek(t, p + |text|))
    ensures Moved(text, 0, t, p, |text|)
  {
    forall k | 0 <= k < |text| ensures At(text, 0, t, p, k) {
      assert t[p..p + |text|][k] == t[p + k];
    }
  }

  lemma NextStands(t: string, p: nat, tok: Tok)
    requires Stands(tok) && p + |tok.text| <= |t| && t[p..p + |tok.text|] == tok.text
    requires Stop(Peek(t, p + |tok.text|))
    ensures Next(t, p) == Found(tok.kind, p, p + |tok.text|)
  {
    SliceMoved(t, p, tok.text);
    TokenMoves(tok.text, 0, t, p);
    assert t[p] == t[p..p + |tok.text|][0];
    StartIsNext(t, p, tok.kind, p + |tok.text|);
  }

  lemma StartIsNext(t: string, p: nat, kind: TokenT, e: nat)
    requires p < e <= |t| && !IsSpace(t[p]) && Start(t, p) == Token(Lexeme(kind, e))
    ensures Next(t, p) == Found(kind, p, e)
  {
    assert SpaceEnd(t, p) == p;
  }

  lemma FoundIsFirst(t: string, p: nat, tok: Tok, e: nat)
    requires p < e <= |t| && Next(t, p) == Found(tok.kind, p, e) && tok.text == t[p..e]
    ensures Tokens(t, p) == [tok] + Tokens(t, e)
  {
  }

  lemma FoundThenSpace(t: string, p: nat, tok: Tok, e: nat)
    requires p < e < |t| && Next(t, p) == Found(tok.kind, p, e) && tok.text == t[p..e] && IsSpace(t[e])
    ensures Tokens(t, p) == [tok] + Tokens(t, e + 1)
  {
    FoundIsFirst(t, p, tok, e);
    SkipSpace(t, e);
  }

  /** For every ASCII text: printing its tokens with single spaces and lexing the print gives the
      same tokens, kinds and texts. */
  lemma RoundTrip(s: string)
    requires Ascii(s)
    ensures Tokens(Join(Tokens(s, 0)), 0) == Tokens(s, 0)
  {
    TokensStand(s, 0);
    var t := Join(Tokens(s, 0));
    assert t[0..] == t;
    JoinPrints(t, 0, Tokens(s, 0));
    forall k | 0 <= k < |Tokens(s, 0)| ensures Stands(Nth(Tokens(s, 0), k)) {
      assert Tokens(s, 0)[k] in Tokens(s, 0);
    }
    PrintLexes(t, 0, Tokens(s, 0));
  }
}
