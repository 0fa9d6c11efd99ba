/** Which texts the lexer takes for a token of a kind: those of the language of the kind, but for
    the numbers that it gives up after their leading zeros. */
module LexAccepts {
  import opened LexSpec
  import opened LexRoundTrip
  import opened LexLanguage

  /** A zero, then octal digits or none, and then the letter e; or a zero and an 8 or a 9. Here the
      lexer ends the token behind the octal digits. */
  predicate Abandoned(t: string) {
    && Peek(t, 0) == '0'
    && var k := RunEnd(t, 1, ODigits);
       IsExp(Peek(t, k)) || (k == 1 && IsDigit(Peek(t, k)))
  }

  predicate Accepted(kind: TokenT, t: string) {
    Lang(kind, t) && ((kind == FLOAT || kind == MAL) ==> !Abandoned(t))
  }

  // ----- Every token is accepted -----

  lemma AbandonedIsOther(t: string)
    requires Abandoned(t)
    ensures Start(t, 0).Token? && Start(t, 0).lexeme.kind in {DEC, OCTAL}
  {
  }

  lemma StandsAccepted(tok: Tok)
    requires Ascii(tok.text) && Stands(tok)
    ensures Accepted(tok.kind, tok.text)
  {
    var t := tok.text;
    assert Next(t, 0) == Found(tok.kind, 0, |t|);
    TokenFits(t, 0);
    assert t[0..|t|] == t;
    if Abandoned(t) { AbandonedIsOther(t); }
  }

  // ----- Every accepted text is a token -----

  lemma {:induction false} RunIs(t: string, i: nat, e: nat, c: Class)
    requires i <= e <= |t| && (forall k | i <= k < e :: In(c, t[k])) && (e < |t| ==> !In(c, t[e]))
    ensures RunEnd(t, i, c) == e
    decreases e - i
  {
    if i < e { RunIs(t, i + 1, e, c); }
  }

  lemma AllAt(c: Class, t: string, b: nat, e: nat)
    requires b <= e <= |t| && All(c, t[b..e])
    ensures forall k | b <= k < e :: In(c, t[k])
  {
    forall k | b <= k < e ensures In(c, t[k]) {
      assert t[k] == t[b..e][k - b];
    }
  }

  /** What may stand behind the digits of a number that is not a plain integer. */
  predicate Tail(kind: TokenT, x: string) {
    if kind == FLOAT then x == [] || Exponent(x) else kind == MAL && BrokenExponent(x)
  }

  lemma TailStart(kind: TokenT, t: string, m: nat)
    requires m <= |t| && Tail(kind, t[m..])
    ensures m < |t| ==> IsExp(t[m]) && FloatWithExp(t, m) == Lexeme(kind, |t|)
    ensures m == |t| ==> kind == FLOAT
  {
    if m < |t| {
      var x := t[m..];
      if kind == FLOAT {
        var q := if Number(x[1..]) then 1 else 2;
        assert x[q..] == t[m + q..|t|];
        AllAt(Digits, t, m + q, |t|);
        RunIs(t, m + q, |t|, Digits);
        assert x[1] == t[m + 1] && IsDigit(t[m + q]);
      }
    }
  }

  /** From the dot at p on, or from the digit behind it. */
  lemma FloatIs(kind: TokenT, t: string, p: nat, m: nat, i: nat)
    requires m <= |t| && Pointed(t[..m], p) && Tail(kind, t[m..])
    requires i == p || (i == p + 1 < m)
    ensures Float(t, i) == Lexeme(kind, |t|)
  {
    assert t[..m][p + 1..] == t[p + 1..m];
    AllAt(Digits, t, p + 1, m);
    TailStart(kind, t, m);
    RunIs(t, i + 1, m, Digits);
  }

  /** The digits before a mantissa's dot, or all digits when it has none, end at n. */
  predicate DigitsTo(kind: TokenT, t: string, n: nat) {
    && 0 < n <= |t| && All(Digits, t[..n])
    && n < |t| && (t[n] == '.' || IsExp(t[n]))
    && (if t[n] == '.' then Float(t, n) else FloatWithExp(t, n)) == Lexeme(kind, |t|)
  }

  lemma DigitsStart(kind: TokenT, t: string, n: nat)
    requires DigitsTo(kind, t, n) && !Abandoned(t)
    ensures Start(t, 0) == Token(Lexeme(kind, |t|))
  {
    AllAt(Digits, t, 0, n);
    if t[0] == '0' {
      ZeroStart(kind, t, n);
    } else {
      RunIs(t, 0, n, Digits);
    }
  }

  lemma ZeroStart(kind: TokenT, t: string, n: nat)
    requires DigitsTo(kind, t, n) && !Abandoned(t) && t[0] == '0'
    ensures Octal(t, 0) == Lexeme(kind, |t|)
  {
    AllAt(Digits, t, 0, n);
    var k := RunEnd(t, 1, ODigits);
    OctalRunWithin(t, n);
    RunIsMaximal(t, 1, ODigits);
    RunIs(t, k, n, Digits);
    if k > 1 {
      assert In(ODigits, Peek(t, 1));
      assert Octal(t, 0) == OctalTail(t, k);
    }
  }

  lemma OctalRunWithin(t: string, n: nat)
    requires 0 < n < |t| && !IsDigit(t[n])
    ensures 1 <= RunEnd(t, 1, ODigits) <= n
  {
    RunIsMaximal(t, 1, ODigits);
    assert RunEnd(t, 1, ODigits) > n ==> In(ODigits, Peek(t, n));
  }

  lemma PointStart(kind: TokenT, t: string, p: nat, m: nat)
    requires m <= |t| && Pointed(t[..m], p) && Tail(kind, t[m..]) && !Abandoned(t)
    ensures Start(t, 0) == Token(Lexeme(kind, |t|))
  {
    assert t[..m][p] == t[p];
    if p == 0 {
      assert In(Digits, t[..m][1..][0]);
      FloatIs(kind, t, 0, m, 1);
    } else {
      FloatIs(kind, t, p, m, p);
      assert t[..m][..p] == t[..p];
      DigitsStart(kind, t, p);
    }
  }

  lemma MantissaStart(kind: TokenT, t: string, m: nat)
    requires m <= |t| && Mantissa(t[..m]) && Tail(kind, t[m..]) && !Abandoned(t)
    requires m == |t| ==> HasPoint(t[..m])
    ensures Start(t, 0) == Token(Lexeme(kind, |t|))
  {
    if p :| 0 <= p < |t[..m]| && Pointed(t[..m], p) {
      PointStart(kind, t, p, m);
    } else {
      TailStart(kind, t, m);
      DigitsStart(kind, t, m);
    }
  }

  lemma FloatAccepted(t: string)
    requires Lang(FLOAT, t) && !Abandoned(t)
    ensures Start(t, 0) == Token(Lexeme(FLOAT, |t|))
  {
    var m :| 0 <= m <= |t| && FloatSplit(t, m);
    MantissaStart(FLOAT, t, m);
  }

  lemma MalAccepted(t: string)
    requires Lang(MAL, t) && !Abandoned(t)
    ensures Start(t, 0) == Token(Lexeme(MAL, |t|))
  {
    if t != "0x" && t != "0X" {
      var m :| 0 <= m <= |t| && MalSplit(t, m);
      MantissaStart(MAL, t, m);
    }
  }

  lemma OctalAccepted(t: string)
    requires Lang(OCTAL, t)
    ensures Start(t, 0) == Token(Lexeme(OCTAL, |t|))
  {
    assert In(ODigits, t[1]);
    RunIs(t, 1, |t|, ODigits);
  }

  lemma HexAccepted(t: string)
    requires Lang(HEX, t)
    ensures Start(t, 0) == Token(Lexeme(HEX, |t|))
  {
    assert t[2..|t|] == t[2..];
    AllAt(XDigits, t, 2, |t|);
    assert In(XDigits, t[2]);
    RunIs(t, 2, |t|, XDigits);
  }

  lemma DecAccepted(t: string)
    requires Lang(DEC, t)
    ensures Start(t, 0) == Token(Lexeme(DEC, |t|))
  {
    if t != "0" {
      assert In(Digits, t[0]);
      if t[0] != '0' {
        RunIs(t, 0, |t|, Digits);
      } else {
        var e := RunEnd(t, 1, ODigits);
        RunIsMaximal(t, 1, ODigits);
        if e == |t| {
          forall k | 0 <= k < |t| ensures In(ODigits, t[k]) { assert k > 0 ==> In(ODigits, Peek(t, k)); }
        }
        assert In(Digits, t[e]);
        RunIs(t, e, |t|, Digits);
        assert Start(t, 0) == Token(Octal(t, 0));
      }
    }
  }

  lemma WordAccepted(t: string)
    requires Lang(WORD, t)
    ensures Start(t, 0) == Token(Lexeme(WORD, |t|))
  {
    RunIs(t, 1, |t|, Alnums);
  }

  lemma OperatorAccepted(t: string)
    requires Lang(OPE, t)
    ensures Start(t, 0) == Token(Lexeme(OPE, |t|))
  {
  }

  lemma AcceptedStands(kind: TokenT, t: string)
    requires Ascii(t) && Accepted(kind, t)
    ensures Stands(Tok(kind, t))
  {
    match kind
    case FLOAT => FloatAccepted(t);
    case MAL => MalAccepted(t);
    case OCTAL => OctalAccepted(t);
    case HEX => HexAccepted(t);
    case DEC => DecAccepted(t);
    case WORD => WordAccepted(t);
    case OPE => OperatorAccepted(t);
    case CTR =>
  }

  /** A text is lexed as one token of a kind if and only if it is in the language of that kind and
      not one of the abandoned numbers. */
  lemma TokensExactly(kind: TokenT, t: string)
    requires Ascii(t)
    ensures Tokens(t, 0) == [Tok(kind, t)] <==> Accepted(kind, t)
  {
    var tok := Tok(kind, t);
    if Tokens(t, 0) == [tok] {
      var f := Next(t, 0);
      assert Tokens(t, 0)[0] == Tok(f.kind, t[f.begin..f.end]);
      NextIsStart(t, 0);
      StandsAccepted(tok);
    }
    if Accepted(kind, t) {
      AcceptedStands(kind, t);
      NextStands(t, 0, tok);
      FoundIsFirst(t, 0, tok, |t|);
      NothingAtEnd(t);
    }
  }

  /** No text is accepted as two kinds. */
  lemma KindUnique(a: TokenT, b: TokenT, t: string)
    requires Ascii(t) && Accepted(a, t) && Accepted(b, t)
    ensures a == b
  {
    AcceptedStands(a, t);
    AcceptedStands(b, t);
  }

  /** Accepted texts, separated by single spaces, are lexed as written. */
  lemma AcceptedLexes(ts: seq<Tok>)
    requires forall k | 0 <= k < |ts| :: Ascii(ts[k].text) && Accepted(ts[k].kind, ts[k].text)
    ensures Tokens(Join(ts), 0) == ts
  {
    forall k | 0 <= k < |ts| ensures Stands(Nth(ts, k)) {
      AcceptedStands(ts[k].kind, ts[k].text);
    }
    assert Join(ts)[0..] == Join(ts);
    JoinPrints(Join(ts), 0, ts);
    PrintLexes(Join(ts), 0, ts);
  }

  /** A number with the form of a float that the lexer cuts up. */
  lemma FloatCutUp()
    ensures Lang(FLOAT, "0e5") && Tokens("0e5", 0) == [Tok(DEC, "0"), Tok(WORD, "e5")]
  {
    var t := "0e5";
    assert t[..1] == "0" && t[1..] == "e5" && t[1..][1..] == "5";
    assert FloatSplit(t, 1);
    RunIs(t, 2, 3, Alnums);
    assert Next(t, 1) == Found(WORD, 1, 3);
    NothingAtEnd(t);
    FoundIsFirst(t, 1, Tok(WORD, t[1..3]), 3);
    StartIsNext(t, 0, DEC, 1);
    FoundIsFirst(t, 0, Tok(DEC, t[0..1]), 1);
    assert t[1..3] == "e5" && t[0..1] == "0";
  }
}
