/** The languages of the token kinds, and that the lexer stays in them and takes all it can. */
module LexLanguage {
  import opened LexSpec
  import opened LexRoundTrip

  predicate All(c: Class, t: string) {
    forall k | 0 <= k < |t| :: In(c, t[k])
  }

  /** One digit or more. */
  predicate Number(t: string) {
    t != [] && All(Digits, t)
  }

  predicate IsX(c: char) { c == 'x' || c == 'X' }

  /** The characters that open a comment when a slash or an asterisk follows. */
  predicate CommentMark(c: char) {
    c == '-' || c == '+' || c == '&' || c == '|' || c == '^' || c == '%' || c == '!' || c == '/'
  }

  predicate IsAngle(c: char) { c == '<' || c == '>' }

  /** Digits with one dot among, before or behind them, and at least one digit. */
  predicate Pointed(t: string, p: nat) {
    p < |t| && t[p] == '.' && |t| > 1 && All(Digits, t[..p]) && All(Digits, t[p + 1..])
  }

  predicate HasPoint(t: string) {
    exists p | 0 <= p < |t| :: Pointed(t, p)
  }

  predicate IsSign(c: char) { c == '+' || c == '-' }

  /** The letter e, a sign or none, and digits. */
  predicate Exponent(t: string) {
    && |t| > 1 && IsExp(t[0])
    && (Number(t[1..]) || (IsSign(t[1]) && Number(t[2..])))
  }

  /** An exponent that breaks off before its digits. */
  predicate BrokenExponent(t: string) {
    t != [] && IsExp(t[0]) && (|t| == 1 || (|t| == 2 && IsSign(t[1])))
  }

  predicate FloatSplit(t: string, m: nat) {
    && m <= |t|
    && ((HasPoint(t[..m]) && (m == |t| || Exponent(t[m..]))) || (Number(t[..m]) && Exponent(t[m..])))
  }

  predicate MalSplit(t: string, m: nat) {
    m <= |t| && (HasPoint(t[..m]) || Number(t[..m])) && BrokenExponent(t[m..])
  }

  /** The texts of each kind: 0[0-7]+ is octal, 0[xX]h+ hexadecimal; decimal is 0, or [1-9]d*,
      or what starts like an octal number and has an 8 or a 9 later on. */
  predicate Lang(kind: TokenT, t: string) {
    match kind
    case OCTAL => |t| > 1 && t[0] == '0' && All(ODigits, t)
    case HEX => |t| > 2 && t[0] == '0' && IsX(t[1]) && All(XDigits, t[2..])
    case DEC =>
      || t == "0"
      || (Number(t) && t[0] != '0')
      || (Number(t) && |t| > 2 && t[0] == '0' && IsODigit(t[1]) && !All(ODigits, t))
    case FLOAT => exists m | 0 <= m <= |t| :: FloatSplit(t, m)
    case MAL => t == "0x" || t == "0X" || exists m | 0 <= m <= |t| :: MalSplit(t, m)
    case WORD => t != [] && IsAlpha(t[0]) && All(Alnums, t)
    case CTR => |t| == 1 && IsCntrl(t[0]) && !IsSpace(t[0])
    case OPE =>
      || (|t| == 1 && IsPunct(t[0]))
      || t == "->"
      || (|t| == 2 && t[1] == t[0] && (t[0] == '-' || t[0] == '+' || t[0] == '&' || t[0] == '|' || IsAngle(t[0])))
      || (|t| == 2 && t[1] == '=' && (CommentMark(t[0]) || t[0] == '*' || t[0] == '=' || IsAngle(t[0])))
      || t == "<<=" || t == ">>="
  }

  /** The text from b to e is of its kind, and one character more would not be. */
  predicate Fits(s: string, b: nat, l: Lexeme) {
    && b <= l.end <= |s|
    && Lang(l.kind, s[b..l.end])
    && (l.end < |s| ==> !Lang(l.kind, s[b..l.end + 1]))
  }

  // ----- The character classes, written out -----

  lemma DigitsAre(c: char)
    ensures IsDigit(c) <==> c in "0123456789"
    ensures In(Digits, c) <==> c in "0123456789"
    ensures IsODigit(c) <==> c in "01234567"
    ensures In(ODigits, c) <==> c in "01234567"
    ensures IsExp(c) <==> c in "eE"
  {
  }

  lemma HexDigitsAre(c: char)
    ensures IsXDigit(c) <==> c in "0123456789abcdefABCDEF"
    ensures In(XDigits, c) <==> c in "0123456789abcdefABCDEF"
  {
  }

  lemma LettersAre(c: char)
    ensures IsAlpha(c) <==> c in "abcdefghijklmnopqrstuvwxyz" || c in "ABCDEFGHIJKLMNOPQRSTUVWXYZ"
    ensures In(Alnums, c) <==> IsAlpha(c) || IsDigit(c)
  {
  }

  lemma SpacesAre(c: char)
    ensures IsSpace(c) <==> c in " \t\n\r" || c as int == 11 || c as int == 12
  {
  }

  lemma MarksAre(c: char)
    ensures IsPunct(c) <==> c in "!\"#$%&'()*+,-./" || c in ":;<=>?@" || c in "[\\]^_`" || c in "{|}~"
  {
  }

  /** Of ASCII, the control characters are the rest. */
  lemma ControlsAre(c: char)
    requires c as int < 128
    ensures IsCntrl(c) <==> c != ' ' && !IsDigit(c) && !IsAlpha(c) && !IsPunct(c)
  {
  }

  // ----- Exponents -----

  lemma RunText(s: string, i: nat, c: Class)
    requires i <= |s|
    ensures var e := RunEnd(s, i, c);
            && All(c, s[i..e]) && (e < |s| ==> !In(c, s[e]))
            && (i < |s| && In(c, s[i]) ==> i < e)
  {
    RunIsMaximal(s, i, c);
    var e := RunEnd(s, i, c);
    forall k | 0 <= k < e - i ensures In(c, s[i..e][k]) {
      assert In(c, Peek(s, i + k));
    }
  }

  lemma ExponentText(s: string, e: nat)
    requires e < |s| && IsExp(s[e])
    ensures var l := FloatWithExp(s, e);
            && e < l.end <= |s|
            && (l.kind == FLOAT || l.kind == MAL)
            && (l.kind == FLOAT ==> Exponent(s[e..l.end]) && (l.end < |s| ==> !IsDigit(s[l.end])))
            && (l.kind == MAL ==> BrokenExponent(s[e..l.end]) && (l.end < |s| ==> !IsDigit(s[l.end])))
            && (l.kind == MAL && l.end < |s| && IsSign(s[l.end]) ==> l.end == e + 2)
  {
    var l := FloatWithExp(s, e);
    var t := s[e..l.end];
    if l.kind == FLOAT {
      var q := if IsSign(s[e + 1]) then e + 2 else e + 1;
      RunText(s, q, Digits);
      assert t[q - e..] == s[q..l.end];
    }
  }

  // ----- Mantissas -----

  predicate Mantissa(t: string) {
    HasPoint(t) || Number(t)
  }

  lemma MantissaChars(t: string)
    requires Mantissa(t)
    ensures t != [] && forall k | 0 <= k < |t| :: IsDigit(t[k]) || t[k] == '.'
  {
    if p :| 0 <= p < |t| && Pointed(t, p) {
      forall k | 0 <= k < |t| ensures IsDigit(t[k]) || t[k] == '.' {
        assert k < p ==> In(Digits, t[..p][k]);
        assert k > p ==> In(Digits, t[p + 1..][k - p - 1]);
      }
    }
  }

  /** How a floating point text can end. */
  lemma FloatLast(u: string, m: nat)
    requires FloatSplit(u, m)
    ensures u != [] && (IsDigit(u[|u| - 1]) || u[|u| - 1] == '.')
    ensures u[|u| - 1] == '.' ==> forall k | 0 <= k < |u| - 1 :: IsDigit(u[k])
  {
    if m == |u| {
      assert u[..m] == u;
      var p :| 0 <= p < |u| && Pointed(u, p);
      if p < |u| - 1 { assert In(Digits, u[p + 1..][|u| - p - 2]); }
      forall k | 0 <= k < p ensures IsDigit(u[k]) { assert In(Digits, u[..p][k]); }
    } else {
      var x := u[m..];
      if Number(x[1..]) {
        assert In(Digits, x[1..][|x| - 2]);
      } else {
        assert In(Digits, x[2..][|x| - 3]);
      }
    }
  }

  /** The part before an exponent ends at the first letter e. */
  lemma SplitAtExp(u: string, m: nat, x: nat)
    requires m < |u| && x < |u| && Mantissa(u[..m]) && IsExp(u[m])
    requires IsExp(u[x]) && forall k | 0 <= k < x :: !IsExp(u[k])
    ensures m == x
  {
    MantissaPrefix(u, m);
  }

  lemma MantissaPrefix(u: string, m: nat)
    requires m <= |u|
    ensures Mantissa(u[..m]) ==> forall k | 0 <= k < m :: IsDigit(u[k]) || u[k] == '.'
  {
    if Mantissa(u[..m]) {
      MantissaChars(u[..m]);
      forall k | 0 <= k < m ensures IsDigit(u[k]) || u[k] == '.' {
        assert u[..m][k] == u[k];
      }
    }
  }

  /** A mantissa followed by the letter e. */
  lemma ExponentFits(s: string, b: nat, e: nat)
    requires b < e < |s| && Mantissa(s[b..e]) && IsExp(s[e])
    ensures Fits(s, b, FloatWithExp(s, e))
  {
    var l := FloatWithExp(s, e);
    ExponentText(s, e);
    MantissaChars(s[b..e]);
    var t, m := s[b..l.end], e - b;
    assert t[..m] == s[b..e];
    assert t[m..] == s[e..l.end];
    if l.kind == FLOAT { assert FloatSplit(t, m); } else { assert MalSplit(t, m); }
    if l.end < |s| {
      assert s[b..l.end + 1][..m] == s[b..e];
      ExponentMaximal(s[b..l.end + 1], m, l.kind);
    }
  }

  lemma ExponentMaximal(u: string, x: nat, kind: TokenT)
    requires 0 < x < |u| - 1 && Mantissa(u[..x]) && IsExp(u[x]) && !IsDigit(u[|u| - 1])
    requires kind == FLOAT || (kind == MAL && (|u| == x + 2 ==> !IsSign(u[x + 1])))
    ensures !Lang(kind, u)
  {
    MantissaPrefix(u, x);
    if kind == FLOAT {
      forall m | 0 <= m <= |u| ensures !FloatSplit(u, m) {
        if FloatSplit(u, m) { FloatLast(u, m); }
      }
    } else {
      forall m | 0 <= m <= |u| ensures !MalSplit(u, m) {
        if MalSplit(u, m) { SplitAtExp(u, m, x); }
      }
    }
  }

  /** A mantissa with a point followed by neither digit nor letter e. */
  lemma PointFits(s: string, b: nat, e: nat)
    requires b <= e <= |s| && HasPoint(s[b..e])
    requires e < |s| ==> !IsDigit(s[e]) && !IsExp(s[e])
    ensures Fits(s, b, Lexeme(FLOAT, e))
  {
    var t := s[b..e];
    assert t[..|t|] == t;
    assert FloatSplit(t, |t|);
    if e < |s| { PointMaximal(t, s[b..e + 1]); }
  }

  lemma PointMaximal(t: string, u: string)
    requires HasPoint(t) && |u| == |t| + 1 && u[..|t|] == t
    requires !IsDigit(u[|t|]) && !IsExp(u[|t|])
    ensures !Lang(FLOAT, u)
  {
    var p :| 0 <= p < |t| && Pointed(t, p);
    assert u[p] == u[..|t|][p];
    forall m | 0 <= m <= |u| ensures !FloatSplit(u, m) {
      if FloatSplit(u, m) { FloatLast(u, m); }
    }
  }

  // ----- The form functions -----

  /** From a dot on, behind digits that start at b. */
  lemma FloatFits(s: string, b: nat, i: nat)
    requires b <= i < |s| && s[i] == '.' && All(Digits, s[b..i]) && (b < i || IsDigit(Peek(s, i + 1)))
    ensures Fits(s, b, Float(s, i))
  {
    var e := RunEnd(s, i + 1, Digits);
    RunText(s, i + 1, Digits);
    var t, p := s[b..e], i - b;
    assert t[..p] == s[b..i] && t[p + 1..] == s[i + 1..e];
    assert Pointed(t, p);
    if IsExp(Peek(s, e)) { ExponentFits(s, b, e); } else { PointFits(s, b, e); }
  }

  /** From the digit behind a leading dot on. */
  lemma DotFloatFits(s: string, b: nat)
    requires b + 1 < |s| && s[b] == '.' && IsDigit(s[b + 1])
    ensures Fits(s, b, Float(s, b + 1))
  {
    var e := RunEnd(s, b + 2, Digits);
    RunText(s, b + 2, Digits);
    var t := s[b..e];
    assert t[..0] == [] && t[1..] == [s[b + 1]] + s[b + 2..e];
    assert Pointed(t, 0);
    if IsExp(Peek(s, e)) { ExponentFits(s, b, e); } else { PointFits(s, b, e); }
  }

  /** Digits from b on, of which those before i have been read. */
  lemma DecimalFits(s: string, b: nat, i: nat)
    requires b <= i < |s| && All(Digits, s[b..i]) && IsDigit(s[i])
    requires s[b] != '0' || (b + 1 < i && IsODigit(s[b + 1]) && !IsODigit(s[i]))
    ensures Fits(s, b, Decimal(s, i))
  {
    var e := RunEnd(s, i, Digits);
    RunText(s, i, Digits);
    var t := s[b..e];
    assert t == s[b..i] + s[i..e];
    if Peek(s, e) == '.' {
      FloatFits(s, b, e);
    } else if IsExp(Peek(s, e)) {
      ExponentFits(s, b, e);
    } else {
      assert s[b] == '0' ==> !In(ODigits, t[i - b]);
      if e < |s| { assert !In(Digits, s[b..e + 1][e - b]); }
    }
  }

  lemma WordFits(s: string, b: nat)
    requires b < |s| && IsAlpha(s[b])
    ensures Fits(s, b, Word(s, b))
  {
    var e := RunEnd(s, b + 1, Alnums);
    RunText(s, b + 1, Alnums);
    assert s[b..e] == [s[b]] + s[b + 1..e];
    if e < |s| { assert !In(Alnums, s[b..e + 1][e - b]); }
  }

  lemma HexFits(s: string, b: nat)
    requires b + 1 < |s| && s[b] == '0' && IsX(s[b + 1])
    ensures Fits(s, b, Hex(s, b + 1))
  {
    if IsXDigit(Peek(s, b + 2)) { HexRunFits(s, b); } else { HexStubFits(s, b); }
  }

  lemma HexRunFits(s: string, b: nat)
    requires b + 2 < |s| && s[b] == '0' && IsX(s[b + 1]) && IsXDigit(s[b + 2])
    ensures Fits(s, b, Hex(s, b + 1))
  {
    var e := Hex(s, b + 1).end;
    RunText(s, b + 2, XDigits);
    assert s[b..e][2..] == s[b + 2..e];
    if e < |s| { assert s[b..e + 1][2..][e - b - 2] == s[e]; }
  }

  /** 0x alone; no number starts with it. */
  lemma HexStubFits(s: string, b: nat)
    requires b + 1 < |s| && s[b] == '0' && IsX(s[b + 1])
    ensures Fits(s, b, Lexeme(MAL, b + 2))
  {
    assert s[b..b + 2] == ['0', s[b + 1]];
    if b + 2 < |s| {
      var u := s[b..b + 3];
      assert |u| == 3 && u[1] == s[b + 1];
      forall m | 0 <= m <= |u| ensures !MalSplit(u, m) {
        MantissaPrefix(u, m);
      }
    }
  }

  lemma OctalFits(s: string, b: nat)
    requires b < |s| && s[b] == '0'
    ensures Fits(s, b, Octal(s, b))
  {
    var c := Peek(s, b + 1);
    if c == 'x' || c == 'X' {
      HexFits(s, b);
    } else if IsODigit(c) {
      OctalRunFits(s, b);
    } else if c == '.' {
      assert s[b..b + 1] == "0";
      FloatFits(s, b, b + 1);
    } else {
      assert s[b..b + 1] == "0";
      if b + 1 < |s| { assert !In(ODigits, s[b..b + 2][1]); }
    }
  }

  lemma OctalRunFits(s: string, b: nat)
    requires b + 1 < |s| && s[b] == '0' && IsODigit(s[b + 1])
    ensures Fits(s, b, Octal(s, b))
  {
    var e := RunEnd(s, b + 1, ODigits);
    RunText(s, b + 1, ODigits);
    var t := s[b..e];
    assert t == ['0'] + s[b + 1..e];
    assert All(ODigits, t) && All(Digits, t);
    if '8' <= Peek(s, e) <= '9' {
      DecimalFits(s, b, e);
    } else if Peek(s, e) == '.' {
      FloatFits(s, b, e);
    } else if e < |s| {
      assert !In(ODigits, s[b..e + 1][e - b]);
    }
  }

  lemma PuncFits(s: string, b: nat)
    requires b < |s| && IsPunct(s[b]) && Punc(s, b).Token?
    ensures Fits(s, b, Punc(s, b).lexeme)
  {
    if s[b] == '.' && IsDigit(Peek(s, b + 1)) {
      DotFloatFits(s, b);
    } else {
      OperatorFits(s, b, Punc(s, b).lexeme.end);
    }
  }

  lemma OperatorFits(s: string, b: nat, e: nat)
    requires b < |s| && IsPunct(s[b]) && Punc(s, b) == Token(Lexeme(OPE, e))
    ensures Fits(s, b, Lexeme(OPE, e))
  {
    assert s[b..b + 1] == [s[b]];
    if b + 1 < |s| { assert s[b..b + 2] == [s[b], s[b + 1]]; }
    if b + 2 < |s| { assert s[b..b + 3] == [s[b], s[b + 1], s[b + 2]]; }
    if e == b + 3 && e < |s| { assert |s[b..e + 1]| == 4; }
  }

  /** Every token has the form of its kind, and the character behind it would spoil that. */
  lemma TokenFits(s: string, i: nat)
    requires Ascii(s) && i <= |s| && Next(s, i).begin < Next(s, i).end
    ensures var f := Next(s, i); Fits(s, f.begin, Lexeme(f.kind, f.end))
  {
    NextIsStart(s, i);
    var b := Next(s, i).begin;
    if s[b] == '0' {
      OctalFits(s, b);
    } else if IsDigit(s[b]) {
      DecimalFits(s, b, b);
    } else if IsAlpha(s[b]) {
      WordFits(s, b);
    } else if IsPunct(s[b]) {
      PuncFits(s, b);
    }
  }
}
