/** The lexer as functions of a text and a position. Behind the last character stands NUL. */
module LexSpec {
  datatype TokenT = CTR | OPE | MAL | OCTAL | HEX | DEC | WORD | FLOAT

  // ----- Character classes of the C locale -----

  predicate IsDigit(c: char) { '0' <= c <= '9' }

  predicate IsODigit(c: char) { '0' <= c <= '7' }

  predicate IsXDigit(c: char) { IsDigit(c) || 'a' <= c <= 'f' || 'A' <= c <= 'F' }

  predicate IsAlpha(c: char) { 'a' <= c <= 'z' || 'A' <= c <= 'Z' }

  predicate IsAlnum(c: char) { IsAlpha(c) || IsDigit(c) }

  predicate IsSpace(c: char) { c == ' ' || 9 <= c as int <= 13 }

  predicate IsCntrl(c: char) { c < ' ' || c as int == 127 }

  predicate IsPunct(c: char) { ' ' < c && c as int < 127 && !IsAlnum(c) }

  predicate IsExp(c: char) { c == 'e' || c == 'E' }

  const NUL: char := '\0'

  /** The texts the lexer is made for: ASCII, and no NUL inside. */
  predicate Ascii(s: string) {
    forall i :: 0 <= i < |s| ==> 0 < s[i] as int < 128
  }

  /** The character at position i of a NUL-terminated text. */
  function Peek(s: string, i: nat): char {
    if i < |s| then s[i] else NUL
  }

  datatype Class = Digits | ODigits | XDigits | Alnums

  predicate In(c: Class, x: char) {
    match c
    case Digits => IsDigit(x)
    case ODigits => IsODigit(x)
    case XDigits => IsXDigit(x)
    case Alnums => IsAlnum(x)
  }

  /** Where a run of characters of a class that starts at i ends. */
  function RunEnd(s: string, i: nat, c: Class): (e: nat)
    ensures i <= e && (i <= |s| ==> e <= |s|)
    decreases |s| - i
  {
    if i < |s| && In(c, s[i]) then RunEnd(s, i + 1, c) else i
  }

  lemma {:induction false} RunIsMaximal(s: string, i: nat, c: Class)
    ensures forall j | i <= j < RunEnd(s, i, c) :: In(c, Peek(s, j))
    ensures !In(c, Peek(s, RunEnd(s, i, c)))
    decreases |s| - i
  {
    if i < |s| && In(c, s[i]) { RunIsMaximal(s, i + 1, c); }
  }

  // ----- One token, from its first character on -----

  datatype Lexeme = Lexeme(kind: TokenT, end: nat)

  /** From the letter e on. */
  function FloatWithExp(s: string, i: nat): (l: Lexeme)
    ensures i < |s| ==> i < l.end <= |s|
  {
    if Peek(s, i + 1) == '+' || Peek(s, i + 1) == '-' then
      if IsDigit(Peek(s, i + 2)) then Lexeme(FLOAT, RunEnd(s, i + 2, Digits)) else Lexeme(MAL, i + 2)
    else if IsDigit(Peek(s, i + 1)) then Lexeme(FLOAT, RunEnd(s, i + 1, Digits))
    else Lexeme(MAL, i + 1)
  }

  /** From the dot on, or from the digit behind a leading dot. */
  function Float(s: string, i: nat): (l: Lexeme)
    ensures i < |s| ==> i < l.end <= |s|
  {
    var e := RunEnd(s, i + 1, Digits);
    if IsExp(Peek(s, e)) then FloatWithExp(s, e) else Lexeme(FLOAT, e)
  }

  function Decimal(s: string, i: nat): (l: Lexeme)
    ensures i < |s| ==> i <= l.end <= |s| && (IsDigit(s[i]) ==> i < l.end)
  {
    var e := RunEnd(s, i, Digits);
    if Peek(s, e) == '.' then Float(s, e)
    else if IsExp(Peek(s, e)) then FloatWithExp(s, e)
    else Lexeme(DEC, e)
  }

  function Word(s: string, i: nat): (l: Lexeme)
    ensures i < |s| ==> i < l.end <= |s|
  {
    Lexeme(WORD, RunEnd(s, i + 1, Alnums))
  }

  /** From the letter x on. */
  function Hex(s: string, i: nat): (l: Lexeme)
    ensures i < |s| ==> i < l.end <= |s|
  {
    if IsXDigit(Peek(s, i + 1)) then Lexeme(HEX, RunEnd(s, i + 1, XDigits)) else Lexeme(MAL, i + 1)
  }

  /** What follows octal digits that end at e. */
  function OctalTail(s: string, e: nat): (l: Lexeme)
    ensures e <= |s| ==> e <= l.end <= |s|
  {
    if '8' <= Peek(s, e) <= '9' then Decimal(s, e)
    else if Peek(s, e) == '.' then Float(s, e)
    else Lexeme(OCTAL, e)
  }

  /** From a leading 0 on. */
  function Octal(s: string, i: nat): (l: Lexeme)
    ensures i < |s| ==> i < l.end <= |s|
  {
    var c := Peek(s, i + 1);
    if c == 'x' || c == 'X' then Hex(s, i + 1)
    else if IsODigit(c) then
      OctalTail(s, RunEnd(s, i + 1, ODigits))
    else if c == '.' then Float(s, i + 1)
    else Lexeme(DEC, i + 1)
  }

  /** Behind a line comment that has been opened before i. */
  function LineEnd(s: string, i: nat): (e: nat)
    ensures i <= e && (i <= |s| ==> e <= |s|)
    decreases |s| - i
  {
    if i >= |s| then i else if s[i] == '\n' then i + 1 else LineEnd(s, i + 1)
  }

  /** Behind a block comment that has been opened before i. */
  function BlockEnd(s: string, i: nat): (e: nat)
    ensures i <= e && (i <= |s| ==> e <= |s|)
    decreases |s| - i
  {
    if i >= |s| then i
    else if s[i] == '*' && Peek(s, i + 1) == '/' then i + 2
    else BlockEnd(s, i + 1)
  }

  // The cases of the operator switch fall through from each of these to the next.
  predicate Doubles(c: char) { c == '-' || c == '+' || c == '&' || c == '|' }

  predicate OpensComment(c: char) { Doubles(c) || c == '^' || c == '%' || c == '!' || c == '/' }

  predicate TakesEquals(c: char) { OpensComment(c) || c == '*' || c == '=' }

  datatype Piece = Token(lexeme: Lexeme) | Comment(end: nat)

  function Punc(s: string, i: nat): (p: Piece)
    ensures i < |s| ==> i < (if p.Token? then p.lexeme.end else p.end) <= |s|
  {
    var c, d := Peek(s, i), Peek(s, i + 1);
    if c == '.' then Token(if IsDigit(d) then Float(s, i + 1) else Lexeme(OPE, i + 1))
    else if c == '-' && d == '>' then Token(Lexeme(OPE, i + 2))
    else if Doubles(c) && d == c then Token(Lexeme(OPE, i + 2))
    else if OpensComment(c) && d == '/' then Comment(LineEnd(s, i + 2))
    else if OpensComment(c) && d == '*' then Comment(BlockEnd(s, i + 2))
    else if TakesEquals(c) then Token(Lexeme(OPE, if d == '=' then i + 2 else i + 1))
    else if c == '<' || c == '>' then
      Token(Lexeme(OPE, if d == '=' then i + 2
                        else if d == c then (if Peek(s, i + 2) == '=' then i + 3 else i + 2)
                        else i + 1))
    else Token(Lexeme(OPE, i + 1))
  }

  /** What starts at i, where there is no white space. */
  function Start(s: string, i: nat): Piece {
    var c := Peek(s, i);
    if c == '0' then Token(Octal(s, i))
    else if IsDigit(c) then Token(Decimal(s, i))
    else if IsAlpha(c) then Token(Word(s, i))
    else if IsPunct(c) then Punc(s, i)
    else if IsCntrl(c) && c != NUL then Token(Lexeme(CTR, i + 1))
    else Token(Lexeme(CTR, i))
  }

  function SpaceEnd(s: string, i: nat): (e: nat)
    ensures i <= e && (i <= |s| ==> e <= |s|)
    ensures e < |s| ==> !IsSpace(s[e])
    decreases |s| - i
  {
    if i < |s| && IsSpace(s[i]) then SpaceEnd(s, i + 1) else i
  }

  datatype Found = Found(kind: TokenT, begin: nat, end: nat)

  /** Every token but the last, empty one advances, and none passes the end of the text. */
  lemma StartAdvances(s: string, i: nat)
    requires i < |s|
    ensures match Start(s, i)
            case Token(l) => i <= l.end <= |s| && (0 < s[i] as int < 128 && !IsSpace(s[i]) ==> i < l.end)
            case Comment(e) => i < e <= |s|
  {
  }

  /** The next token from i on: white space and comments are skipped. */
  function Next(s: string, i: nat): (f: Found)
    requires i <= |s|
    ensures i <= f.begin <= f.end <= |s|
    decreases |s| - i
  {
    var b := SpaceEnd(s, i);
    if b >= |s| then Found(CTR, b, b)
    else
      StartAdvances(s, b);
      match Start(s, b)
      case Token(l) => Found(l.kind, b, l.end)
      case Comment(e) => Next(s, e)
  }
}
