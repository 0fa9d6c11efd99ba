/** The lexer as the program runs it: a cursor over a NUL-terminated buffer, advanced by loops
    and by mutually recursive calls. Every read below is proved to stay within the buffer. */
module LexScanner {
  import opened LexSpec
  import opened Options

  class Tokenizer {
    // The copied token stream with its terminating NUL.
    const tokens: string
    var curPos: nat
    var kind: TokenT
    // The two locals of TKGetNextToken that the form functions fill in through pointers.
    var length: nat
    var begin: nat

    ghost function Text(): string
      requires tokens != []
    {
      tokens[..|tokens| - 1]
    }

    ghost predicate Terminated() {
      tokens != [] && tokens[|tokens| - 1] == NUL && forall i | 0 <= i < |tokens| - 1 :: tokens[i] != NUL
    }

    ghost predicate Valid()
      reads this
    {
      Terminated() && curPos <= |Text()|
    }

    constructor (ts: string)
      requires forall i | 0 <= i < |ts| :: ts[i] != NUL
      ensures Valid() && Text() == ts && curPos == 0
    {
      tokens, curPos := ts + [NUL], 0;
      kind, length, begin := CTR, 0, 0;
    }

    lemma ReadsText(i: nat)
      requires Terminated() && i <= |Text()|
      ensures tokens[i] == Peek(Text(), i)
      ensures tokens[i] != NUL ==> i < |Text()|
    {
    }

    // addCurCharToToken
    method AddCurCharToToken()
      requires Valid() && curPos < |Text()|
      modifies this`curPos, this`length
      ensures Valid() && curPos == old(curPos) + 1 && length == old(length) + 1
    {
      curPos, length := curPos + 1, length + 1;
    }

    // The loops that add every character of one class.
    method AddRun(c: Class)
      requires Valid()
      modifies this`curPos, this`length
      ensures Valid() && curPos == RunEnd(Text(), old(curPos), c)
      ensures length == old(length) + (curPos - old(curPos))
    {
      while In(c, tokens[curPos])
        invariant Valid() && old(curPos) <= curPos
        invariant RunEnd(Text(), old(curPos), c) == RunEnd(Text(), curPos, c)
        invariant length == old(length) + (curPos - old(curPos))
        decreases |tokens| - curPos
      {
        ReadsText(curPos);
        AddCurCharToToken();
      }
      ReadsText(curPos);
    }

    /** The cursor has moved to the end of the lexeme, and the length with it. */
    twostate predicate Formed(l: Lexeme, t: TokenT)
      reads this
    {
      Valid() && l == Lexeme(t, curPos) && length == old(length) + (curPos - old(curPos)) && old(curPos) <= curPos
    }

    // formFloatWithExpToken
    method FormFloatWithExpToken() returns (t: TokenT)
      requires Valid() && curPos < |Text()|
      modifies this`curPos, this`length
      ensures Formed(FloatWithExp(Text(), old(curPos)), t)
    {
      AddCurCharToToken();
      ReadsText(curPos);
      if tokens[curPos] == '+' || tokens[curPos] == '-' {
        AddCurCharToToken();
        ReadsText(curPos);
        if IsDigit(tokens[curPos]) {
          AddRun(Digits);
          return FLOAT;
        } else {
          return MAL;
        }
      } else if IsDigit(tokens[curPos]) {
        AddRun(Digits);
        return FLOAT;
      } else {
        return MAL;
      }
    }

    // formFloatToken
    method FormFloatToken() returns (t: TokenT)
      requires Valid() && curPos < |Text()|
      modifies this`curPos, this`length
      ensures Formed(Float(Text(), old(curPos)), t)
    {
      AddCurCharToToken();
      AddRun(Digits);
      ReadsText(curPos);
      if tokens[curPos] == 'e' || tokens[curPos] == 'E' {
        t := FormFloatWithExpToken();
      } else {
        t := FLOAT;
      }
    }

    // formDecimalToken
    method FormDecimalToken() returns (t: TokenT)
      requires Valid()
      modifies this`curPos, this`length
      ensures Formed(Decimal(Text(), old(curPos)), t)
    {
      AddRun(Digits);
      ReadsText(curPos);
      if tokens[curPos] == '.' {
        t := FormFloatToken();
      } else if tokens[curPos] == 'e' || tokens[curPos] == 'E' {
        t := FormFloatWithExpToken();
      } else {
        t := DEC;
      }
    }

    // formWordToken
    method FormWordToken() returns (t: TokenT)
      requires Valid() && curPos < |Text()|
      modifies this`curPos, this`length
      ensures Formed(Word(Text(), old(curPos)), t)
    {
      AddCurCharToToken();
      AddRun(Alnums);
      t := WORD;
    }

    // formHexToken
    method FormHexToken() returns (t: TokenT)
      requires Valid() && curPos < |Text()|
      modifies this`curPos, this`length
      ensures Formed(Hex(Text(), old(curPos)), t)
    {
      AddCurCharToToken();
      ReadsText(curPos);
      if IsXDigit(tokens[curPos]) {
        AddRun(XDigits);
        t := HEX;
      } else {
        t := MAL;
      }
    }

    // formOctalToken
    method FormOctalToken() returns (t: TokenT)
      requires Valid() && curPos < |Text()|
      modifies this`curPos, this`length
      ensures Formed(Octal(Text(), old(curPos)), t)
    {
      AddCurCharToToken();
      ReadsText(curPos);
      if tokens[curPos] == 'x' || tokens[curPos] == 'X' {
        t := FormHexToken();
      } else if IsODigit(tokens[curPos]) {
        AddRun(ODigits);
        ReadsText(curPos);
        if '8' <= tokens[curPos] <= '9' {
          t := FormDecimalToken();
        } else if tokens[curPos] == '.' {
          t := FormFloatToken();
        } else {
          t := OCTAL;
        }
      } else if tokens[curPos] == '.' {
        t := FormFloatToken();
      } else {
        t := DEC;
      }
    }

    // The loop behind '//'.
    method SkipLineComment()
      requires Valid()
      modifies this`curPos
      ensures Valid() && curPos == LineEnd(Text(), old(curPos))
    {
      while true
        invariant Valid() && old(curPos) <= curPos
        invariant LineEnd(Text(), old(curPos)) == LineEnd(Text(), curPos)
        decreases |tokens| - curPos
      {
        ReadsText(curPos);
        if tokens[curPos] == NUL {
          break;
        } else if tokens[curPos] == '\n' {
          curPos := curPos + 1;
          break;
        } else {
          curPos := curPos + 1;
        }
      }
    }

    // The loop behind '/*'.
    method SkipBlockComment()
      requires Valid()
      modifies this`curPos
      ensures Valid() && curPos == BlockEnd(Text(), old(curPos))
    {
      while true
        invariant Valid() && old(curPos) <= curPos
        invariant BlockEnd(Text(), old(curPos)) == BlockEnd(Text(), curPos)
        decreases |tokens| - curPos
      {
        ReadsText(curPos);
        if tokens[curPos] == '*' {
          curPos := curPos + 1;
          ReadsText(curPos);
          if tokens[curPos] == '/' {
            curPos := curPos + 1;
            break;
          }
        } else if tokens[curPos] == NUL {
          break;
        } else {
          curPos := curPos + 1;
        }
      }
    }
 
    // formNextToken
    method FormNextToken() returns (t: TokenT)
      requires Valid()
      modifies this`curPos, this`length, this`begin
      ensures Valid() && Found(t, begin, curPos) == Next(Text(), old(curPos))
      ensures length == curPos - begin
      decreases |tokens| - curPos, 1
    {
      while IsSpace(tokens[curPos])
        invariant Valid() && old(curPos) <= curPos
        invariant SpaceEnd(Text(), old(curPos)) == SpaceEnd(Text(), curPos)
        decreases |tokens| - curPos
      {
        ReadsText(curPos);
        curPos := curPos + 1;
      }
      ReadsText(curPos);
      SkipsTo(Text(), old(curPos), curPos);
      length := 0;
      begin := curPos;
      if tokens[curPos] == '0' {
        t := FormOctalToken();
      } else if IsDigit(tokens[curPos]) {
        t := FormDecimalToken();
      } else if IsAlpha(tokens[curPos]) {
        t := FormWordToken();
      } else if IsPunct(tokens[curPos]) {
        t := FormPuncToken();
      } else if IsCntrl(tokens[curPos]) && tokens[curPos] != NUL {
        t := FormNextControlToken();
      } else {
        t := CTR;
      }
    }

    // formNextControlToken
    method FormNextControlToken() returns (t: TokenT)
      requires Valid() && curPos < |Text()|
      modifies this`curPos, this`length
      ensures Formed(Lexeme(CTR, old(curPos) + 1), t)
    {
      AddCurCharToToken();
      t := CTR;
    }

    // The case of the characters that open a comment, when '/' or '*' follows.
    method SkipComment()
      requires Valid() && curPos < |Text()| && Punc(Text(), curPos).Comment?
      modifies this`curPos
      ensures Valid() && Punc(Text(), old(curPos)) == Comment(curPos)
    {
      ReadsText(curPos);
      ReadsText(curPos + 1);
      if tokens[curPos + 1] == '/' {
        curPos := curPos + 2;
        SkipLineComment();
      } else {
        curPos := curPos + 2;
        SkipBlockComment();
      }
    }

    // formPuncToken. The cases of its switch fall through from '-' down to '='.
    method FormPuncToken() returns (t: TokenT)
      requires Valid() && curPos < |Text()| && IsPunct(tokens[curPos])
      requires begin == curPos && length == 0
      modifies this`curPos, this`length, this`begin
      ensures Valid() && Found(t, begin, curPos) == Next(Text(), old(curPos))
      ensures length == curPos - begin
      decreases |tokens| - curPos, 0
    {
      var c := tokens[curPos];
      ReadsText(curPos);
      ReadsText(curPos + 1);
      t := OPE;
      if c == '.' {
        AddCurCharToToken();
        if IsDigit(tokens[curPos]) {
          t := FormFloatToken();
        }
      } else if c == '-' && tokens[curPos + 1] == '>' {
        AddCurCharToToken();
        AddCurCharToToken();
      } else if Doubles(c) && tokens[curPos + 1] == c {
        AddCurCharToToken();
        AddCurCharToToken();
      } else if OpensComment(c) && (tokens[curPos + 1] == '/' || tokens[curPos + 1] == '*') {
        CommentIsSkipped(Text(), curPos, Punc(Text(), curPos).end);
        SkipComment();
        t := FormNextToken();
        return;
      } else if TakesEquals(c) {
        AddCurCharToToken();
        if tokens[curPos] == '=' {
          AddCurCharToToken();
        }
      } else if c == '>' || c == '<' {
        FormShiftToken();
      } else {
        AddCurCharToToken();
      }
      OperatorIsFound(Text(), old(curPos), Lexeme(t, curPos));
    }

    // The case of '>' and '<': up to three characters.
    method FormShiftToken()
      requires Valid() && curPos < |Text()| && (tokens[curPos] == '<' || tokens[curPos] == '>')
      modifies this`curPos, this`length
      ensures Valid() && Punc(Text(), old(curPos)) == Token(Lexeme(OPE, curPos))
      ensures length == old(length) + (curPos - old(curPos))
    {
      ReadsText(curPos);
      ReadsText(curPos + 1);
      AddCurCharToToken();
      if tokens[curPos] == '=' {
        AddCurCharToToken();
      } else if tokens[curPos] == tokens[curPos - 1] {
        AddCurCharToToken();
        ReadsText(curPos);
        if tokens[curPos] == '=' {
          AddCurCharToToken();
        }
      }
    }

    // TKGetNextToken
    method GetNextToken() returns (token: Option<string>)
      requires Valid()
      modifies this
      ensures Valid()
      ensures var f := Next(Text(), old(curPos));
              && curPos == f.end && kind == f.kind
              && token == if f.begin == f.end then None else Some(Text()[f.begin..f.end])
    {
      kind := FormNextToken();
      var copy := tokens[begin..begin + length] + [NUL];
      assert tokens[begin..curPos] == Text()[begin..curPos];
      if copy[0] != NUL {
        token := Some(copy[..length]);
      } else {
        token := None;
      }
    }
  }

  lemma SkipsTo(s: string, i: nat, b: nat)
    requires i <= b <= |s| && SpaceEnd(s, i) == b
    ensures Next(s, i) == Next(s, b)
  {
  }

  lemma CommentIsSkipped(s: string, i: nat, e: nat)
    requires i < |s| && IsPunct(s[i]) && Punc(s, i) == Comment(e)
    ensures i < e <= |s| && Next(s, i) == Next(s, e)
  {
    StartAdvances(s, i);
  }

  lemma OperatorIsFound(s: string, i: nat, l: Lexeme)
    requires i < |s| && IsPunct(s[i]) && Punc(s, i) == Token(l)
    ensures Next(s, i) == Found(l.kind, i, l.end)
  {
  }
}
