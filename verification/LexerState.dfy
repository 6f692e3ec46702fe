/** The lexer as it is written: a byte position that advances through the source and a growing token list. Each
    method is proved to compute the function of Lexing it is named after. */
module LexerState {
  import opened Wrappers
  import opened Bytes
  import opened Tokens
  import opened Lexing

  class Lexer {
    const src: string
    const fp: FloatParser
    var pos: nat
    var tokens: seq<Lexeme>

    constructor (src: string, fp: FloatParser)
      ensures this.src == src && this.fp == fp && pos == 0 && tokens == []
    {
      this.src, this.fp, pos, tokens := src, fp, 0, [];
    }

    /** The text still to be read. */
    ghost function Left(): string
      reads this`pos
      requires pos <= |src|
    {
      src[pos..]
    }

    /** Skip characters of a class. */
    method SkipSpan(p: char -> bool)
      requires pos <= |src|
      modifies this`pos
      ensures old(pos) <= pos <= |src| && pos == old(pos) + SpanLen(p, old(Left()))
    {
      while pos < |src| && p(src[pos])
        invariant old(pos) <= pos <= |src|
        invariant SpanLen(p, old(Left())) == pos - old(pos) + SpanLen(p, Left())
      {
        assert Left()[1..] == src[pos + 1..];
        pos := pos + 1;
      }
    }

    method SkipLine()
      requires pos <= |src|
      modifies this`pos
      ensures old(pos) <= pos <= |src| && pos == old(pos) + LineLen(old(Left()))
    {
      while pos < |src| && src[pos] != '\n'
        invariant old(pos) <= pos <= |src|
        invariant LineLen(old(Left())) == pos - old(pos) + LineLen(Left())
      {
        assert Left()[1..] == src[pos + 1..];
        pos := pos + 1;
      }
    }

    /** Through the end of a block comment; `false` if it does not end. */
    method SkipBlock() returns (closed: bool)
      requires pos <= |src|
      modifies this`pos
      ensures pos <= |src| && closed == BlockLen(old(Left())).Some?
      ensures closed ==> pos == old(pos) + BlockLen(old(Left())).value
    {
      closed := false;
      while pos + 1 < |src|
        invariant old(pos) <= pos <= |src|
        invariant BlockLen(old(Left())).Some? <==> BlockLen(Left()).Some?
        invariant BlockLen(old(Left())).Some? ==> BlockLen(old(Left())).value == pos - old(pos) + BlockLen(Left()).value
      {
        if src[pos] == '*' && src[pos + 1] == '/' {
          pos := pos + 2;
          return true;
        }
        assert Left()[1..] == src[pos + 1..];
        pos := pos + 1;
      }
    }

    method SkipWsAndComments() returns (ok: bool)
      requires pos <= |src|
      modifies this`pos
      ensures pos <= |src| && ok == BlankLen(old(Left())).Some?
      ensures ok ==> pos == old(pos) + BlankLen(old(Left())).value
    {
      hide BlankLen, LineLen, BlockLen;
      while pos < |src|
        invariant old(pos) <= pos <= |src|
        invariant BlankLen(old(Left())).Some? <==> BlankLen(Left()).Some?
        invariant BlankLen(old(Left())).Some? ==> BlankLen(old(Left())).value == pos - old(pos) + BlankLen(Left()).value
      {
        var c := src[pos];
        ghost var s := Left();
        SkipStep(s);
        if IsSpace(c) {
          assert s[1..] == src[pos + 1..];
          pos := pos + 1;
        } else if c == '/' && pos + 1 < |src| && src[pos + 1] == '/' {
          pos := pos + 2;
          assert s[2..] == Left();
          SkipLine();
          assert s[2 + LineLen(s[2..])..] == Left();
        } else if c == '/' && pos + 1 < |src| && src[pos + 1] == '*' {
          pos := pos + 2;
          assert s[2..] == Left();
          var closed := SkipBlock();
          if !closed {
            return false;
          }
          assert s[2 + BlockLen(s[2..]).value..] == Left();
        } else {
          return true;
        }
      }
      assert Left() == "";
      SkipEnd();
      return true;
    }

    method Hex() returns (r: Result<Tok>)
      requires pos + 2 <= |src|
      modifies this`pos
      ensures match LexHex(old(Left())) { case Ok((t, n)) => r == Ok(t) && pos == old(pos) + n case Err(_) => r.Err? }
    {
      ghost var s := Left();
      pos := pos + 2;
      var start := pos;
      assert s[2..] == Left();
      SkipSpan(IsHex);
      if pos == start {
        return Err("empty hex literal");
      }
      var digits := src[start..pos];
      assert digits == s[2..pos - old(pos)];
      forall i | 0 <= i < |digits| ensures IsHex(digits[i]) {
        assert digits[i] == s[2..][i];
      }
      assert s[pos - old(pos)..] == Left();
      var isUint := Suffix('u', 'U');
      var value := FromHex(digits);
      if value >= TWO_64 {
        return Err("invalid hex literal");
      }
      return Ok(if isUint then TUint(value) else TInt(AsSigned64(value)));
    }

    /** Advance over a decimal number; tell whether it has a point or an exponent. */
    method ScanDecimal() returns (isFloat: bool)
      requires pos <= |src|
      modifies this`pos
      ensures pos <= |src| && (pos - old(pos), isFloat) == DecimalScan(old(Left()), false, false)
    {
      hide DecimalScan;
      var dot, exp := false, false;
      while pos < |src|
        invariant old(pos) <= pos <= |src|
        invariant DecimalScan(old(Left()), false, false)
          == (pos - old(pos) + DecimalScan(Left(), dot, exp).0, DecimalScan(Left(), dot, exp).1)
        decreases |src| - pos
      {
        var c := src[pos];
        ghost var s := Left();
        ScanStep(s, dot, exp);
        assert s[1..] == src[pos + 1..];
        if IsDigit(c) {
          pos := pos + 1;
        } else if c == '.' && !dot && !exp {
          dot := true;
          pos := pos + 1;
        } else if c in {'e', 'E'} && !exp {
          exp := true;
          dot := true;
          pos := pos + 1;
          if pos < |src| && src[pos] in {'+', '-'} {
            assert s[2..] == src[pos + 1..];
            pos := pos + 1;
          }
        } else {
          return dot || exp;
        }
      }
      assert Left() == "";
      ScanEnd(dot, exp);
      return dot || exp;
    }

    method Number() returns (r: Result<Tok>)
      requires pos < |src|
      modifies this`pos
      ensures match (if |old(Left())| >= 2 && old(Left())[0] == '0' && old(Left())[1] in {'x', 'X'} then LexHex(old(Left()))
                     else LexDecimal(fp, old(Left())))
        case Ok((t, n)) => r == Ok(t) && pos == old(pos) + n
        case Err(_) => r.Err?
    {
      hide LexHex, LexDecimal;
      if src[pos] == '0' && pos + 1 < |src| && src[pos + 1] in {'x', 'X'} {
        r := Hex();
      } else {
        r := Decimal();
      }
    }

    method Decimal() returns (r: Result<Tok>)
      requires pos < |src|
      modifies this`pos
      ensures match LexDecimal(fp, old(Left())) { case Ok((t, n)) => r == Ok(t) && pos == old(pos) + n case Err(_) => r.Err? }
    {
      hide DecimalScan, AllDigits, FromDecimal, SuffixLen;
      var start := pos;
      ghost var s := Left();
      var isFloat := ScanDecimal();
      assert s[pos - start..] == Left();
      if isFloat {
        var _ := Suffix('f', 'F');
        assert src[start..pos] == s[..pos - start];
        var value := fp(src[start..pos]);
        if value.None? {
          return Err("invalid float literal");
        }
        return Ok(TFloat(value.value));
      }
      var isUint := Suffix('u', 'U');
      assert src[start..pos] == s[..pos - start];
      r := Integer(src[start..pos], isUint);
    }

    /** Consume a suffix letter, if there is one. */
    method Suffix(lower: char, upper: char) returns (had: bool)
      requires pos <= |src|
      modifies this`pos
      ensures pos == old(pos) + SuffixLen(old(Left()), lower, upper) <= |src|
      ensures had <==> SuffixLen(old(Left()), lower, upper) == 1
    {
      had := pos < |src| && src[pos] in {lower, upper};
      if had {
        pos := pos + 1;
      }
    }

    /** The value of an integer literal's text, suffix included. */
    static method Integer(text: string, isUint: bool) returns (r: Result<Tok>)
      ensures r.Ok? <==> text != "" && AllDigits(text) && FromDecimal(text) < (if isUint then TWO_64 else TWO_63)
      ensures r.Ok? ==> r.value == if isUint then TUint(FromDecimal(text)) else TInt(FromDecimal(text))
    {
      if text == "" || !AllDigits(text) || FromDecimal(text) >= (if isUint then TWO_64 else TWO_63) {
        return Err("invalid integer literal");
      }
      return Ok(if isUint then TUint(FromDecimal(text)) else TInt(FromDecimal(text)));
    }

    method OneToken() returns (r: Result<Tok>)
      requires pos < |src|
      modifies this`pos
      ensures match LexOne(fp, old(Left())) { case Ok((t, n)) => r == Ok(t) && pos == old(pos) + n case Err(_) => r.Err? }
    {
      hide LexHex, LexDecimal, Classify, TwoCharTok, OneCharTok;
      var start := pos;
      ghost var s := Left();
      var c := src[pos];
      if IsDigit(c) || (c == '.' && pos + 1 < |src| && IsDigit(src[pos + 1])) {
        r := Number();
      } else if c == '"' {
        return Err("string literals are not supported");
      } else if IsAlpha(c) || c == '_' {
        SkipSpan(IsWordChar);
        assert src[start..pos] == s[..pos - start];
        return Ok(Classify(src[start..pos]));
      } else {
        pos := pos + 1;
        if pos < |src| && TwoCharTok(c, src[pos]).Some? {
          var t := TwoCharTok(c, src[pos]).value;
          pos := pos + 1;
          return Ok(t);
        }
        var t := OneCharTok(c);
        return if t.Some? then Ok(t.value) else Err("unexpected character");
      }
    }

    /** Lex the whole source; the last token is `Eof`. */
    method Run() returns (r: Result<()>)
      requires pos == 0 && tokens == []
      modifies this
      ensures match Lex(fp, src, 0)
        case Ok(ls) => r.Ok? && |tokens| == |ls| + 1 && tokens[..|ls|] == ls && tokens[|ls|].tok == Eof
        case Err(_) => r.Err?
    {
      hide LexOne, BlankLen, Lex;
      assert src[0..] == src;
      AppendNothing(Lex(fp, src, 0));
      while pos < |src|
        invariant pos <= |src| && Lex(fp, src, 0) == Append(tokens, Lex(fp, Left(), pos))
        decreases |src| - pos
      {
        ghost var s := Left();
        ghost var here := pos;
        LexOnce(fp, s, here);
        var ok := SkipWsAndComments();
        if !ok {
          return Err("unterminated block comment");
        }
        if pos >= |src| {
          assert Left() == "";
          break;
        }
        var start := pos;
        assert s[start - here..] == Left();
        var t :- OneToken();
        assert s[pos - here..] == Left();
        AppendTwice(tokens, [Lexeme(t, start, pos)], Lex(fp, Left(), pos));
        tokens := tokens + [Lexeme(t, start, pos)];
      }
      LexNothing(fp, pos);
      assert Left() == "";
      assert tokens + [] == tokens;
      tokens := tokens + [Lexeme(Eof, pos, pos)];
      return Ok(());
    }
  }

  function Append(a: seq<Lexeme>, r: Result<seq<Lexeme>>): Result<seq<Lexeme>> {
    match r
    case Ok(b) => Ok(a + b)
    case Err(e) => Err(e)
  }

  lemma {:induction false} AppendNothing(r: Result<seq<Lexeme>>)
    ensures Append([], r) == r
  {
    if r.Ok? {
      assert [] + r.value == r.value;
    }
  }

  lemma {:induction false} AppendTwice(a: seq<Lexeme>, b: seq<Lexeme>, r: Result<seq<Lexeme>>)
    ensures Append(a, Append(b, r)) == Append(a + b, r)
  {
    if r.Ok? {
      assert a + (b + r.value) == (a + b) + r.value;
    }
  }

  /** One round of the loop. */
  lemma {:induction false} LexOnce(fp: FloatParser, s: string, at: nat)
    ensures match BlankLen(s)
      case None => Lex(fp, s, at).Err?
      case Some(n) =>
        if n == |s| then Lex(fp, s, at) == Ok([])
        else match LexOne(fp, s[n..])
          case Err(_) => Lex(fp, s, at).Err?
          case Ok((t, len)) =>
            Lex(fp, s, at) == Append([Lexeme(t, at + n, at + n + len)], Lex(fp, s[n + len..], at + n + len))
  {
    hide BlankLen, LexOne;
  }

  lemma {:induction false} LexNothing(fp: FloatParser, at: nat)
    ensures Lex(fp, "", at) == Ok([])
  {
  }
}
