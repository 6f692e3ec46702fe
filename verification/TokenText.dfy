/** Tokens against the text they are read from: every token is spelled by it, and every spelling of a number is read. */
module TokenText {
  import opened Wrappers
  import opened Ast
  import opened Bytes
  import opened Tokens
  import opened Lexing

  /** The character classes by code point. */
  lemma {:induction false} CharacterClasses(c: char)
    ensures IsDigit(c) <==> 0x30 <= c as int <= 0x39
    ensures IsAlpha(c) <==> 0x41 <= c as int <= 0x5A || 0x61 <= c as int <= 0x7A
    ensures IsWordChar(c) <==> IsAlpha(c) || IsDigit(c) || c as int == 0x5F
    ensures IsHex(c) <==> IsDigit(c) || 0x41 <= c as int <= 0x46 || 0x61 <= c as int <= 0x66
    ensures IsSpace(c) <==> c as int in {0x20, 0x09, 0x0A, 0x0C, 0x0D}
  {
  }

  /** `0x` and hexadecimal digits. */
  predicate HexNumeral(s: string) {
    |s| >= 3 && s[0] == '0' && s[1] in {'x', 'X'} && forall i :: 2 <= i < |s| ==> IsHex(s[i])
  }

  /** `s` is `base` with digits behind it, or nothing. */
  predicate Numbered(base: string, s: string) {
    base <= s && forall i :: |base| <= i < |s| ==> '0' <= s[i] <= '9'
  }

  /** Words the language reserves for semantics. */
  predicate SemanticWord(s: string) {
    || "SV_" <= s
    || Numbered("POSITION", s) || Numbered("POSITIONT", s) || Numbered("NORMAL", s) || Numbered("TANGENT", s)
    || Numbered("BINORMAL", s) || Numbered("COLOR", s) || Numbered("TEXCOORD", s) || Numbered("DEPTH", s)
    || Numbered("PSIZE", s) || Numbered("FOG", s) || Numbered("VPOS", s) || Numbered("VFACE", s)
    || Numbered("BLENDWEIGHT", s) || Numbered("BLENDINDICES", s)
  }

  /** The text is a spelling of the token. */
  predicate Spells(fp: FloatParser, render: F64 -> string, text: string, t: Tok) {
    match t
    case TIdent(w) => text == w && Wordlike(w) && !SemanticWord(w)
    case TSemantic(w) => text == w && Wordlike(w) && SemanticWord(w)
    case TKeyword(k) => text == KeywordText(k)
    case TBool(b) => text == if b then "true" else "false"
    case TInt(i) =>
      || (text != "" && AllDigits(text) && i == FromDecimal(text) < 0x8000_0000_0000_0000)
      || (HexNumeral(text) && HexValue(text, 2) < 0x1_0000_0000_0000_0000
          && i == if HexValue(text, 2) < 0x8000_0000_0000_0000 then HexValue(text, 2) else HexValue(text, 2) - 0x1_0000_0000_0000_0000)
    case TUint(u) =>
      && text != "" && text[|text| - 1] in {'u', 'U'} && HexNumeral(text[..|text| - 1])
      && u == HexValue(text[..|text| - 1], 2) < 0x1_0000_0000_0000_0000
    case TFloat(f) => fp(text) == Some(f)
    case Eof => false
    case _ => text == Text(render, t)
  }

  /** Value of the hexadecimal digits from position `at` on: digits, then `a` to `f` in either case. */
  function HexValue(s: string, at: nat): nat
    requires at <= |s| && forall i :: at <= i < |s| ==> IsHex(s[i])
  {
    if at == |s| then 0
    else
      var c := s[|s| - 1];
      16 * HexValue(s[..|s| - 1], at) + HexDigitMeans(c)
  }

  function HexDigitMeans(c: char): nat {
    match c
    case 'a' => 10 case 'b' => 11 case 'c' => 12 case 'd' => 13 case 'e' => 14 case 'f' => 15
    case 'A' => 10 case 'B' => 11 case 'C' => 12 case 'D' => 13 case 'E' => 14 case 'F' => 15
    case '0' => 0 case '1' => 1 case '2' => 2 case '3' => 3 case '4' => 4
    case '5' => 5 case '6' => 6 case '7' => 7 case '8' => 8 case '9' => 9
    case _ => 0
  }

  lemma {:induction false} HexAgrees(s: string, at: nat)
    requires at <= |s| && forall i :: at <= i < |s| ==> IsHex(s[i])
    ensures (forall i :: 0 <= i < |s[at..]| ==> IsHex(s[at..][i])) && FromHex(s[at..]) == HexValue(s, at)
    decreases |s|
  {
    var t := s[at..];
    if at < |s| {
      HexAgrees(s[..|s| - 1], at);
      assert t[..|t| - 1] == s[..|s| - 1][at..] && t[|t| - 1] == s[|s| - 1];
      OneHexDigit(s[|s| - 1]);
    }
  }

  lemma {:induction false} OneHexDigit(c: char)
    requires IsHex(c)
    ensures HexDigitValue(c) == HexDigitMeans(c)
  {
  }

  lemma {:induction false} SemanticsExact(s: string)
    ensures IsSemantic(s) <==> SemanticWord(s)
  {
    forall base | base in SEMANTIC_BASES ensures base <= s && AllDigits(s[|base|..]) <==> Numbered(base, s) {
      DigitsBehind(base, s);
    }
    hide Numbered, AllDigits;
  }

  lemma {:induction false} DigitsBehind(base: string, s: string)
    ensures base <= s && AllDigits(s[|base|..]) <==> Numbered(base, s)
  {
    if base <= s {
      forall i | |base| <= i < |s| ensures s[i] == s[|base|..][i - |base|] {
      }
    }
  }

  /** Every token read is spelled by the text it was read from. */
  lemma {:induction false} TokenSpelled(fp: FloatParser, render: F64 -> string, s: string)
    requires s != "" && LexOne(fp, s).Ok?
    ensures var (t, n) := LexOne(fp, s).value; Spells(fp, render, s[..n], t)
  {
    hide Spells, LexHex, LexDecimal, Classify, OneCharTok, TwoCharTok;
    if StartsNumber(s) {
      if |s| >= 2 && s[0] == '0' && s[1] in {'x', 'X'} {
        HexSpelled(fp, render, s);
      } else {
        NumberNonEmpty(s);
        DecimalSpelled(fp, render, s);
      }
    } else if IsAlpha(s[0]) || s[0] == '_' {
      var n := SpanLen(IsWordChar, s);
      WordSpelled(fp, render, s[..n]);
    } else if |s| >= 2 && TwoCharTok(s[0], s[1]).Some? {
      TwoSpelled(fp, render, s[0], s[1]);
      assert s[..2] == [s[0], s[1]];
    } else {
      OneSpelled(fp, render, s[0]);
      assert s[..1] == [s[0]];
    }
  }

  lemma {:induction false} HexSpelled(fp: FloatParser, render: F64 -> string, s: string)
    requires |s| >= 2 && s[0] == '0' && s[1] in {'x', 'X'} && LexHex(s).Ok?
    ensures var (t, n) := LexHex(s).value; Spells(fp, render, s[..n], t)
  {
    var k := SpanLen(IsHex, s[2..]);
    var text := s[..2 + k];
    forall i | 2 <= i < |text| ensures IsHex(text[i]) {
      assert text[i] == s[2..][i - 2];
    }
    assert text[2..] == s[2..2 + k];
    HexAgrees(text, 2);
    hide FromHex, HexValue;
    var n := LexHex(s).value.1;
    if n == 2 + k + 1 {
      assert s[..n][..n - 1] == text && s[..n][n - 1] == s[2 + k..][0];
    }
  }

  lemma {:induction false} DecimalSpelled(fp: FloatParser, render: F64 -> string, s: string)
    requires s != "" && LexDecimal(fp, s).Ok? && DecimalScan(s, false, false).0 > 0
    ensures var (t, n) := LexDecimal(fp, s).value; Spells(fp, render, s[..n], t)
  {
    hide DecimalScan, FromDecimal, HexValue;
  }

  lemma {:induction false} WordSpelled(fp: FloatParser, render: F64 -> string, s: string)
    requires Wordlike(s)
    ensures Spells(fp, render, s, Classify(s))
  {
    hide Wordlike, IsSemantic, SemanticWord;
    SemanticsExact(s);
    if KeywordOf(s).Some? {
      KeywordSpelled(s);
    }
  }

  lemma {:induction false} KeywordSpelled(s: string)
    requires KeywordOf(s).Some?
    ensures s == KeywordText(KeywordOf(s).value)
  {
  }

  lemma {:induction false} TwoSpelled(fp: FloatParser, render: F64 -> string, a: char, b: char)
    requires TwoCharTok(a, b).Some?
    ensures Spells(fp, render, [a, b], TwoCharTok(a, b).value)
  {
  }

  lemma {:induction false} OneSpelled(fp: FloatParser, render: F64 -> string, c: char)
    requires OneCharTok(c).Some?
    ensures Spells(fp, render, [c], OneCharTok(c).value)
  {
  }

  /** Hexadecimal literals up to 64 bits are read in either case, with `u` or `U` as unsigned. */
  lemma {:induction false} HexUintRead(fp: FloatParser, text: string, suffix: char, rest: string)
    requires HexNumeral(text) && HexValue(text, 2) < 0x1_0000_0000_0000_0000 && suffix in {'u', 'U'}
    ensures LexOne(fp, text + ([suffix] + rest)) == Ok((TUint(HexValue(text, 2)), |text| + 1))
  {
    HexAgrees(text, 2);
    HexParts(text, [suffix] + rest);
    hide FromHex, HexValue, LexDecimal, SpanLen;
    assert SuffixLen([suffix] + rest, 'u', 'U') == 1;
  }

  /** Without suffix they are read as signed: from 2^63 on they are negative. */
  lemma {:induction false} HexIntRead(fp: FloatParser, text: string, rest: string)
    requires HexNumeral(text) && HexValue(text, 2) < 0x1_0000_0000_0000_0000 && (rest == "" || !IsWordChar(rest[0]))
    ensures LexOne(fp, text + rest) == Ok((TInt(if HexValue(text, 2) < 0x8000_0000_0000_0000 then HexValue(text, 2)
                                               else HexValue(text, 2) - 0x1_0000_0000_0000_0000), |text|))
  {
    HexAgrees(text, 2);
    HexParts(text, rest);
    hide FromHex, HexValue, LexDecimal, SpanLen;
    assert SuffixLen(rest, 'u', 'U') == 0;
  }

  lemma {:induction false} HexParts(text: string, rest: string)
    requires HexNumeral(text) && (rest == "" || !IsHex(rest[0]))
    ensures var s := text + rest;
      && SpanLen(IsHex, s[2..]) == |text| - 2 && s[2..|text|] == text[2..] && s[|text|..] == rest
      && |s| >= 3 && s[0] == '0' && s[1] == text[1]
  {
    assert (text + rest)[2..] == text[2..] + rest;
    forall i | 0 <= i < |text[2..]| ensures IsHex(text[2..][i]) {
      assert text[2..][i] == text[i + 2];
    }
    SpanStops(IsHex, text[2..], rest);
  }

  /** Decimal literals are read up to 2^63 - 1, leading zeros or not. */
  lemma {:induction false} DigitsExact(fp: FloatParser, digits: string, rest: string)
    requires digits != "" && AllDigits(digits) && (rest == "" || (!IsWordChar(rest[0]) && rest[0] != '.'))
    ensures LexOne(fp, digits + rest) ==
      if FromDecimal(digits) < 0x8000_0000_0000_0000 then Ok((TInt(FromDecimal(digits)), |digits|)) else Err("invalid integer literal")
  {
    var s := digits + rest;
    DigitsScan(digits, rest, false);
    assert s[..|digits|] == digits && s[|digits|..] == rest;
    assert s[0] == digits[0] && (|digits| >= 2 ==> s[1] == digits[1]) && (|digits| == 1 && rest != "" ==> s[1] == rest[0]);
    hide DecimalScan, LexHex, FromDecimal;
    assert LexOne(fp, s) == LexDecimal(fp, s);
  }
}
