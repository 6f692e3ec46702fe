/** Decimal numbers as they are written, and the scan over them. */
module NumberText {
  import opened Wrappers
  import opened Ast
  import opened Bytes
  import opened Tokens
  import opened Lexing

  /** Digits; a point and more digits; an exponent with its sign. Each part may be empty. */
  datatype Number = Number(whole: string, fraction: Option<string>, exponent: Option<Exponent>)

  datatype Exponent = Exponent(letter: char, sign: string, digits: string)

  predicate ExponentOk(x: Exponent) {
    x.letter in {'e', 'E'} && x.sign in {"", "+", "-"} && AllDigits(x.digits)
  }

  predicate NumberOk(p: Number) {
    AllDigits(p.whole) && (p.fraction.Some? ==> AllDigits(p.fraction.value)) && (p.exponent.Some? ==> ExponentOk(p.exponent.value))
  }

  function ExponentText(x: Option<Exponent>): string {
    match x
    case Some(e) => [e.letter] + (e.sign + e.digits)
    case None => ""
  }

  function FractionText(f: Option<string>): string {
    match f
    case Some(d) => ['.'] + d
    case None => ""
  }

  function DecimalText(p: Number): string {
    p.whole + (FractionText(p.fraction) + ExponentText(p.exponent))
  }

  predicate IsFloat(p: Number) { p.fraction.Some? || p.exponent.Some? }

  /** What stands behind would not be read as part of the number. */
  predicate Ends(p: Number, rest: string) {
    rest == "" || (
      && !IsDigit(rest[0])
      && (rest[0] == '.' ==> IsFloat(p))
      && (rest[0] in {'e', 'E'} ==> p.exponent.Some?)
      && (rest[0] in {'+', '-'} && p.exponent.Some? ==> p.exponent.value.sign != "" || p.exponent.value.digits != ""))
  }

  lemma {:induction false} DigitsPassed(d: string, rest: string, dot: bool, exp: bool)
    requires AllDigits(d)
    ensures DecimalScan(d + rest, dot, exp) == (|d| + DecimalScan(rest, dot, exp).0, DecimalScan(rest, dot, exp).1)
    decreases |d|
  {
    hide DecimalScan;
    if d == "" {
      assert d + rest == rest;
    } else {
      assert (d + rest)[1..] == d[1..] + rest && (d + rest)[0] == d[0];
      ScanStep(d + rest, dot, exp);
      DigitsPassed(d[1..], rest, dot, exp);
    }
  }

  lemma {:induction false} Stops(rest: string, dot: bool, exp: bool)
    requires rest == "" || (!IsDigit(rest[0]) && (rest[0] == '.' ==> dot || exp) && (rest[0] in {'e', 'E'} ==> exp))
    ensures DecimalScan(rest, dot, exp) == (0, dot || exp)
  {
    hide DecimalScan;
    if rest == "" {
      ScanEnd(dot, exp);
    } else {
      ScanStep(rest, dot, exp);
    }
  }

  lemma {:induction false} ExponentPassed(x: Option<Exponent>, rest: string, dot: bool)
    requires (x.Some? ==> ExponentOk(x.value)) && Ends(Number("", if dot then Some("") else None, x), rest)
    ensures DecimalScan(ExponentText(x) + rest, dot, false) == (|ExponentText(x)|, dot || x.Some?)
  {
    hide DecimalScan;
    match x
    case None =>
      assert ExponentText(x) + rest == rest;
      Stops(rest, dot, false);
    case Some(e) =>
      var s := ExponentText(x) + rest;
      var k := 1 + |e.sign|;
      assert s[k..] == e.digits + rest;
      SignLength(e, rest);
      ScanStep(s, dot, false);
      DigitsPassed(e.digits, rest, true, true);
      Stops(rest, true, true);
  }

  lemma {:induction false} SignLength(e: Exponent, rest: string)
    requires ExponentOk(e) && Ends(Number("", None, Some(e)), rest)
    ensures var s := ExponentText(Some(e)) + rest;
      s != "" && s[0] == e.letter && 1 + |e.sign| == if |s| >= 2 && s[1] in {'+', '-'} then 2 else 1
  {
    var s := ExponentText(Some(e)) + rest;
    if e.sign != "" {
      assert s[1] == e.sign[0];
    } else if e.digits != "" {
      assert s[1] == e.digits[0] && IsDigit(e.digits[0]);
    } else {
      assert s == [e.letter] + rest;
    }
  }

  /** A number is scanned up to its end, and known to be a float by its point or exponent. */
  lemma {:induction false} NumberScanned(p: Number, rest: string)
    requires NumberOk(p) && Ends(p, rest)
    ensures DecimalScan(DecimalText(p) + rest, false, false) == (|DecimalText(p)|, IsFloat(p))
  {
    hide DecimalScan, AllDigits, ExponentOk, ExponentText;
    var tail := ExponentText(p.exponent) + rest;
    var point := FractionText(p.fraction) + tail;
    assert DecimalText(p) + rest == p.whole + point;
    DigitsPassed(p.whole, point, false, false);
    match p.fraction
    case None =>
      assert point == tail;
      ExponentPassed(p.exponent, rest, false);
    case Some(d) =>
      assert point[0] == '.' && point[1..] == d + tail;
      ScanStep(point, false, false);
      DigitsPassed(d, tail, true, false);
      ExponentPassed(p.exponent, rest, true);
  }

  /** Digits at the front, and what is behind them. */
  lemma {:induction false} FrontDigits(s: string) returns (d: string, rest: string)
    ensures s == d + rest && AllDigits(d) && (rest != "" ==> !IsDigit(rest[0]))
  {
    if s == "" || !IsDigit(s[0]) {
      d, rest := "", s;
    } else {
      d, rest := FrontDigits(s[1..]);
      d := [s[0]] + d;
    }
  }

  /** Whatever the scan stops at, what it read is such a number. */
  lemma {:induction false} ScannedIsNumber(s: string) returns (p: Number, rest: string)
    ensures NumberOk(p) && s == DecimalText(p) + rest && Ends(p, rest)
    ensures DecimalScan(s, false, false) == (|DecimalText(p)|, IsFloat(p))
  {
    hide DecimalScan, AllDigits, ExponentOk, ExponentText, FractionText, Ends, IsFloat;
    var whole, s1 := FrontDigits(s);
    var fraction, s2 := FrontFraction(s1);
    var exponent;
    exponent, rest := FrontExponent(s2);
    p := Number(whole, fraction, exponent);
    Joined(whole, FractionText(fraction), ExponentText(exponent), rest);
    EndsThere(p, s1, s2, rest);
    NumberScanned(p, rest);
  }

  lemma {:induction false} Joined(a: string, b: string, c: string, rest: string)
    ensures a + (b + (c + rest)) == (a + (b + c)) + rest
  {
  }

  lemma {:induction false} FrontFraction(s: string) returns (f: Option<string>, rest: string)
    ensures (f.Some? ==> AllDigits(f.value)) && s == FractionText(f) + rest
    ensures (s != "" ==> (s[0] == '.' <==> f.Some?)) && (f.Some? && rest != "" ==> !IsDigit(rest[0]))
  {
    f, rest := None, s;
    if s != "" && s[0] == '.' {
      var d;
      d, rest := FrontDigits(s[1..]);
      f := Some(d);
    }
  }

  lemma {:induction false} EndsThere(p: Number, s1: string, s2: string, rest: string)
    requires s2 == ExponentText(p.exponent) + rest && s1 == FractionText(p.fraction) + s2
    requires s1 != "" ==> !IsDigit(s1[0]) && (s1[0] == '.' <==> p.fraction.Some?)
    requires p.fraction.Some? && s2 != "" ==> !IsDigit(s2[0])
    requires s2 != "" ==> (s2[0] in {'e', 'E'} <==> p.exponent.Some?)
    requires p.exponent.Some? && rest != "" ==> !IsDigit(rest[0])
    requires p.exponent.Some? && rest != "" && rest[0] in {'+', '-'} ==> p.exponent.value.sign != "" || p.exponent.value.digits != ""
    ensures Ends(p, rest)
  {
    if p.exponent.None? {
      assert s2 == rest;
      if p.fraction.None? {
        assert s1 == s2;
      }
    }
  }

  lemma {:induction false} FrontExponent(s: string) returns (x: Option<Exponent>, rest: string)
    ensures (x.Some? ==> ExponentOk(x.value)) && s == ExponentText(x) + rest && (s != "" ==> (s[0] in {'e', 'E'} <==> x.Some?))
    ensures x.Some? && rest != "" ==> !IsDigit(rest[0]) && (rest[0] in {'+', '-'} ==> x.value.sign != "" || x.value.digits != "")
  {
    x, rest := None, s;
    if s != "" && s[0] in {'e', 'E'} {
      var sign := if |s| >= 2 && s[1] in {'+', '-'} then [s[1]] else "";
      var digits;
      digits, rest := FrontDigits(s[1 + |sign|..]);
      x := Some(Exponent(s[0], sign, digits));
      assert s[..1 + |sign|] == [s[0]] + sign;
      Joined([s[0]], sign, digits, rest);
      assert s == ([s[0]] + sign) + (digits + rest);
      if sign == "" && digits == "" {
        assert rest == s[1..];
      }
    }
  }

  /** A number with a point or an exponent and no suffix is accepted exactly when the host's parser takes its text, and
      then as what that makes of it. */
  lemma {:induction false} FloatExact(fp: FloatParser, p: Number, rest: string)
    requires NumberOk(p) && IsFloat(p) && Ends(p, rest) && (rest == "" || rest[0] !in {'f', 'F'})
    requires p.whole != "" || (p.fraction.Some? && p.fraction.value != "")
    ensures var text := DecimalText(p);
      LexOne(fp, text + rest) == match fp(text) case Some(f) => Ok((TFloat(f), |text|)) case None => Err("invalid float literal")
  {
    var text := DecimalText(p);
    var s := text + rest;
    NumberScanned(p, rest);
    NumberStarts(p, rest);
    assert s[..|text|] == text && s[|text|..] == rest;
    hide DecimalScan, LexHex, DecimalText, NumberOk, Ends;
    assert SuffixLen(rest, 'f', 'F') == 0;
    assert LexOne(fp, s) == LexDecimal(fp, s);
  }

  lemma {:induction false} NumberStarts(p: Number, rest: string)
    requires NumberOk(p) && IsFloat(p) && (p.whole != "" || (p.fraction.Some? && p.fraction.value != ""))
    ensures var s := DecimalText(p) + rest; s != "" && StartsNumber(s) && !(|s| >= 2 && s[0] == '0' && s[1] in {'x', 'X'})
  {
    var s := DecimalText(p) + rest;
    if p.whole == "" {
      assert s[0] == '.' && s[1] == p.fraction.value[0];
    } else {
      assert s[0] == p.whole[0];
      if |p.whole| > 1 {
        assert s[1] == p.whole[1];
      } else if p.fraction.Some? {
        assert s[1] == '.';
      } else {
        assert s[1] == p.exponent.value.letter;
      }
    }
  }
}
