/** What the lexer reads, as functions of the text still to be read, and what can be read back. */
module Lexing {
  import opened Wrappers
  import opened Ast
  import opened Bytes
  import opened Tokens
  import opened Gaps

  /** The float parser of the host language: the text of a literal to its value. */
  type FloatParser = string -> Option<F64>

  datatype Lexeme = Lexeme(tok: Tok, start: nat, end: nat)

  // --- character classes ---

  predicate IsSpace(c: char) { c in {' ', '\t', '\n', '\r', '\U{000C}'} }

  predicate IsAlpha(c: char) { 'a' <= c <= 'z' || 'A' <= c <= 'Z' }

  predicate IsWordChar(c: char) { IsAlpha(c) || IsDigit(c) || c == '_' }

  predicate IsHex(c: char) { IsDigit(c) || 'a' <= c <= 'f' || 'A' <= c <= 'F' }

  /** Length of the longest prefix of such characters. */
  function SpanLen(p: char -> bool, s: string): (n: nat)
    ensures n <= |s| && (forall i :: 0 <= i < n ==> p(s[i])) && (n < |s| ==> !p(s[n]))
  {
    if s != "" && p(s[0]) then 1 + SpanLen(p, s[1..]) else 0
  }

  // --- white space and comments ---

  /** Characters before the end of the line. */
  function LineLen(s: string): (n: nat)
    ensures n <= |s|
  {
    if s == "" || s[0] == '\n' then 0 else 1 + LineLen(s[1..])
  }

  /** Characters up to and including the end of a block comment. */
  function BlockLen(s: string): (r: Option<nat>)
    ensures r.Some? ==> 2 <= r.value <= |s|
  {
    if |s| < 2 then None
    else if s[0] == '*' && s[1] == '/' then Some(2)
    else
      var n :- BlockLen(s[1..]);
      Some(n + 1)
  }

  /** Length of the white space and comments at the front; `None` if a comment does not end. */
  function BlankLen(s: string): (r: Option<nat>)
    ensures r.Some? ==> r.value <= |s|
    decreases |s|
  {
    if s == "" then Some(0)
    else if IsSpace(s[0]) then
      var n :- BlankLen(s[1..]);
      Some(n + 1)
    else if |s| >= 2 && s[0] == '/' && s[1] == '/' then
      var k := 2 + LineLen(s[2..]);
      var n :- BlankLen(s[k..]);
      Some(n + k)
    else if |s| >= 2 && s[0] == '/' && s[1] == '*' then
      var b :- BlockLen(s[2..]);
      var n :- BlankLen(s[2 + b..]);
      Some(n + 2 + b)
    else Some(0)
  }

  /** One unfolding of the skip. */
  lemma {:induction false} SkipStep(s: string)
    requires s != ""
    ensures IsSpace(s[0]) ==>
      (BlankLen(s).Some? <==> BlankLen(s[1..]).Some?) && (BlankLen(s).Some? ==> BlankLen(s).value == BlankLen(s[1..]).value + 1)
    ensures |s| >= 2 && s[0] == '/' && s[1] == '/' ==>
      var k := 2 + LineLen(s[2..]);
      (BlankLen(s).Some? <==> BlankLen(s[k..]).Some?) && (BlankLen(s).Some? ==> BlankLen(s).value == BlankLen(s[k..]).value + k)
    ensures |s| >= 2 && s[0] == '/' && s[1] == '*' ==>
      match BlockLen(s[2..])
      case None => BlankLen(s).None?
      case Some(b) =>
        && (BlankLen(s).Some? <==> BlankLen(s[2 + b..]).Some?)
        && (BlankLen(s).Some? ==> BlankLen(s).value == BlankLen(s[2 + b..]).value + 2 + b)
    ensures !IsSpace(s[0]) && !(|s| >= 2 && s[0] == '/' && s[1] in {'/', '*'}) ==> BlankLen(s) == Some(0)
  {
  }

  lemma {:induction false} SkipEnd()
    ensures BlankLen("") == Some(0)
  {
  }

  // --- numbers ---

  function HexDigitValue(c: char): nat
    requires IsHex(c)
  {
    if IsDigit(c) then DigitValue(c)
    else if 'a' <= c <= 'f' then c as int - 'a' as int + 10
    else c as int - 'A' as int + 10
  }

  function FromHex(s: string): nat
    requires forall i :: 0 <= i < |s| ==> IsHex(s[i])
  {
    if s == "" then 0 else 16 * FromHex(s[..|s| - 1]) + HexDigitValue(s[|s| - 1])
  }

  const TWO_63: int := 0x8000_0000_0000_0000

  /** A 64-bit pattern read as a signed number. */
  function AsSigned64(u: nat): int
    requires u < TWO_64
  {
    if u < TWO_63 then u else u - TWO_64
  }

  predicate AllDigits(s: string) {
    forall i :: 0 <= i < |s| ==> IsDigit(s[i])
  }

  /** Digits, at most one point, at most one exponent with an optional sign; and whether there was one of these. */
  function DecimalScan(s: string, dot: bool, exp: bool): (r: (nat, bool))
    ensures r.0 <= |s|
  {
    if s == "" then (0, dot || exp)
    else if IsDigit(s[0]) then
      var (n, f) := DecimalScan(s[1..], dot, exp);
      (n + 1, f)
    else if s[0] == '.' && !dot && !exp then
      var (n, f) := DecimalScan(s[1..], true, exp);
      (n + 1, f)
    else if s[0] in {'e', 'E'} && !exp then
      var k := if |s| >= 2 && s[1] in {'+', '-'} then 2 else 1;
      var (n, f) := DecimalScan(s[k..], true, true);
      (n + k, f)
    else (0, dot || exp)
  }

  /** One unfolding of the scan. */
  lemma {:induction false} ScanStep(s: string, dot: bool, exp: bool)
    requires s != ""
    ensures IsDigit(s[0]) ==>
      DecimalScan(s, dot, exp) == (DecimalScan(s[1..], dot, exp).0 + 1, DecimalScan(s[1..], dot, exp).1)
    ensures s[0] == '.' && !dot && !exp ==>
      DecimalScan(s, dot, exp) == (DecimalScan(s[1..], true, exp).0 + 1, DecimalScan(s[1..], true, exp).1)
    ensures s[0] in {'e', 'E'} && !exp ==>
      var k := if |s| >= 2 && s[1] in {'+', '-'} then 2 else 1;
      DecimalScan(s, dot, exp) == (DecimalScan(s[k..], true, true).0 + k, DecimalScan(s[k..], true, true).1)
    ensures !IsDigit(s[0]) && !(s[0] == '.' && !dot && !exp) && !(s[0] in {'e', 'E'} && !exp) ==>
      DecimalScan(s, dot, exp) == (0, dot || exp)
  {
  }

  lemma {:induction false} ScanEnd(dot: bool, exp: bool)
    ensures DecimalScan("", dot, exp) == (0, dot || exp)
  {
  }

  /** Length of a suffix letter, 0 or 1. */
  function SuffixLen(s: string, lower: char, upper: char): (n: nat)
    ensures n <= 1 && n <= |s|
  {
    if s != "" && s[0] in {lower, upper} then 1 else 0
  }

  function LexHex(s: string): (r: Result<(Tok, nat)>)
    requires |s| >= 2
    ensures r.Ok? ==> 2 < r.value.1 <= |s|
  {
    var n := SpanLen(IsHex, s[2..]);
    if n == 0 then Err("empty hex literal") else
    var digits := s[2..2 + n];
    assert forall i :: 0 <= i < |digits| ==> digits[i] == s[2..][i];
    var u := SuffixLen(s[2 + n..], 'u', 'U');
    if FromHex(digits) >= TWO_64 then Err("invalid hex literal")
    else if u == 1 then Ok((TUint(FromHex(digits)), 2 + n + u))
    else Ok((TInt(AsSigned64(FromHex(digits))), 2 + n + u))
  }

  /** The text handed to the number parser includes the suffix. */
  function LexDecimal(fp: FloatParser, s: string): (r: Result<(Tok, nat)>)
    requires s != ""
    ensures r.Ok? ==> r.value.1 <= |s|
  {
    var (n, isFloat) := DecimalScan(s, false, false);
    if isFloat then
      var k := n + SuffixLen(s[n..], 'f', 'F');
      match fp(s[..k])
      case Some(f) => Ok((TFloat(f), k))
      case None => Err("invalid float literal")
    else
      var k := n + SuffixLen(s[n..], 'u', 'U');
      if k > n then
        (if s[..k] != "" && AllDigits(s[..k]) && FromDecimal(s[..k]) < TWO_64 then Ok((TUint(FromDecimal(s[..k])), k))
         else Err("invalid integer literal"))
      else if s[..k] != "" && AllDigits(s[..k]) && FromDecimal(s[..k]) < TWO_63 then Ok((TInt(FromDecimal(s[..k])), k))
      else Err("invalid integer literal")
  }

  // --- words ---

  function KeywordOf(s: string): Option<Keyword> {
    match s
    case "void" => Some(KVoid)
    case "float" => Some(KFloat)
    case "int" => Some(KInt)
    case "uint" => Some(KUint)
    case "bool" => Some(KBool)
    case "struct" => Some(KStruct)
    case "return" => Some(KReturn)
    case "if" => Some(KIf)
    case "else" => Some(KElse)
    case "for" => Some(KFor)
    case "SamplerState" => Some(KSamplerState)
    case "Texture2D" => Some(KTexture2D)
    case "cbuffer" => Some(KCBuffer)
    case "register" => Some(KRegister)
    case _ => None
  }

  const SEMANTIC_BASES: set<string> := {
    "POSITION", "POSITIONT", "PSIZE", "COLOR", "FOG", "TEXCOORD", "TANGENT", "BINORMAL", "NORMAL", "DEPTH", "VPOS", "VFACE",
    "BLENDWEIGHT", "BLENDINDICES"}

  predicate IsSemantic(s: string) {
    "SV_" <= s || exists base :: base in SEMANTIC_BASES && base <= s && AllDigits(s[|base|..])
  }

  function Classify(s: string): Tok {
    if KeywordOf(s).Some? then TKeyword(KeywordOf(s).value)
    else if s == "true" then TBool(true)
    else if s == "false" then TBool(false)
    else if IsSemantic(s) then TSemantic(s)
    else TIdent(s)
  }

  // --- operators ---

  function TwoCharTok(a: char, b: char): Option<Tok> {
    match (a, b)
    case ('=', '=') => Some(EqEq)
    case ('!', '=') => Some(Neq)
    case ('<', '=') => Some(TLe)
    case ('>', '=') => Some(TGe)
    case ('&', '&') => Some(AndAnd)
    case ('|', '|') => Some(OrOr)
    case ('+', '=') => Some(PlusEq)
    case ('-', '=') => Some(MinusEq)
    case ('*', '=') => Some(StarEq)
    case ('/', '=') => Some(SlashEq)
    case _ => None
  }

  function OneCharTok(c: char): Option<Tok> {
    match c
    case '(' => Some(LParen)
    case ')' => Some(RParen)
    case '{' => Some(LBrace)
    case '}' => Some(RBrace)
    case '[' => Some(LBracket)
    case ']' => Some(RBracket)
    case ',' => Some(Comma)
    case ';' => Some(Semicolon)
    case ':' => Some(Colon)
    case '.' => Some(Dot)
    case '=' => Some(TAssign)
    case '<' => Some(TLt)
    case '>' => Some(TGt)
    case '+' => Some(Plus)
    case '-' => Some(Minus)
    case '*' => Some(Star)
    case '/' => Some(Slash)
    case '%' => Some(Percent)
    case '!' => Some(Bang)
    case '~' => Some(Tilde)
    case '&' => Some(Amp)
    case '|' => Some(Pipe)
    case '^' => Some(Caret)
    case _ => None
  }

  // --- tokens ---

  predicate StartsNumber(s: string)
    requires s != ""
  {
    IsDigit(s[0]) || (s[0] == '.' && |s| >= 2 && IsDigit(s[1]))
  }

  /** The token at the front of the text, and its length. */
  function LexOne(fp: FloatParser, s: string): (r: Result<(Tok, nat)>)
    requires s != ""
    ensures r.Ok? ==> 0 < r.value.1 <= |s|
  {
    if StartsNumber(s) then
      if |s| >= 2 && s[0] == '0' && s[1] in {'x', 'X'} then LexHex(s)
      else
        NumberNonEmpty(s);
        LexDecimal(fp, s)
    else if s[0] == '"' then Err("string literals are not supported")
    else if IsAlpha(s[0]) || s[0] == '_' then
      var n := SpanLen(IsWordChar, s);
      Ok((Classify(s[..n]), n))
    else if |s| >= 2 && TwoCharTok(s[0], s[1]).Some? then Ok((TwoCharTok(s[0], s[1]).value, 2))
    else if OneCharTok(s[0]).Some? then Ok((OneCharTok(s[0]).value, 1))
    else Err("unexpected character")
  }

  lemma {:induction false} NumberNonEmpty(s: string)
    requires s != "" && StartsNumber(s)
    ensures DecimalScan(s, false, false).0 > 0
  {
  }

  /** All tokens of the text, which starts at position `at`. */
  function Lex(fp: FloatParser, s: string, at: nat): (r: Result<seq<Lexeme>>)
    decreases |s|
  {
    match BlankLen(s)
    case None => Err("unterminated block comment")
    case Some(n) =>
      if n == |s| then Ok([])
      else
        var (t, len) :- LexOne(fp, s[n..]);
        var rest :- Lex(fp, s[n + len..], at + n + len);
        Ok([Lexeme(t, at + n, at + n + len)] + rest)
  }

  // --- gaps ---

  function Beyond(k: nat, n: Option<nat>): Option<nat> {
    match n
    case Some(x) => Some(k + x)
    case None => None
  }

  /** What a text starts with, for the skip: a piece of white space or comment, a last line comment, a block comment that
      does not end, or something else. */
  datatype Front = Skips(p: Piece) | SkipsAll | NeverEnds | Stops

  ghost predicate FrontOk(s: string, f: Front) {
    match f
    case Skips(p) =>
      PieceOk(p) && PieceText(p) <= s && BlankLen(s) == Beyond(|PieceText(p)|, BlankLen(s[|PieceText(p)|..]))
    case SkipsAll => LastLine(s) && BlankLen(s) == Some(|s|)
    case NeverEnds => |s| >= 2 && s[0] == '/' && s[1] == '*' && !Closes(s[2..]) && BlankLen(s) == None
    case Stops => BlankLen(s) == Some(0)
  }

  lemma {:induction false} FrontOf(s: string) returns (f: Front)
    ensures FrontOk(s, f)
  {
    hide BlankLen, LineLen, BlockLen, FrontOk;
    if s == "" {
      f := FrontEnd(s);
    } else if IsSpace(s[0]) {
      f := FrontWhite(s);
    } else if |s| >= 2 && s[0] == '/' && s[1] == '/' {
      f := FrontLine(s);
    } else if |s| >= 2 && s[0] == '/' && s[1] == '*' {
      f := FrontBlock(s);
    } else {
      f := FrontEnd(s);
    }
  }

  lemma {:induction false} FrontEnd(s: string) returns (f: Front)
    requires s == "" || (!IsSpace(s[0]) && !(|s| >= 2 && s[0] == '/' && s[1] in {'/', '*'}))
    ensures FrontOk(s, f)
  {
    f := Stops;
    if s == "" {
      SkipEnd();
    } else {
      SkipStep(s);
    }
    hide BlankLen;
  }

  lemma {:induction false} FrontWhite(s: string) returns (f: Front)
    requires s != "" && IsSpace(s[0])
    ensures FrontOk(s, f)
  {
    hide BlankLen;
    f := Skips(White(s[0]));
    SkipStep(s);
    assert [s[0]] <= s;
  }

  lemma {:induction false} FrontLine(s: string) returns (f: Front)
    requires |s| >= 2 && s[0] == '/' && s[1] == '/'
    ensures FrontOk(s, f)
  {
    hide BlankLen, LineLen;
    LineStep(s);
    LineExact(s[2..]);
    var k := 2 + LineLen(s[2..]);
    if k == |s| {
      f := SkipsAll;
      LastLineText(s);
    } else {
      var text := s[2..k];
      f := Skips(LineComment(text));
      forall i | 0 <= i < |text| ensures text[i] != '\n' {
        assert text[i] == s[2..][i];
      }
      LinePiece(s, k);
    }
  }

  lemma {:induction false} LinePiece(s: string, k: nat)
    requires 2 <= k < |s| && s[0] == '/' && s[1] == '/' && s[k] == '\n'
    ensures PieceText(LineComment(s[2..k])) == s[..k + 1]
  {
    var a, b := "//" + s[2..k] + "\n", s[..k + 1];
    assert |a| == |b|;
    forall i | 0 <= i < |a| ensures a[i] == b[i] {
    }
  }

  lemma {:induction false} FrontBlock(s: string) returns (f: Front)
    requires |s| >= 2 && s[0] == '/' && s[1] == '*'
    ensures FrontOk(s, f)
  {
    hide BlankLen, BlockLen;
    SkipStep(s);
    BlockExact(s[2..]);
    if BlockLen(s[2..]).None? {
      f := NeverEnds;
    } else {
      var k := 2 + BlockLen(s[2..]).value;
      var text := s[2..k - 2];
      f := Skips(BlockComment(text));
      assert s[k - 2] == s[2..][k - 4] && s[k - 1] == s[2..][k - 3];
      forall i | 0 <= i < |text| - 1 ensures !(text[i] == '*' && text[i + 1] == '/') {
        assert text[i] == s[2..][i] && text[i + 1] == s[2..][i + 1];
      }
      BlockPiece(s, k);
    }
  }

  lemma {:induction false} BlockPiece(s: string, k: nat)
    requires 4 <= k <= |s| && s[0] == '/' && s[1] == '*' && s[k - 2] == '*' && s[k - 1] == '/'
    ensures PieceText(BlockComment(s[2..k - 2])) == s[..k]
  {
    var a, b := "/*" + s[2..k - 2] + "*/", s[..k];
    assert |a| == |b|;
    forall i | 0 <= i < |a| ensures a[i] == b[i] {
    }
  }

  /** What is skipped is white space and comments, and only a comment at the end of the text can lack its newline. */
  lemma {:induction false} SkippedIsGap(s: string) returns (ps: seq<Piece>, tail: string)
    requires BlankLen(s).Some?
    ensures var n := BlankLen(s).value;
      && PiecesOk(ps) && s[..n] == GapText(ps) + tail && (tail == "" || (n == |s| && LastLine(tail)))
    decreases |s|
  {
    hide BlankLen, PieceText, PieceOk, GapText, LastLine, Closes;
    NoPieces();
    ps, tail := [], "";
    var n := BlankLen(s).value;
    var f := FrontOf(s);
    match f
    case Skips(p) =>
      var k := |PieceText(p)|;
      ps, tail := SkippedIsGap(s[k..]);
      assert s[..n] == PieceText(p) + s[k..][..n - k];
      ps := GapCons(p, ps, tail);
    case SkipsAll => tail := s;
    case _ =>
  }

  lemma {:induction false} NoPieces()
    ensures GapText([]) == "" && PiecesOk([])
  {
  }

  lemma {:induction false} GapCons(p: Piece, ps: seq<Piece>, tail: string) returns (all: seq<Piece>)
    requires PieceOk(p) && PiecesOk(ps)
    ensures PiecesOk(all) && GapText(all) + tail == PieceText(p) + (GapText(ps) + tail)
  {
    hide PieceText, PieceOk;
    all := [p] + ps;
    assert all[1..] == ps && GapText(all) == PieceText(p) + GapText(ps);
  }

  lemma {:induction false} SkippedGap(s: string)
    requires BlankLen(s).Some?
    ensures IsGap(s[..BlankLen(s).value], BlankLen(s).value == |s|)
  {
    hide BlankLen, PiecesOk, GapText, LastLine;
    var ps, tail := SkippedIsGap(s);
    var n := BlankLen(s).value;
    assert GapOf(s[..n], n == |s|, ps, tail);
  }

  /** A line runs up to the first newline or the end. */
  lemma {:induction false} LineExact(s: string)
    ensures forall i :: 0 <= i < LineLen(s) ==> s[i] != '\n'
    ensures LineLen(s) < |s| ==> s[LineLen(s)] == '\n'
  {
    if s != "" && s[0] != '\n' {
      LineExact(s[1..]);
      forall i | 0 <= i < LineLen(s) ensures s[i] != '\n' {
        assert i > 0 ==> s[i] == s[1..][i - 1];
      }
    }
  }

  /** A block comment runs through the first `*` and `/`. */
  lemma {:induction false} BlockExact(s: string)
    ensures BlockLen(s).Some? ==>
      var n := BlockLen(s).value - 2;
      s[n] == '*' && s[n + 1] == '/' && forall i :: 0 <= i < n ==> !(s[i] == '*' && s[i + 1] == '/')
    ensures BlockLen(s).None? ==> !Closes(s)
  {
    if |s| >= 2 && !(s[0] == '*' && s[1] == '/') {
      BlockExact(s[1..]);
      forall i | 0 <= i < |s| - 1 ensures i > 0 ==> s[i] == s[1..][i - 1] && s[i + 1] == s[1..][i] {
      }
    }
  }

  lemma {:induction false} LineStep(s: string)
    requires |s| >= 2 && s[0] == '/' && s[1] == '/'
    ensures var k := 2 + LineLen(s[2..]);
      if k == |s| then BlankLen(s) == Some(|s|)
      else k < |s| && BlankLen(s) == match BlankLen(s[k + 1..]) { case Some(n) => Some(k + 1 + n) case None => None }
  {
    hide BlankLen, LineLen;
    SkipStep(s);
    SkipEnd();
    var k := 2 + LineLen(s[2..]);
    if k == |s| {
      assert s[k..] == "";
    } else {
      LineExact(s[2..]);
      assert s[k] == s[2..][k - 2];
      SkipStep(s[k..]);
      assert s[k..][1..] == s[k + 1..];
    }
  }

  lemma {:induction false} LastLineText(s: string)
    requires |s| >= 2 && s[0] == '/' && s[1] == '/' && LineLen(s[2..]) == |s| - 2
    ensures LastLine(s)
  {
    LineExact(s[2..]);
    forall i | 0 <= i < |s| ensures s[i] != '\n' {
      if i >= 2 {
        assert s[i] == s[2..][i - 2];
      }
    }
  }

  /** One piece of white space or comment is skipped, whatever follows. */
  lemma {:induction false} PieceSkipped(p: Piece, rest: string)
    requires PieceOk(p)
    ensures BlankLen(PieceText(p) + rest) ==
      match BlankLen(rest) { case Some(n) => Some(|PieceText(p)| + n) case None => None }
  {
    hide BlankLen, Closes;
    match p
    case White(c) => WhiteSkipped(c, rest);
    case LineComment(text) => LineSkipped(text, rest);
    case BlockComment(text) => BlockSkipped(text, rest);
  }

  lemma {:induction false} WhiteSkipped(c: char, rest: string)
    requires PieceOk(White(c))
    ensures BlankLen([c] + rest) == match BlankLen(rest) { case Some(n) => Some(1 + n) case None => None }
  {
    hide BlankLen;
    SkipStep([c] + rest);
    assert ([c] + rest)[1..] == rest;
  }

  lemma {:induction false} LineSkipped(text: string, rest: string)
    requires '\n' !in text
    ensures BlankLen("//" + text + "\n" + rest) == match BlankLen(rest) { case Some(n) => Some(|text| + 3 + n) case None => None }
  {
    hide BlankLen, LineLen;
    var s := "//" + text + "\n" + rest;
    assert s[2..] == text + ("\n" + rest);
    LineEnds(text, "\n" + rest);
    LineStep(s);
    assert s[|text| + 3..] == rest;
  }

  lemma {:induction false} BlockSkipped(text: string, rest: string)
    requires !Closes(text)
    ensures BlankLen("/*" + text + "*/" + rest) == match BlankLen(rest) { case Some(n) => Some(|text| + 4 + n) case None => None }
  {
    hide BlankLen, LineLen, BlockLen, Closes;
    var s := "/*" + text + "*/" + rest;
    SkipStep(s);
    assert s[2..] == text + ("*/" + rest);
    BlockEnds(text, rest);
    assert s[|text| + 4..] == rest;
  }

  lemma {:induction false} LineEnds(text: string, rest: string)
    requires '\n' !in text && rest != "" && rest[0] == '\n'
    ensures LineLen(text + rest) == |text|
  {
    if text == "" {
      assert text + rest == rest;
    } else {
      assert (text + rest)[1..] == text[1..] + rest;
      LineEnds(text[1..], rest);
    }
  }

  lemma {:induction false} BlockEnds(text: string, rest: string)
    requires !Closes(text)
    ensures BlockLen(text + ("*/" + rest)) == Some(|text| + 2)
  {
    var s := text + ("*/" + rest);
    if text == "" {
      assert s == "*/" + rest;
    } else {
      assert s[1..] == text[1..] + ("*/" + rest);
      assert s[0] == text[0] && s[1] == if |text| == 1 then '*' else text[1];
      RestOpen(text);
      BlockEnds(text[1..], rest);
    }
  }

  lemma {:induction false} RestOpen(text: string)
    requires text != "" && !Closes(text)
    ensures !Closes(text[1..]) && (|text| > 1 ==> !(text[0] == '*' && text[1] == '/'))
  {
    forall i | 0 <= i < |text[1..]| - 1 ensures !(text[1..][i] == '*' && text[1..][i + 1] == '/') {
      assert !(text[i + 1] == '*' && text[i + 2] == '/');
    }
  }

  lemma {:induction false} NoNewline(text: string)
    requires '\n' !in text
    ensures LineLen(text) == |text|
  {
    if text != "" {
      NoNewline(text[1..]);
    }
  }

  lemma {:induction false} NeverClosed(text: string)
    requires !Closes(text)
    ensures BlockLen(text).None?
  {
    if |text| >= 2 {
      RestOpen(text);
      NeverClosed(text[1..]);
    }
  }

  /** White space and comments are skipped, whatever follows. */
  lemma {:induction false} GapSkipped(ps: seq<Piece>, rest: string)
    requires PiecesOk(ps)
    ensures BlankLen(GapText(ps) + rest) ==
      match BlankLen(rest) { case Some(n) => Some(|GapText(ps)| + n) case None => None }
    decreases |ps|
  {
    hide BlankLen;
    if ps == [] {
      assert GapText(ps) + rest == rest;
    } else {
      GapSkipped(ps[1..], rest);
      PieceSkipped(ps[0], GapText(ps[1..]) + rest);
      assert GapText(ps) + rest == PieceText(ps[0]) + (GapText(ps[1..]) + rest);
    }
  }

  /** A last line comment is skipped to the end. */
  lemma {:induction false} LastLineSkipped(tail: string)
    requires tail == "" || LastLine(tail)
    ensures BlankLen(tail) == Some(|tail|)
  {
    SkipEnd();
    if tail != "" {
      forall c | c in tail[2..] ensures c in tail {
      }
      NoNewline(tail[2..]);
      LineStep(tail);
    }
  }

  /** The skip fails exactly at a block comment that does not end. */
  lemma {:induction false} UnterminatedExact(s: string)
    ensures BlankLen(s).None? <==> exists ps, text :: PiecesOk(ps) && !Closes(text) && s == GapText(ps) + ("/*" + text)
  {
    if ps, text :| PiecesOk(ps) && !Closes(text) && s == GapText(ps) + ("/*" + text) {
      OpenBlock(text);
      GapSkipped(ps, "/*" + text);
    }
    if BlankLen(s).None? {
      var ps, text := Unterminated(s);
    }
  }

  lemma {:induction false} OpenBlock(text: string)
    requires !Closes(text)
    ensures BlankLen("/*" + text).None?
  {
    var s := "/*" + text;
    assert s[2..] == text;
    SkipStep(s);
    NeverClosed(text);
  }

  lemma {:induction false} Unterminated(s: string) returns (ps: seq<Piece>, text: string)
    requires BlankLen(s).None?
    ensures PiecesOk(ps) && !Closes(text) && s == GapText(ps) + ("/*" + text)
    decreases |s|
  {
    hide BlankLen, PieceText, PieceOk, GapText, LastLine, Closes;
    NoPieces();
    ps, text := [], "";
    var f := FrontOf(s);
    match f
    case Skips(p) =>
      var k := |PieceText(p)|;
      ps, text := Unterminated(s[k..]);
      assert s == PieceText(p) + s[k..];
      ps := GapCons(p, ps, "/*" + text);
    case NeverEnds =>
      text := s[2..];
      assert s == "/*" + text;
    case _ =>
  }

  // --- tiling ---

  /** Where the gap before lexeme `i` starts. */
  function GapStart(ls: seq<Lexeme>, i: nat, at: nat): nat
    requires i <= |ls|
  {
    if i == 0 then at else ls[i - 1].end
  }

  function GapEnd(ls: seq<Lexeme>, i: nat, end: nat): nat
    requires i <= |ls|
  {
    if i == |ls| then end else ls[i].start
  }

  /** Lexemes lie in order and apart between `at` and the end of the text, and every gap is blank. */
  ghost predicate Tiles(src: string, at: nat, ls: seq<Lexeme>) {
    && (forall i :: 0 <= i < |ls| ==> at <= ls[i].start < ls[i].end <= |src|)
    && (forall i: nat :: i <= |ls| ==> GapOk(src, at, ls, i))
  }

  ghost predicate GapOk(src: string, at: nat, ls: seq<Lexeme>, i: nat)
    requires i <= |ls|
  {
    && GapStart(ls, i, at) <= GapEnd(ls, i, |src|) <= |src|
    && IsGap(src[GapStart(ls, i, at)..GapEnd(ls, i, |src|)], i == |ls|)
  }

  /** The lexemes of a text are in order, not empty, inside it and apart, with only white space and comments before,
      between and behind them. */
  lemma {:induction false} Tiling(fp: FloatParser, src: string, at: nat)
    requires at <= |src| && Lex(fp, src[at..], at).Ok?
    ensures Tiles(src, at, Lex(fp, src[at..], at).value)
    decreases |src| - at
  {
    hide IsGap, BlankLen, LexOne, Lex, Tiles;
    var s := src[at..];
    LexStep(fp, s, at);
    var n := BlankLen(s).value;
    SkippedGap(s);
    if n < |s| {
      var (t, len) := LexOne(fp, s[n..]).value;
      var next := at + n + len;
      assert s[n + len..] == src[next..];
      Tiling(fp, src, next);
      assert src[at..at + n] == s[..n];
      TilesCons(src, at, Lexeme(t, at + n, next), Lex(fp, src[next..], next).value);
    } else {
      assert s[..n] == src[at..|src|];
      TilesNothing(src, at);
    }
  }

  /** One unfolding. */
  lemma {:induction false} LexStep(fp: FloatParser, s: string, at: nat)
    requires Lex(fp, s, at).Ok?
    ensures BlankLen(s).Some?
    ensures var n := BlankLen(s).value;
      if n == |s| then Lex(fp, s, at) == Ok([])
      else
        && LexOne(fp, s[n..]).Ok?
        && var (t, len) := LexOne(fp, s[n..]).value;
           && Lex(fp, s[n + len..], at + n + len).Ok?
           && Lex(fp, s, at).value == [Lexeme(t, at + n, at + n + len)] + Lex(fp, s[n + len..], at + n + len).value
  {
    hide BlankLen, LexOne;
  }

  lemma {:induction false} TilesNothing(src: string, at: nat)
    requires at <= |src| && IsGap(src[at..|src|], true)
    ensures Tiles(src, at, [])
  {
    hide IsGap;
    assert GapOk(src, at, [], 0);
  }

  lemma {:induction false} TilesCons(src: string, at: nat, l: Lexeme, rest: seq<Lexeme>)
    requires at <= l.start < l.end <= |src| && IsGap(src[at..l.start], false) && Tiles(src, l.end, rest)
    ensures Tiles(src, at, [l] + rest)
  {
    hide IsGap;
    var ls := [l] + rest;
    forall i: nat | i <= |ls| ensures GapOk(src, at, ls, i) {
      if i > 0 {
        assert GapOk(src, l.end, rest, i - 1);
      }
    }
  }

  predicate HasExponent(s: string) { 'e' in s || 'E' in s }

  predicate IsHexNumber(s: string) { |s| >= 2 && s[0] == '0' && s[1] in {'x', 'X'} }

  predicate IsFloatText(s: string) { '.' in s || HasExponent(s) }

  /** `c` would continue the number: another digit, a first point or exponent, the sign of an exponent, a suffix. */
  predicate Continues(number: string, c: char)
    requires number != ""
  {
    var last := number[|number| - 1];
    if IsHexNumber(number) then last !in {'u', 'U'} && (IsHex(c) || c in {'u', 'U'})
    else last !in {'u', 'U', 'f', 'F'} && (
           || IsDigit(c)
           || (c == '.' && !IsFloatText(number))
           || (c in {'e', 'E'} && !HasExponent(number))
           || (c in {'+', '-'} && last in {'e', 'E'})
           || (if IsFloatText(number) then c in {'f', 'F'} else c in {'u', 'U'}))
  }

  /** The scan stops only where nothing continues the number, and its flag says whether a point or exponent was seen. */
  lemma {:induction false} ScanMaximal(s: string, dot: bool, exp: bool)
    ensures var (n, f) := DecimalScan(s, dot, exp);
      && (f <==> dot || exp || IsFloatText(s[..n]))
      && (n < |s| ==> !IsDigit(s[n]) && (s[n] == '.' ==> f) && (s[n] in {'e', 'E'} ==> exp || HasExponent(s[..n])))
      && (0 < n < |s| && s[n - 1] in {'e', 'E'} ==> s[n] !in {'+', '-'})
      && (n > 0 ==> IsDigit(s[n - 1]) || s[n - 1] in {'.', 'e', 'E', '+', '-'})
    decreases |s|
  {
    hide DecimalScan;
    if s != "" {
      ScanStep(s, dot, exp);
      var (n, f) := DecimalScan(s, dot, exp);
      if IsDigit(s[0]) {
        ScanMaximal(s[1..], dot, exp);
        ScanPrefix(s, 1, n);
      } else if s[0] == '.' && !dot && !exp {
        ScanMaximal(s[1..], true, exp);
        ScanPrefix(s, 1, n);
      } else if s[0] in {'e', 'E'} && !exp {
        var k := if |s| >= 2 && s[1] in {'+', '-'} then 2 else 1;
        ScanMaximal(s[k..], true, true);
        ScanPrefix(s, k, n);
        assert s[..n][0] == s[0];
      }
    } else {
      ScanEnd(dot, exp);
    }
  }

  lemma {:induction false} ScanPrefix(s: string, k: nat, n: nat)
    requires 0 < k <= n <= |s|
    ensures s[..n] == s[..k] + s[k..][..n - k]
    ensures forall c: char :: c in s[..n] <==> c in s[..k] || c in s[k..][..n - k]
  {
  }

  /** Longest match: a word is not followed by a word character, a number not by a character that would continue it,
      and a single operator character not by one that would make a longer operator. */
  lemma {:induction false} MaximalMunch(fp: FloatParser, s: string)
    requires s != "" && LexOne(fp, s).Ok?
    ensures var (t, n) := LexOne(fp, s).value;
      && ((IsAlpha(s[0]) || s[0] == '_') && n < |s| ==> !IsWordChar(s[n]))
      && (StartsNumber(s) && n < |s| ==> !Continues(s[..n], s[n]))
      && (n == 1 && |s| >= 2 && OneCharTok(s[0]) == Some(t) ==> TwoCharTok(s[0], s[1]).None?)
  {
    if StartsNumber(s) {
      NumberMunch(fp, s);
    }
    hide LexHex, LexDecimal, Continues, Classify;
  }

  lemma {:induction false} NumberMunch(fp: FloatParser, s: string)
    requires s != "" && StartsNumber(s) && LexOne(fp, s).Ok?
    ensures var n := LexOne(fp, s).value.1; n < |s| ==> !Continues(s[..n], s[n])
  {
    if IsHexNumber(s) {
      HexMunch(s);
    } else {
      NumberNonEmpty(s);
      DecimalMunch(fp, s);
    }
    hide LexHex, LexDecimal, Continues;
  }

  lemma {:induction false} HexMunch(s: string)
    requires IsHexNumber(s) && LexHex(s).Ok?
    ensures var n := LexHex(s).value.1; n < |s| ==> !Continues(s[..n], s[n])
  {
    var k := SpanLen(IsHex, s[2..]);
    var n := LexHex(s).value.1;
    if n < |s| {
      assert IsHexNumber(s[..n]);
      if n == 2 + k {
        assert s[n] == s[2..][k] == s[2 + k..][0];
      } else {
        assert s[..n][n - 1] == s[2 + k..][0];
      }
    }
  }

  lemma {:induction false} DecimalMunch(fp: FloatParser, s: string)
    requires s != "" && !IsHexNumber(s) && LexDecimal(fp, s).Ok? && LexDecimal(fp, s).value.1 > 0
    ensures var n := LexDecimal(fp, s).value.1; n < |s| ==> !Continues(s[..n], s[n])
  {
    ScanMaximal(s, false, false);
    var (k, f) := DecimalScan(s, false, false);
    hide DecimalScan;
    var n := LexDecimal(fp, s).value.1;
    if n < |s| {
      assert !IsHexNumber(s[..n]);
      if n == k {
        assert s[n] == s[k..][0];
      } else {
        assert n == k + 1 && s[..n][n - 1] == s[k..][0];
      }
    }
  }

  // --- rendering ---

  function HexChar(d: nat): (c: char)
    requires d < 16
    ensures IsHex(c) && HexDigitValue(c) == d
  {
    if d < 10 then DigitChar(d) else (d - 10 + 'a' as int) as char
  }

  function Hex(n: nat): (s: string)
    ensures |s| > 0 && forall i :: 0 <= i < |s| ==> IsHex(s[i])
  {
    if n < 16 then [HexChar(n)] else Hex(n / 16) + [HexChar(n % 16)]
  }

  lemma {:induction false} HexRoundTrip(n: nat)
    ensures FromHex(Hex(n)) == n
  {
    var s := Hex(n);
    if n >= 16 {
      HexRoundTrip(n / 16);
      assert s[..|s| - 1] == Hex(n / 16);
    } else {
      assert s[..0] == "";
    }
  }

  function KeywordText(k: Keyword): (s: string)
    ensures KeywordOf(s) == Some(k) && Wordlike(s)
  {
    match k
    case KVoid => "void"
    case KFloat => "float"
    case KInt => "int"
    case KUint => "uint"
    case KBool => "bool"
    case KStruct => "struct"
    case KReturn => "return"
    case KIf => "if"
    case KElse => "else"
    case KFor => "for"
    case KSamplerState => "SamplerState"
    case KTexture2D => "Texture2D"
    case KCBuffer => "cbuffer"
    case KRegister => "register"
  }

  predicate Wordlike(s: string) {
    s != "" && (IsAlpha(s[0]) || s[0] == '_') && forall i :: 0 <= i < |s| ==> IsWordChar(s[i])
  }

  /** Text of a token; floats are written by `render`. */
  function Text(render: F64 -> string, t: Tok): string {
    match t
    case TIdent(s) => s
    case TSemantic(s) => s
    case TKeyword(k) => KeywordText(k)
    case TInt(i) => if i >= 0 then Decimal(i) else ""
    case TUint(u) => "0x" + Hex(u) + "u"
    case TFloat(f) => render(f)
    case TBool(b) => if b then "true" else "false"
    case LParen => "("
    case RParen => ")"
    case LBrace => "{"
    case RBrace => "}"
    case LBracket => "["
    case RBracket => "]"
    case Comma => ","
    case Semicolon => ";"
    case Colon => ":"
    case Dot => "."
    case TAssign => "="
    case EqEq => "=="
    case Neq => "!="
    case TLt => "<"
    case TLe => "<="
    case TGt => ">"
    case TGe => ">="
    case Plus => "+"
    case Minus => "-"
    case Star => "*"
    case Slash => "/"
    case Percent => "%"
    case Bang => "!"
    case Tilde => "~"
    case Amp => "&"
    case Pipe => "|"
    case Caret => "^"
    case AndAnd => "&&"
    case OrOr => "||"
    case PlusEq => "+="
    case MinusEq => "-="
    case StarEq => "*="
    case SlashEq => "/="
    case Eof => ""
  }

  /** Digits, a point, digits. */
  predicate PlainFloat(s: string) {
    exists i :: 0 < i < |s| - 1 && s[i] == '.' && AllDigits(s[..i]) && AllDigits(s[i + 1..])
  }

  /** Tokens that can be written: words that classify as themselves, numbers in range, floats that the host's parser
      reads back from a plain rendering. */
  predicate Writable(fp: FloatParser, render: F64 -> string, t: Tok) {
    match t
    case TIdent(s) => Wordlike(s) && Classify(s) == t
    case TSemantic(s) => Wordlike(s) && Classify(s) == t
    case TInt(i) => 0 <= i < TWO_63
    case TUint(u) => u < TWO_64
    case TFloat(f) => PlainFloat(render(f)) && fp(render(f)) == Some(f)
    case Eof => false
    case _ => true
  }

  /** Every token followed by a space. */
  function Render(render: F64 -> string, ts: seq<Tok>): string {
    if ts == [] then "" else Text(render, ts[0]) + " " + Render(render, ts[1..])
  }

  function Toks(ls: seq<Lexeme>): (ts: seq<Tok>)
    ensures |ts| == |ls|
  {
    seq(|ls|, i requires 0 <= i < |ls| => ls[i].tok)
  }

  lemma {:induction false} SpanStops(p: char -> bool, s: string, rest: string)
    requires (forall i :: 0 <= i < |s| ==> p(s[i])) && (rest == "" || !p(rest[0]))
    ensures SpanLen(p, s + rest) == |s|
  {
    if s == "" {
      assert s + rest == rest;
    } else {
      assert (s + rest)[1..] == s[1..] + rest;
      SpanStops(p, s[1..], rest);
    }
  }

  lemma {:induction false} DigitsScan(s: string, rest: string, dot: bool)
    requires AllDigits(s)
    requires rest == "" || (!IsDigit(rest[0]) && rest[0] !in {'e', 'E'} && (dot || rest[0] != '.'))
    ensures DecimalScan(s + rest, dot, false) == (|s|, dot)
    decreases |s|
  {
    if s == "" {
      assert s + rest == rest;
    } else {
      assert (s + rest)[1..] == s[1..] + rest;
      DigitsScan(s[1..], rest, dot);
    }
  }

  lemma {:induction false} PointScan(a: string, b: string, rest: string)
    requires AllDigits(a) && AllDigits(b) && (rest == "" || (!IsDigit(rest[0]) && rest[0] !in {'e', 'E', '.'}))
    ensures DecimalScan(a + "." + b + rest, false, false) == (|a| + 1 + |b|, true)
    decreases |a|
  {
    var s := a + "." + b + rest;
    if a == "" {
      assert s[1..] == b + rest;
      DigitsScan(b, rest, true);
    } else {
      assert s[1..] == a[1..] + "." + b + rest;
      PointScan(a[1..], b, rest);
    }
  }

  lemma {:induction false} WordRead(fp: FloatParser, s: string, rest: string)
    requires Wordlike(s) && (rest == "" || !IsWordChar(rest[0]))
    ensures LexOne(fp, s + rest) == Ok((Classify(s), |s|))
  {
    SpanStops(IsWordChar, s, rest);
    assert (s + rest)[..|s|] == s;
  }

  lemma {:induction false} IntRead(fp: FloatParser, i: nat, rest: string)
    requires i < TWO_63 && (rest == "" || (!IsWordChar(rest[0]) && rest[0] != '.'))
    ensures LexOne(fp, Decimal(i) + rest) == Ok((TInt(i), |Decimal(i)|))
  {
    var d := Decimal(i);
    var s := d + rest;
    DigitsScan(d, rest, false);
    DecimalRoundTrip(i);
    assert s[..|d|] == d && s[|d|..] == rest;
    assert IsDigit(s[0]);
    assert |d| == 1 && rest != "" ==> s[1] == rest[0];
    assert |d| > 1 ==> s[1] == d[1] && IsDigit(d[1]);
  }

  lemma {:induction false} UintRead(fp: FloatParser, u: nat, rest: string)
    requires u < TWO_64
    ensures LexOne(fp, "0x" + Hex(u) + "u" + rest) == Ok((TUint(u), |Hex(u)| + 3))
  {
    var h := Hex(u);
    var s := "0x" + h + "u" + rest;
    assert s[2..] == h + ("u" + rest);
    SpanStops(IsHex, h, "u" + rest);
    HexRoundTrip(u);
    assert s[2..2 + |h|] == h && s[2 + |h|..] == "u" + rest;
    assert s[0] == '0' && s[1] == 'x';
  }

  lemma {:induction false} FloatRead(fp: FloatParser, text: string, f: F64, rest: string)
    requires PlainFloat(text) && fp(text) == Some(f) && (rest == "" || (!IsWordChar(rest[0]) && rest[0] != '.'))
    ensures LexOne(fp, text + rest) == Ok((TFloat(f), |text|))
  {
    var s := text + rest;
    FloatScan(text, rest);
    assert s[..|text|] == text && s[|text|..] == rest;
    hide DecimalScan, LexHex, PlainFloat;
    assert LexDecimal(fp, s) == Ok((TFloat(f), |text|));
  }

  /** A plain float is scanned as one, and does not look like a hexadecimal number. */
  lemma {:induction false} FloatScan(text: string, rest: string)
    requires PlainFloat(text) && (rest == "" || (!IsDigit(rest[0]) && rest[0] !in {'e', 'E', '.'}))
    ensures DecimalScan(text + rest, false, false) == (|text|, true)
    ensures |text| >= 2 && IsDigit(text[0]) && text[1] !in {'x', 'X'}
  {
    var i :| 0 < i < |text| - 1 && text[i] == '.' && AllDigits(text[..i]) && AllDigits(text[i + 1..]);
    assert text == text[..i] + "." + text[i + 1..];
    PointScan(text[..i], text[i + 1..], rest);
    assert text[0] == text[..i][0];
    assert i == 1 ==> text[1] == '.';
    assert i > 1 ==> text[1] == text[..i][1];
  }

  /** What may stand right behind a token: nothing that the lexer would read as part of it, and nothing that would make
      the start of a comment of it. */
  predicate Separates(t: Tok, rest: string) {
    rest == "" ||
    match t
    case TIdent(_) => !IsWordChar(rest[0])
    case TKeyword(_) => !IsWordChar(rest[0])
    case TSemantic(_) => !IsWordChar(rest[0])
    case TBool(_) => !IsWordChar(rest[0])
    case TInt(_) => !IsWordChar(rest[0]) && rest[0] != '.'
    case TFloat(_) => !IsWordChar(rest[0]) && rest[0] != '.'
    case Dot => !IsDigit(rest[0])
    case Slash => rest[0] !in {'=', '/', '*'}
    case Amp => rest[0] != '&'
    case Pipe => rest[0] != '|'
    case _ => t in {TAssign, Bang, TLt, TGt, Plus, Minus, Star} ==> rest[0] != '='
  }

  lemma {:induction false} SymbolRead(fp: FloatParser, render: F64 -> string, t: Tok, rest: string)
    requires Separates(t, rest)
    requires !t.TIdent? && !t.TSemantic? && !t.TKeyword? && !t.TBool? && !t.TInt? && !t.TUint? && !t.TFloat? && t != Eof
    ensures LexOne(fp, Text(render, t) + rest) == Ok((t, |Text(render, t)|))
  {
    var text := Text(render, t);
    var s := text + rest;
    SymbolTable(render, t);
    assert s[0] == text[0] && (|text| == 2 ==> s[1] == text[1]) && (|text| == 1 && rest != "" ==> s[1] == rest[0]);
    if |text| == 1 && rest != "" {
      Uncombined(text[0], t, rest);
    }
    hide LexHex, LexDecimal, Classify, SpanLen, Text, OneCharTok, TwoCharTok;
  }

  lemma {:induction false} Uncombined(c: char, t: Tok, rest: string)
    requires OneCharTok(c) == Some(t) && Separates(t, rest) && rest != ""
    ensures TwoCharTok(c, rest[0]).None? && !(c == '.' && IsDigit(rest[0])) && !(c == '/' && rest[0] in {'/', '*'})
  {
  }

  /** The texts of operators are those the lexer looks for, and start no other token. */
  lemma {:induction false} SymbolTable(render: F64 -> string, t: Tok)
    requires !t.TIdent? && !t.TSemantic? && !t.TKeyword? && !t.TBool? && !t.TInt? && !t.TUint? && !t.TFloat? && t != Eof
    ensures var text := Text(render, t);
      && 1 <= |text| <= 2 && !IsDigit(text[0]) && !IsAlpha(text[0]) && text[0] !in {'_', '"'}
      && (|text| == 1 ==> OneCharTok(text[0]) == Some(t))
      && (|text| == 2 ==> TwoCharTok(text[0], text[1]) == Some(t) && text[0] != '.')
  {
  }

  /** One token, followed by anything that cannot belong to it. */
  lemma {:induction false} TokenRead(fp: FloatParser, render: F64 -> string, t: Tok, rest: string)
    requires Writable(fp, render, t) && Separates(t, rest)
    ensures Text(render, t) != "" && LexOne(fp, Text(render, t) + rest) == Ok((t, |Text(render, t)|))
  {
    hide LexOne, Classify, Hex;
    match t
    case TIdent(s) => WordRead(fp, s, rest);
    case TSemantic(s) => WordRead(fp, s, rest);
    case TKeyword(k) =>
      WordRead(fp, KeywordText(k), rest);
      KeywordsClassify(k);
    case TBool(b) =>
      WordRead(fp, if b then "true" else "false", rest);
      BoolsClassify();
    case TInt(i) => IntRead(fp, i, rest);
    case TUint(u) => UintRead(fp, u, rest);
    case TFloat(f) => FloatRead(fp, render(f), f, rest);
    case _ => SymbolRead(fp, render, t, rest);
  }

  lemma {:induction false} KeywordsClassify(k: Keyword)
    ensures Classify(KeywordText(k)) == TKeyword(k)
  {
  }

  lemma {:induction false} BoolsClassify()
    ensures Classify("true") == TBool(true) && Classify("false") == TBool(false)
  {
  }

  /** No token text starts with white space or like a comment. */
  lemma {:induction false} NotBlank(fp: FloatParser, render: F64 -> string, t: Tok, rest: string)
    requires Writable(fp, render, t) && Separates(t, rest)
    ensures BlankLen(Text(render, t) + rest) == Some(0)
  {
    var text := Text(render, t);
    var s := text + rest;
    TokenRead(fp, render, t, rest);
    assert s[0] == text[0] && (|text| == 1 && rest != "" ==> s[1] == rest[0]) && (|text| > 1 ==> s[1] == text[1]);
    if t.TFloat? {
      var i :| 0 < i < |text| - 1 && text[i] == '.' && AllDigits(text[..i]) && AllDigits(text[i + 1..]);
      assert text[0] == text[..i][0];
    }
  }

  // --- source texts ---

  /** A token and the white space and comments behind it. */
  datatype Item = Item(tok: Tok, gap: seq<Piece>)

  /** Tokens with what stands between them, and a last line comment that may lack its newline. */
  function ItemsText(render: F64 -> string, items: seq<Item>, tail: string): string {
    if items == [] then tail
    else Text(render, items[0].tok) + (GapText(items[0].gap) + ItemsText(render, items[1..], tail))
  }

  /** Writable tokens; a gap may be empty where the next token does not run into the one before. */
  predicate ItemsOk(fp: FloatParser, render: F64 -> string, items: seq<Item>, tail: string) {
    if items == [] then tail == "" || LastLine(tail)
    else
      && Writable(fp, render, items[0].tok) && PiecesOk(items[0].gap)
      && Separates(items[0].tok, GapText(items[0].gap) + ItemsText(render, items[1..], tail))
      && ItemsOk(fp, render, items[1..], tail)
  }

  function ItemToks(items: seq<Item>): (ts: seq<Tok>)
    ensures |ts| == |items|
  {
    seq(|items|, i requires 0 <= i < |items| => items[i].tok)
  }

  /** Lexing source text gives its tokens, in order and with nothing else, whatever white space and comments stand before,
      between and behind them. */
  lemma {:induction false} SourceRead(fp: FloatParser, render: F64 -> string, lead: seq<Piece>, items: seq<Item>, tail: string, at: nat)
    requires PiecesOk(lead) && ItemsOk(fp, render, items, tail)
    ensures Reads(fp, GapText(lead) + ItemsText(render, items, tail), at, ItemToks(items))
    decreases |items|
  {
    hide Writable, Lex, LexOne, Text, PiecesOk, GapText, Separates, BlankLen, LastLine;
    var rest := ItemsText(render, items, tail);
    var s := GapText(lead) + rest;
    GapSkipped(lead, rest);
    var n := |GapText(lead)|;
    assert s[n..] == rest;
    if items == [] {
      LastLineSkipped(tail);
      AllRead(fp, s, at);
    } else {
      var t, text, more := items[0].tok, Text(render, items[0].tok), ItemsText(render, items[1..], tail);
      TokenRead(fp, render, t, GapText(items[0].gap) + more);
      NotBlank(fp, render, t, GapText(items[0].gap) + more);
      SourceRead(fp, render, items[0].gap, items[1..], tail, at + n + |text|);
      assert rest[|text|..] == GapText(items[0].gap) + more && s[n + |text|..] == rest[|text|..];
      TokensCons(fp, s, n, t, |text|, at, ItemToks(items[1..]));
      assert [t] + ItemToks(items[1..]) == ItemToks(items);
    }
  }

  lemma {:induction false} AllRead(fp: FloatParser, s: string, at: nat)
    requires BlankLen(s) == Some(|s|)
    ensures Reads(fp, s, at, [])
  {
  }

  /** A gap of white space and comments, or none, changes no token and leaves the rest where it is. */
  lemma {:induction false} CommentsIgnored(fp: FloatParser, ps: seq<Piece>, rest: string, at: nat)
    requires PiecesOk(ps)
    ensures Lex(fp, GapText(ps) + rest, at) == Lex(fp, rest, at + |GapText(ps)|)
  {
    hide LexOne, GapText, PiecesOk, BlankLen;
    GapSkipped(ps, rest);
    var s, k := GapText(ps) + rest, |GapText(ps)|;
    if BlankLen(rest).Some? {
      var n := BlankLen(rest).value;
      assert s[k + n..] == rest[n..];
      if n < |rest| && LexOne(fp, rest[n..]).Ok? {
        var len := LexOne(fp, rest[n..]).value.1;
        assert s[k + n + len..] == rest[n + len..];
      }
    }
  }

  /** Items separated by single spaces. */
  function Spaced(ts: seq<Tok>): (items: seq<Item>)
    ensures ItemToks(items) == ts
  {
    seq(|ts|, i requires 0 <= i < |ts| => Item(ts[i], [White(' ')]))
  }

  /** So for tokens followed by one space each. */
  lemma {:induction false} RenderRead(fp: FloatParser, render: F64 -> string, ts: seq<Tok>, at: nat)
    requires forall i :: 0 <= i < |ts| ==> Writable(fp, render, ts[i])
    ensures Reads(fp, Render(render, ts), at, ts)
  {
    hide Writable, Reads, GapText, ItemsText;
    SpacedOk(fp, render, ts);
    SourceRead(fp, render, [], Spaced(ts), "", at);
    assert GapText([]) == "" by { NoPieces(); }
    assert "" + Render(render, ts) == Render(render, ts);
  }

  lemma {:induction false} SpacedOk(fp: FloatParser, render: F64 -> string, ts: seq<Tok>)
    requires forall i :: 0 <= i < |ts| ==> Writable(fp, render, ts[i])
    ensures ItemsOk(fp, render, Spaced(ts), "") && ItemsText(render, Spaced(ts), "") == Render(render, ts) && PiecesOk([])
  {
    hide Writable, Text;
    if ts != [] {
      SpacedOk(fp, render, ts[1..]);
      assert Spaced(ts)[1..] == Spaced(ts[1..]);
      OneSpace();
      assert Separates(ts[0], " " + Render(render, ts[1..]));
      assert Text(render, ts[0]) + (" " + Render(render, ts[1..])) == Render(render, ts);
    }
  }

  lemma {:induction false} OneSpace()
    ensures GapText([White(' ')]) == " " && PiecesOk([White(' ')])
  {
    assert [White(' ')][1..] == [];
  }

  predicate Reads(fp: FloatParser, s: string, at: nat, ts: seq<Tok>) {
    Lex(fp, s, at).Ok? && Toks(Lex(fp, s, at).value) == ts
  }

  lemma {:induction false} TokensCons(fp: FloatParser, s: string, n: nat, t: Tok, len: nat, at: nat, ts: seq<Tok>)
    requires BlankLen(s) == Some(n) && n < |s| && LexOne(fp, s[n..]) == Ok((t, len))
    requires Reads(fp, s[n + len..], at + n + len, ts)
    ensures Reads(fp, s, at, [t] + ts)
  {
    hide BlankLen, LexOne;
    var rest := Lex(fp, s[n + len..], at + n + len).value;
    assert Lex(fp, s, at) == Ok([Lexeme(t, at + n, at + n + len)] + rest);
    hide Lex;
    assert Toks([Lexeme(t, at + n, at + n + len)] + rest) == [t] + Toks(rest);
  }

  /** A decimal number with a `u` or `U` suffix is never accepted: the suffix is part of the text that is parsed. */
  lemma {:induction false} DecimalUintRejected(fp: FloatParser, digits: string, suffix: char, rest: string)
    requires digits != "" && AllDigits(digits) && suffix in {'u', 'U'}
    ensures LexOne(fp, digits + [suffix] + rest).Err?
  {
    var s := digits + [suffix] + rest;
    assert s == digits + ([suffix] + rest);
    DigitsScan(digits, [suffix] + rest, false);
    assert s[|digits|..] == [suffix] + rest;
    assert s[..|digits| + 1][|digits|] == suffix;
    assert |digits| >= 2 ==> s[1] == digits[1];
    assert |digits| == 1 ==> s[1] == suffix;
    assert s[0] == digits[0];
  }

  /** A decimal number with a point or an exponent, and an `f` or `F` right behind it. */
  predicate SuffixedFloat(s: string) {
    && s != "" && StartsNumber(s) && !(|s| >= 2 && s[0] == '0' && s[1] in {'x', 'X'})
    && var (n, isFloat) := DecimalScan(s, false, false);
       isFloat && n < |s| && s[n] in {'f', 'F'}
  }

  /** Such as `1.5f`: digits, a point, digits and the suffix, whatever follows. */
  lemma {:induction false} PlainFloatSuffixed(text: string, suffix: char, rest: string)
    requires PlainFloat(text) && suffix in {'f', 'F'}
    ensures SuffixedFloat(text + [suffix] + rest) && DecimalScan(text + [suffix] + rest, false, false).0 == |text|
  {
    var s := text + [suffix] + rest;
    assert s == text + ([suffix] + rest);
    FloatScan(text, [suffix] + rest);
    assert s[0] == text[0] && s[1] == text[1];
  }

  /** So is the suffix of a float, after digits, a point or an exponent alike: the literal is accepted exactly when the
      host's float parser takes the text with the `f` in it, whatever it makes of the text without. */
  lemma {:induction false} FloatSuffixExact(fp: FloatParser, s: string)
    requires SuffixedFloat(s)
    ensures var n := DecimalScan(s, false, false).0;
      LexOne(fp, s) == (match fp(s[..n + 1]) case Some(f) => Ok((TFloat(f), n + 1)) case None => Err("invalid float literal"))
  {
    hide DecimalScan, LexHex;
    assert LexOne(fp, s) == LexDecimal(fp, s);
  }

  /** Whatever ends in `f` or `F` is no float to the parser. */
  ghost predicate TakesNoSuffix(fp: FloatParser) {
    forall s :: s != "" && s[|s| - 1] in {'f', 'F'} ==> fp(s).None?
  }

  /** With a parser that takes no text ending in `f` or `F`, no suffixed float is ever accepted, and with it no source
      text whose first token it is. */
  lemma {:induction false} FloatSuffixRejected(fp: FloatParser, s: string, at: nat)
    requires TakesNoSuffix(fp) && BlankLen(s).Some? && BlankLen(s).value < |s| && SuffixedFloat(s[BlankLen(s).value..])
    ensures LexOne(fp, s[BlankLen(s).value..]).Err? && Lex(fp, s, at).Err?
  {
    hide BlankLen, DecimalScan, LexOne, StartsNumber;
    var t := s[BlankLen(s).value..];
    var n := DecimalScan(t, false, false).0;
    assert t[..n + 1][n] == t[n];
    FloatSuffixExact(fp, t);
  }
}
