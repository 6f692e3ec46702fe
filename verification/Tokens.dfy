/** Tokens, and the type words `float4`, `int3x2`, ... read and written as text. */
module Tokens {
  import opened Wrappers
  import opened Ast

  datatype Keyword =
    | KVoid | KFloat | KInt | KUint | KBool | KStruct | KReturn | KIf | KElse | KFor
    | KSamplerState | KTexture2D | KCBuffer | KRegister

  datatype Tok =
    | TIdent(s: string) | TKeyword(k: Keyword) | TSemantic(s: string)
    | TInt(i: int) | TUint(u: nat) | TFloat(f: F64) | TBool(b: bool)
    | LParen | RParen | LBrace | RBrace | LBracket | RBracket | Comma | Semicolon | Colon | Dot
    | TAssign | EqEq | Neq | TLt | TLe | TGt | TGe | Plus | Minus | Star | Slash | Percent | Bang | Tilde
    | Amp | Pipe | Caret | AndAnd | OrOr | PlusEq | MinusEq | StarEq | SlashEq
    | Eof

  /** Whether two tokens are of the same variant, their contents aside. */
  predicate SameVariant(a: Tok, b: Tok) {
    if a.TKeyword? then b.TKeyword?
    else if a.TIdent? then b.TIdent?
    else if a.TSemantic? then b.TSemantic?
    else if a.TInt? then b.TInt?
    else if a.TUint? then b.TUint?
    else if a.TFloat? then b.TFloat?
    else if a.TBool? then b.TBool?
    else a == b
  }

  // --- decimal numbers ---

  const TWO_32: int := 0x1_0000_0000

  predicate IsDigit(c: char) { '0' <= c <= '9' }

  function DigitChar(d: nat): (c: char)
    requires d < 10
    ensures IsDigit(c) && c as int - '0' as int == d
  {
    (d + '0' as int) as char
  }

  function DigitValue(c: char): nat
    requires IsDigit(c)
  {
    c as int - '0' as int
  }

  /** Decimal digits without leading zeros. */
  function Decimal(n: nat): (s: string)
    ensures |s| > 0 && forall i :: 0 <= i < |s| ==> IsDigit(s[i])
  {
    if n < 10 then [DigitChar(n)] else Decimal(n / 10) + [DigitChar(n % 10)]
  }

  /** The number a digit string stands for. */
  function FromDecimal(s: string): nat
    requires forall i :: 0 <= i < |s| ==> IsDigit(s[i])
  {
    if s == "" then 0 else 10 * FromDecimal(s[..|s| - 1]) + DigitValue(s[|s| - 1])
  }

  /** Read an unsigned 32-bit number: an optional `+`, then digits, and no overflow. */
  function ParseU32(s: string): (r: Option<nat>)
    ensures r.Some? ==> r.value < TWO_32
  {
    if Numeral(s) && FromDecimal(Unsigned(s)) < TWO_32 then Some(FromDecimal(Unsigned(s))) else None
  }

  function Unsigned(s: string): string {
    if |s| > 1 && s[0] == '+' then s[1..] else s
  }

  /** Digits, with or without a plus sign in front. */
  predicate Numeral(s: string) {
    Unsigned(s) != "" && forall i :: 0 <= i < |Unsigned(s)| ==> IsDigit(Unsigned(s)[i])
  }

  lemma {:induction false} DecimalRoundTrip(n: nat)
    ensures FromDecimal(Decimal(n)) == n
  {
    var s := Decimal(n);
    if n >= 10 {
      DecimalRoundTrip(n / 10);
      assert s[..|s| - 1] == Decimal(n / 10);
    } else {
      assert s[..0] == "";
    }
  }

  lemma {:induction false} ParseU32Decimal(n: nat)
    requires n < TWO_32
    ensures ParseU32(Decimal(n)) == Some(n)
  {
    DecimalRoundTrip(n);
    assert IsDigit(Decimal(n)[0]);
  }

  // --- type words ---

  function KindWord(k: ScalarKind): string {
    match k
    case Float => "float"
    case Int => "int"
    case Uint => "uint"
    case Bool => "bool"
  }

  /** A type as it is displayed. */
  function Display(ty: Type): string {
    match ty
    case Void => "void"
    case Scalar(k) => KindWord(k)
    case Vector(k, n) => KindWord(k) + Decimal(n)
    case Matrix(k, r, c) => KindWord(k) + Decimal(r) + "x" + Decimal(c)
    case Struct(name) => name
    case Texture2D => "Texture2D"
    case SamplerState => "SamplerState"
  }

  /** The index of the first `x`, if there is one. */
  function FindX(s: string): (r: Option<nat>)
    ensures r.Some? ==> r.value < |s| && s[r.value] == 'x' && forall i :: 0 <= i < r.value ==> s[i] != 'x'
    ensures r.None? ==> forall i :: 0 <= i < |s| ==> s[i] != 'x'
  {
    if s == "" then None
    else if s[0] == 'x' then Some(0)
    else match FindX(s[1..])
      case Some(i) => Some(i + 1)
      case None => None
  }

  /** Rows and columns of a shape such as `4` or `4x4`; a bare number is a vector's. */
  function DecodeShape(s: string): Option<(nat, nat)> {
    if s == "" then Some((1, 1))
    else match FindX(s)
      case Some(i) =>
        var r :- ParseU32(s[..i]);
        var c :- ParseU32(s[i + 1..]);
        if r >= 1 && c >= 1 then Some((r, c)) else None
      case None =>
        var n :- ParseU32(s);
        if 2 <= n <= 4 then Some((n, 1)) else None
  }

  function ShapedType(k: ScalarKind, shape: (nat, nat)): Type {
    if shape.1 == 1 then (if shape.0 == 1 then Scalar(k) else Vector(k, shape.0)) else Matrix(k, shape.0, shape.1)
  }

  /** The scalar kind a word starts with, tried in this order. */
  function WordKind(s: string): (r: Option<ScalarKind>)
    ensures r.Some? ==> KindWord(r.value) <= s
  {
    if "float" <= s then Some(Float)
    else if "int" <= s then Some(Int)
    else if "uint" <= s then Some(Uint)
    else if "bool" <= s then Some(Bool)
    else None
  }

  function DecodeTypeWord(s: string): Option<Type> {
    var k :- WordKind(s);
    var shape :- DecodeShape(s[|KindWord(k)|..]);
    Some(ShapedType(k, shape))
  }

  lemma {:induction false} WordKindOf(k: ScalarKind, rest: string)
    ensures WordKind(KindWord(k) + rest) == Some(k) && (KindWord(k) + rest)[|KindWord(k)|..] == rest
  {
    var s := KindWord(k) + rest;
    match k
    case Float => assert s[0] == 'f';
    case Int => assert s[0] == 'i';
    case Uint => assert s[0] == 'u';
    case Bool => assert s[0] == 'b';
  }

  lemma {:induction false} FindXAfterDigits(a: string, b: string)
    requires forall i :: 0 <= i < |a| ==> IsDigit(a[i])
    ensures FindX(a + "x" + b) == Some(|a|)
  {
    var s := a + "x" + b;
    assert s[|a|] == 'x';
    forall j | 0 <= j < |a| ensures s[j] != 'x' {
      assert s[j] == a[j];
    }
  }

  lemma {:induction false} NoXInDigits(s: string)
    requires forall i :: 0 <= i < |s| ==> IsDigit(s[i])
    ensures FindX(s) == None
  {
    if s != "" {
      NoXInDigits(s[1..]);
    }
  }

  /** Reading a displayed vector type gives it back exactly for two to four components. */
  lemma {:induction false} VectorWordExact(k: ScalarKind, n: nat)
    requires n < TWO_32
    ensures DecodeTypeWord(Display(Vector(k, n))) == Some(Vector(k, n)) <==> 2 <= n <= 4
  {
    WordKindOf(k, Decimal(n));
    NoXInDigits(Decimal(n));
    ParseU32Decimal(n);
  }

  /** Reading a displayed matrix type gives it back exactly when it has rows and at least two columns: with one
      column it comes back as a vector or a scalar. */
  lemma {:induction false} MatrixWordExact(k: ScalarKind, r: nat, c: nat)
    requires r < TWO_32 && c < TWO_32
    ensures DecodeTypeWord(Display(Matrix(k, r, c))) == Some(Matrix(k, r, c)) <==> r >= 1 && c >= 2
    ensures r >= 2 && c == 1 ==> DecodeTypeWord(Display(Matrix(k, r, c))) == Some(Vector(k, r))
  {
    hide ParseU32, WordKind;
    var shape := Decimal(r) + "x" + Decimal(c);
    assert Display(Matrix(k, r, c)) == KindWord(k) + shape;
    WordKindOf(k, shape);
    FindXAfterDigits(Decimal(r), Decimal(c));
    ParseU32Decimal(r);
    ParseU32Decimal(c);
    assert shape[..|Decimal(r)|] == Decimal(r);
    assert shape[|Decimal(r)| + 1..] == Decimal(c);
  }

  lemma {:induction false} ScalarWord(k: ScalarKind)
    ensures DecodeTypeWord(Display(Scalar(k))) == Some(Scalar(k))
  {
    WordKindOf(k, "");
    assert KindWord(k) + "" == KindWord(k);
  }
}
