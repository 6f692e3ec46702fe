/** What the parser accepts: every token sequence that parses is the text of a syntax tree that stands for the result. */
module Acceptance {
  import opened Wrappers
  import opened Ast
  import opened Tokens
  import opened Grammar

  // --- syntax trees with all their tokens ---

  /** A type token and, behind `Texture2D`, an element type, which is dropped. */
  datatype SType = SType(tok: Tok, element: Option<Input>)

  datatype SExpr =
    | SLit(lit: Tok)
    | SName(name: string)
    | SCall(name: string, args: seq<SExpr>)
    | SParen(lost: Option<SType>, inner: SExpr)
    | SCast(ty: SType, arg: SExpr)
    | SMember(base: SExpr, member: string)
    | SMethod(base: SExpr, member: string, args: seq<SExpr>)
    | SPrefix(op: Tok, arg: SExpr)
    | SInfix(lhs: SExpr, op: Tok, rhs: SExpr)

  // --- their text ---

  function TypeText(t: SType): (ts: Input)
    ensures ts != []
  {
    [t.tok] + (match t.element { case Some(a) => [TLt] + (a + [TGt]) case None => [] })
  }

  function Text(e: SExpr): (ts: Input)
    ensures ts != []
    decreases e, 0
  {
    match e
    case SLit(t) => [t]
    case SName(s) => [TIdent(s)]
    case SCall(s, args) => [TIdent(s)] + ([LParen] + (ArgsText(args) + [RParen]))
    case SParen(lost, x) => [LParen] + ((match lost { case Some(t) => TypeText(t) case None => [] }) + (Text(x) + [RParen]))
    case SCast(ty, x) => [LParen] + (TypeText(ty) + ([RParen] + Text(x)))
    case SMember(b, m) => Text(b) + ([Dot] + [TIdent(m)])
    case SMethod(b, m, args) => Text(b) + ([Dot] + ([TIdent(m)] + ([LParen] + (ArgsText(args) + [RParen]))))
    case SPrefix(t, x) => [t] + Text(x)
    case SInfix(l, t, r) => Text(l) + ([t] + Text(r))
  }

  function ArgsText(args: seq<SExpr>): Input
    decreases args, 1
  {
    if args == [] then []
    else if |args| == 1 then Text(args[0])
    else Text(args[0]) + ([Comma] + ArgsText(args[1..]))
  }

  // --- what they stand for ---

  /** The type a token names, given the structs declared so far. */
  function TokType(names: set<string>, t: Tok): Option<Type> {
    match t
    case TKeyword(KVoid) => Some(Void)
    case TKeyword(KFloat) => Some(Scalar(Float))
    case TKeyword(KInt) => Some(Scalar(Int))
    case TKeyword(KUint) => Some(Scalar(Uint))
    case TKeyword(KBool) => Some(Scalar(Bool))
    case TKeyword(KSamplerState) => Some(SamplerState)
    case TKeyword(KTexture2D) => Some(Texture2D)
    case TIdent(s) => if DecodeTypeWord(s).Some? then DecodeTypeWord(s) else if s in names then Some(Struct(s)) else None
    case _ => None
  }

  function LitOf(t: Tok): Option<Literal> {
    match t
    case TInt(i) => Some(IntLit(i))
    case TUint(u) => Some(UintLit(u))
    case TFloat(f) => Some(FloatLit(f))
    case TBool(b) => Some(BoolLit(b))
    case _ => None
  }

  predicate TypeFits(names: set<string>, t: SType) {
    TokType(names, t.tok).Some? && (t.element.Some? ==> t.tok == TKeyword(KTexture2D) && TGt !in t.element.value)
  }

  /** The tree is an expression of level `k` or tighter: 0 assignment, 1 to 6 infix, 7 prefix, 8 postfix, 9 primary. */
  predicate Fits(names: set<string>, e: SExpr, k: nat)
    decreases e, 0
  {
    match e
    case SLit(t) => LitOf(t).Some?
    case SName(_) => true
    case SCall(_, args) => AllFit(names, args)
    case SParen(lost, x) => (lost.Some? ==> TypeFits(names, lost.value)) && Fits(names, x, 0)
    case SCast(ty, x) => TypeFits(names, ty) && Fits(names, x, 7)
    case SMember(b, _) => k <= 8 && Fits(names, b, 8)
    case SMethod(b, _, args) => k <= 8 && Fits(names, b, 8) && AllFit(names, args)
    case SPrefix(t, x) => k <= 7 && PrefixOp(t).Some? && Fits(names, x, 7)
    case SInfix(l, t, r) =>
      || (AssignOp(t).Some? && k == 0 && Fits(names, l, 1) && Fits(names, r, 0))
      || (AssignOp(t).None? && InfixOp(t).Some?
          && var lv := InfixOp(t).value.1; k <= lv && Fits(names, l, lv) && Fits(names, r, lv + 1))
  }

  predicate AllFit(names: set<string>, args: seq<SExpr>)
    decreases args, 1
  {
    args == [] || (Fits(names, args[0], 0) && AllFit(names, args[1..]))
  }

  function ExprOf(names: set<string>, e: SExpr): Expr
    requires Fits(names, e, 0)
    decreases e, 0
  {
    match e
    case SLit(t) => Lit(LitOf(t).value)
    case SName(s) => Ident(s)
    case SCall(s, args) =>
      if DecodeTypeWord(s).Some? then Construct(DecodeTypeWord(s).value, ArgsOf(names, args)) else Call(s, ArgsOf(names, args))
    case SParen(_, x) => ExprOf(names, x)
    case SCast(ty, x) =>
      Looser(names, x, 7, 0);
      Cast(TokType(names, ty.tok).value, ExprOf(names, x))
    case SMember(b, m) =>
      Looser(names, b, 8, 0);
      Member(ExprOf(names, b), m)
    case SMethod(b, m, args) =>
      Looser(names, b, 8, 0);
      MethodCall(ExprOf(names, b), m, ArgsOf(names, args))
    case SPrefix(t, x) =>
      Looser(names, x, 7, 0);
      Unary(PrefixOp(t).value, ExprOf(names, x))
    case SInfix(l, t, r) =>
      if AssignOp(t).Some? then
        Looser(names, l, 1, 0);
        Binary(AssignOp(t).value, ExprOf(names, l), ExprOf(names, r))
      else
        Looser(names, l, InfixOp(t).value.1, 0);
        Looser(names, r, InfixOp(t).value.1 + 1, 0);
        Binary(InfixOp(t).value.0, ExprOf(names, l), ExprOf(names, r))
  }

  function ArgsOf(names: set<string>, args: seq<SExpr>): (es: seq<Expr>)
    requires AllFit(names, args)
    ensures |es| == |args|
    decreases args, 1
  {
    if args == [] then [] else [ExprOf(names, args[0])] + ArgsOf(names, args[1..])
  }

  lemma {:induction false} Looser(names: set<string>, e: SExpr, k: nat, j: nat)
    requires Fits(names, e, k) && j <= k
    ensures Fits(names, e, j)
  {
  }

  // --- types ---

  lemma {:induction false} Uncons(ts: Input, t: Tok)
    requires Peek(ts) == t && t != Eof
    ensures ts == [t] + Rest(ts)
  {
  }

  /** Regrouping. */
  lemma {:induction false} Regroup4(a: Input, b: Input, c: Input, d: Input, rest: Input)
    ensures (a + (b + (c + d))) + rest == a + (b + (c + (d + rest)))
  {
  }

  lemma {:induction false} Regroup3(a: Input, b: Input, c: Input, rest: Input)
    ensures (a + (b + c)) + rest == a + (b + (c + rest))
  {
  }

  lemma {:induction false} Regroup6(a: Input, b: Input, c: Input, d: Input, e: Input, f: Input, rest: Input)
    ensures (a + (b + (c + (d + (e + f))))) + rest == a + (b + (c + (d + (e + (f + rest)))))
  {
    Regroup4(c, d, e, f, rest);
    Regroup3(a, b, c + (d + (e + f)), rest);
  }

  lemma {:induction false} SkippedGt(ts: Input) returns (a: Input)
    ensures TGt !in a && (ts == a + ([TGt] + SkipUntilGt(ts)) || SkipUntilGt(ts) == [])
  {
    a := [];
    if ts != [] {
      if ts[0] == TGt {
        assert [] + ([TGt] + ts[1..]) == ts;
      } else {
        var b := SkippedGt(ts[1..]);
        a := [ts[0]] + b;
        hide SkipUntilGt;
        var rest := [TGt] + SkipUntilGt(ts[1..]);
        assert a + rest == [ts[0]] + (b + rest);
        assert ts == [ts[0]] + ts[1..];
      }
    }
  }

  lemma {:induction false} TypeTextOf(t: Tok, a: Input, rest: Input)
    ensures TypeText(SType(t, None)) + rest == [t] + rest
    ensures TypeText(SType(t, Some(a))) + rest == [t] + ([TLt] + (a + ([TGt] + rest)))
  {
    assert [t] + [] == [t];
    Regroup4([t], [TLt], a, [TGt], rest);
  }

  /** A type is read up to the end of its text, or to the end of input for an element type that does not end. */
  lemma {:induction false} TypeAccepted(names: set<string>, ts: Input) returns (t: SType)
    requires ParseType(names, ts).Ok?
    ensures var (ty, rest) := ParseType(names, ts).value;
      TypeFits(names, t) && TokType(names, t.tok) == Some(ty) && (ts == TypeText(t) + rest || rest == [])
  {
    hide SkipUntilGt, TypeText;
    var rest := ParseType(names, ts).value.1;
    t := SType(Peek(ts), None);
    TypeTextOf(Peek(ts), [], rest);
    if Peek(ts) == TKeyword(KTexture2D) && Eats(Rest(ts), TLt) {
      var a := SkippedGt(Rest(Rest(ts)));
      t := SType(Peek(ts), Some(a));
      TypeTextOf(Peek(ts), a, rest);
      TextureAccepted(names, ts, a);
    } else {
      PlainAccepted(names, ts);
    }
  }

  lemma {:induction false} PlainAccepted(names: set<string>, ts: Input)
    requires ParseType(names, ts).Ok? && !(Peek(ts) == TKeyword(KTexture2D) && Eats(Rest(ts), TLt))
    ensures TokType(names, Peek(ts)) == Some(ParseType(names, ts).value.0) && ts == [Peek(ts)] + ParseType(names, ts).value.1
  {
  }

  lemma {:induction false} TextureAccepted(names: set<string>, ts: Input, a: Input)
    requires Peek(ts) == TKeyword(KTexture2D) && Eats(Rest(ts), TLt)
    requires var more := Rest(Rest(ts)); more == a + ([TGt] + SkipUntilGt(more)) || SkipUntilGt(more) == []
    ensures ParseType(names, ts).Ok? && ParseType(names, ts).value.0 == Texture2D
    ensures var rest := ParseType(names, ts).value.1; ts == [Peek(ts)] + ([TLt] + (a + ([TGt] + rest))) || rest == []
  {
    hide SkipUntilGt;
    Uncons(ts, TKeyword(KTexture2D));
    Uncons(Rest(ts), TLt);
  }

  // --- expressions ---

  /** `ts` is the text of an expression of level `k` standing for the result, and what is left. */
  ghost predicate Reads(names: set<string>, e: SExpr, k: nat, ts: Input, r: (Expr, Input)) {
    Fits(names, e, k) && Fits(names, e, 0) && ExprOf(names, e) == r.0 && ts == Text(e) + r.1
  }

  lemma {:induction false} ExprAccepted(names: set<string>, ts: Input) returns (e: SExpr)
    requires ParseExpr(names, ts).Ok?
    ensures Reads(names, e, 0, ts, ParseExpr(names, ts).value)
    decreases |ts|, 20
  {
    hide ParseLevel, Reads;
    e := LevelAccepted(names, 1, ts);
    var (lhs, ts1) := ParseLevel(names, 1, ts).value;
    if AssignOp(Peek(ts1)).Some? {
      var r := ExprAccepted(names, Rest(ts1));
      e := InfixReads(names, e, r, 1, 0, 0, ts, ts1, lhs, ParseExpr(names, Rest(ts1)).value);
    } else {
      Loosened(names, e, 1, 0, ts, (lhs, ts1));
    }
  }

  lemma {:induction false} Loosened(names: set<string>, e: SExpr, k: nat, j: nat, ts: Input, r: (Expr, Input))
    requires Reads(names, e, k, ts, r) && j <= k
    ensures Reads(names, e, j, ts, r)
  {
    Looser(names, e, k, j);
  }

  /** Two operands and the operator between them. */
  lemma {:induction false} InfixReads(
    names: set<string>, l: SExpr, r: SExpr, lk: nat, rk: nat, k: nat, ts: Input, ts1: Input, lhs: Expr, rhs: (Expr, Input))
    returns (e: SExpr)
    requires Reads(names, l, lk, ts, (lhs, ts1)) && Reads(names, r, rk, Rest(ts1), rhs)
    requires (AssignOp(Peek(ts1)).Some? && lk == 1 && rk == 0 && k == 0)
          || (AssignOp(Peek(ts1)).None? && InfixOp(Peek(ts1)).Some? && InfixOp(Peek(ts1)).value.1 == lk == k && rk == lk + 1)
    ensures var op := if k == 0 then AssignOp(Peek(ts1)).value else InfixOp(Peek(ts1)).value.0;
      Reads(names, e, k, ts, (Binary(op, lhs, rhs.0), rhs.1))
  {
    hide Fits, ExprOf, Text;
    var t := Peek(ts1);
    e := SInfix(l, t, r);
    assert ts1 == [t] + (Text(r) + rhs.1);
    InfixParts(names, l, t, r, lk, rk, k);
    Regroup3(Text(l), [t], Text(r), rhs.1);
  }

  lemma {:induction false} InfixParts(names: set<string>, l: SExpr, t: Tok, r: SExpr, lk: nat, rk: nat, k: nat)
    requires Fits(names, l, lk) && Fits(names, r, rk) && Fits(names, l, 0) && Fits(names, r, 0)
    requires (AssignOp(t).Some? && lk == 1 && rk == 0 && k == 0)
          || (AssignOp(t).None? && InfixOp(t).Some? && InfixOp(t).value.1 == lk == k && rk == lk + 1)
    ensures var e := SInfix(l, t, r); var op := if k == 0 then AssignOp(t).value else InfixOp(t).value.0;
      && Fits(names, e, k) && Fits(names, e, 0) && Text(e) == Text(l) + ([t] + Text(r))
      && ExprOf(names, e) == Binary(op, ExprOf(names, l), ExprOf(names, r))
  {
  }

  lemma {:induction false} LevelAccepted(names: set<string>, level: nat, ts: Input) returns (e: SExpr)
    requires 1 <= level <= 7 && ParseLevel(names, level, ts).Ok?
    ensures Reads(names, e, level, ts, ParseLevel(names, level, ts).value)
    decreases |ts|, 18 - level
  {
    hide ParseUnary, ParseMore, Reads;
    if level == 7 {
      e := UnaryAccepted(names, ts);
    } else {
      e := LevelAccepted(names, level + 1, ts);
      var (lhs, ts1) := ParseLevel(names, level + 1, ts).value;
      Loosened(names, e, level + 1, level, ts, (lhs, ts1));
      e := MoreAccepted(names, level, e, lhs, ts, ts1);
    }
  }

  lemma {:induction false} MoreAccepted(names: set<string>, level: nat, l: SExpr, lhs: Expr, ts: Input, ts1: Input)
    returns (e: SExpr)
    requires 1 <= level <= 6 && Reads(names, l, level, ts, (lhs, ts1)) && ParseMore(names, level, lhs, ts1).Ok? && |ts1| < |ts|
    ensures Reads(names, e, level, ts, ParseMore(names, level, lhs, ts1).value)
    decreases |ts1|, 19
  {
    hide ParseLevel, Reads;
    e := l;
    if InfixOp(Peek(ts1)).Some? && InfixOp(Peek(ts1)).value.1 == level {
      var r := LevelAccepted(names, level + 1, Rest(ts1));
      var (rhs, ts2) := ParseLevel(names, level + 1, Rest(ts1)).value;
      NoAssign(Peek(ts1));
      e := InfixReads(names, l, r, level, level + 1, level, ts, ts1, lhs, (rhs, ts2));
      e := MoreAccepted(names, level, e, Binary(InfixOp(Peek(ts1)).value.0, lhs, rhs), ts, ts2);
    }
  }

  lemma {:induction false} NoAssign(t: Tok)
    ensures InfixOp(t).Some? ==> AssignOp(t).None?
  {
  }

  lemma {:induction false} UnaryAccepted(names: set<string>, ts: Input) returns (e: SExpr)
    requires ParseUnary(names, ts).Ok?
    ensures Reads(names, e, 7, ts, ParseUnary(names, ts).value)
    decreases |ts|, 10
  {
    hide ParsePrimary, ParseMembers, Reads;
    if PrefixOp(Peek(ts)).Some? {
      var x := UnaryAccepted(names, Rest(ts));
      e := SPrefix(Peek(ts), x);
      PrefixReads(names, x, ts, ParseUnary(names, Rest(ts)).value);
    } else {
      e := PrimaryAccepted(names, ts);
      var (x, ts1) := ParsePrimary(names, ts).value;
      Loosened(names, e, 9, 8, ts, (x, ts1));
      e := MembersAccepted(names, e, x, ts, ts1);
      Loosened(names, e, 8, 7, ts, ParseMembers(names, x, ts1).value);
    }
  }

  lemma {:induction false} PrefixReads(names: set<string>, x: SExpr, ts: Input, r: (Expr, Input))
    requires PrefixOp(Peek(ts)).Some? && Reads(names, x, 7, Rest(ts), r)
    ensures Reads(names, SPrefix(Peek(ts), x), 7, ts, (Unary(PrefixOp(Peek(ts)).value, r.0), r.1))
  {
    assert ts == [Peek(ts)] + Rest(ts);
    assert ([Peek(ts)] + Text(x)) + r.1 == [Peek(ts)] + (Text(x) + r.1);
  }

  lemma {:induction false} MembersAccepted(names: set<string>, b: SExpr, base: Expr, ts: Input, ts1: Input) returns (e: SExpr)
    requires Reads(names, b, 8, ts, (base, ts1)) && ParseMembers(names, base, ts1).Ok? && |ts1| < |ts|
    ensures Reads(names, e, 8, ts, ParseMembers(names, base, ts1).value)
    decreases |ts1|, 7
  {
    hide ParseArgs, Reads;
    e := b;
    if Peek(ts1) == Dot {
      var (member, ts2) := ExpectIdent(Rest(ts1)).value;
      if Eats(ts2, LParen) {
        var args := ArgsAccepted(names, Rest(ts2));
        var (es, ts3) := ParseArgs(names, Rest(ts2)).value;
        e := SMethod(b, member, args);
        MethodReads(names, b, base, member, args, es, ts, ts1, ts2, ts3);
        e := MembersAccepted(names, e, MethodCall(base, member, es), ts, Rest(ts3));
      } else {
        e := SMember(b, member);
        MemberReads(names, b, base, member, ts, ts1, ts2);
        e := MembersAccepted(names, e, Member(base, member), ts, ts2);
      }
    }
  }

  lemma {:induction false} MemberReads(
    names: set<string>, b: SExpr, base: Expr, member: string, ts: Input, ts1: Input, ts2: Input)
    requires Reads(names, b, 8, ts, (base, ts1)) && Peek(ts1) == Dot && ExpectIdent(Rest(ts1)) == Ok((member, ts2))
    ensures Reads(names, SMember(b, member), 8, ts, (Member(base, member), ts2))
  {
    Uncons(ts1, Dot);
    Uncons(Rest(ts1), TIdent(member));
    Regroup3(Text(b), [Dot], [TIdent(member)], ts2);
  }

  lemma {:induction false} MethodReads(
    names: set<string>, b: SExpr, base: Expr, member: string, args: seq<SExpr>, es: seq<Expr>,
    ts: Input, ts1: Input, ts2: Input, ts3: Input)
    requires Reads(names, b, 8, ts, (base, ts1)) && Peek(ts1) == Dot && ExpectIdent(Rest(ts1)) == Ok((member, ts2))
    requires Eats(ts2, LParen) && Eats(ts3, RParen)
    requires AllFit(names, args) && ArgsOf(names, args) == es && Rest(ts2) == ArgsText(args) + ts3
    ensures Reads(names, SMethod(b, member, args), 8, ts, (MethodCall(base, member, es), Rest(ts3)))
  {
    MethodText(b, member, args);
    MethodMeans(names, b, member, args);
    hide Fits, ExprOf, Text, ArgsText, AllFit, ArgsOf;
    var a, rest := ArgsText(args), Rest(ts3);
    Uncons(ts3, RParen);
    Uncons(ts2, LParen);
    Uncons(Rest(ts1), TIdent(member));
    Uncons(ts1, Dot);
    hide Rest;
    Regroup6(Text(b), [Dot], [TIdent(member)], [LParen], a, [RParen], rest);
  }

  lemma {:induction false} MethodText(b: SExpr, m: string, args: seq<SExpr>)
    ensures Text(SMethod(b, m, args)) == Text(b) + ([Dot] + ([TIdent(m)] + ([LParen] + (ArgsText(args) + [RParen]))))
  {
  }

  lemma {:induction false} MethodMeans(names: set<string>, b: SExpr, m: string, args: seq<SExpr>)
    requires Fits(names, b, 8) && Fits(names, b, 0) && AllFit(names, args)
    ensures var e := SMethod(b, m, args);
      && Fits(names, e, 8) && Fits(names, e, 0) && ExprOf(names, e) == MethodCall(ExprOf(names, b), m, ArgsOf(names, args))
  {
  }

  lemma {:induction false} ArgsAccepted(names: set<string>, ts: Input) returns (args: seq<SExpr>)
    requires ParseArgs(names, ts).Ok?
    ensures var (es, rest) := ParseArgs(names, ts).value;
      AllFit(names, args) && ArgsOf(names, args) == es && ts == ArgsText(args) + rest
    decreases |ts|, 22
  {
    hide ParseArgList;
    args := [];
    if Peek(ts) != RParen {
      args := ArgListAccepted(names, ts);
    }
  }

  lemma {:induction false} ArgListAccepted(names: set<string>, ts: Input) returns (args: seq<SExpr>)
    requires ParseArgList(names, ts).Ok?
    ensures var (es, rest) := ParseArgList(names, ts).value;
      args != [] && AllFit(names, args) && ArgsOf(names, args) == es && ts == ArgsText(args) + rest
    decreases |ts|, 21
  {
    hide ParseExpr, Fits, ExprOf, Text;
    var e := ExprAccepted(names, ts);
    var (x, ts1) := ParseExpr(names, ts).value;
    if Eats(ts1, Comma) {
      var more := ArgListAccepted(names, Rest(ts1));
      var (es, rest) := ParseArgList(names, Rest(ts1)).value;
      args := [e] + more;
      assert args[1..] == more && ts1 == [Comma] + Rest(ts1);
      Regroup3(Text(e), [Comma], ArgsText(more), rest);
    } else {
      args := [e];
      assert args[1..] == [];
    }
  }

  lemma {:induction false} InnerAccepted(names: set<string>, ts: Input) returns (e: SExpr)
    requires ParseInner(names, ts).Ok?
    ensures var (x, rest) := ParseInner(names, ts).value;
      Fits(names, e, 0) && ExprOf(names, e) == x && ts == Text(e) + ([RParen] + rest)
    decreases |ts|, 21
  {
    hide ParseExpr, Fits, ExprOf, Text;
    e := ExprAccepted(names, ts);
    var (x, ts1) := ParseExpr(names, ts).value;
    assert ts1 == [RParen] + Rest(ts1);
  }

  lemma {:induction false} PrimaryAccepted(names: set<string>, ts: Input) returns (e: SExpr)
    requires ParsePrimary(names, ts).Ok?
    ensures Reads(names, e, 9, ts, ParsePrimary(names, ts).value)
    decreases |ts|, 8
  {
    hide ParseArgs, ParseInner, ParseUnary, ParseType, Reads;
    if Peek(ts) == LParen {
      e := ParenAccepted(names, ts);
    } else if Peek(ts).TIdent? && Eats(Rest(ts), LParen) {
      var args := ArgsAccepted(names, Rest(Rest(ts)));
      var (es, ts1) := ParseArgs(names, Rest(Rest(ts))).value;
      e := SCall(Peek(ts).s, args);
      CallReads(names, Peek(ts).s, args, es, ts, ts1);
    } else if Peek(ts).TIdent? {
      e := SName(Peek(ts).s);
      NameReads(names, ts);
    } else {
      e := SLit(Peek(ts));
      LitReads(names, ts);
    }
  }

  lemma {:induction false} NameReads(names: set<string>, ts: Input)
    requires Peek(ts).TIdent?
    ensures Reads(names, SName(Peek(ts).s), 9, ts, (Ident(Peek(ts).s), Rest(ts)))
  {
    assert ts == [Peek(ts)] + Rest(ts);
  }

  lemma {:induction false} LitReads(names: set<string>, ts: Input)
    requires LitOf(Peek(ts)).Some?
    ensures Reads(names, SLit(Peek(ts)), 9, ts, (Lit(LitOf(Peek(ts)).value), Rest(ts)))
  {
    assert ts == [Peek(ts)] + Rest(ts);
  }

  lemma {:induction false} CallReads(names: set<string>, s: string, args: seq<SExpr>, es: seq<Expr>, ts: Input, ts1: Input)
    requires Peek(ts) == TIdent(s) && Eats(Rest(ts), LParen) && Eats(ts1, RParen)
    requires AllFit(names, args) && ArgsOf(names, args) == es && Rest(Rest(ts)) == ArgsText(args) + ts1
    ensures Reads(names, SCall(s, args), 9, ts,
                  (if DecodeTypeWord(s).Some? then Construct(DecodeTypeWord(s).value, es) else Call(s, es), Rest(ts1)))
  {
    CallMeans(names, s, args);
    hide ArgsText, AllFit, ArgsOf, Fits, ExprOf, Text, DecodeTypeWord;
    var a, rest := ArgsText(args), Rest(ts1);
    Uncons(ts1, RParen);
    Uncons(Rest(ts), LParen);
    Uncons(ts, TIdent(s));
    hide Rest;
    Regroup4([TIdent(s)], [LParen], a, [RParen], rest);
  }

  lemma {:induction false} CallMeans(names: set<string>, s: string, args: seq<SExpr>)
    requires AllFit(names, args)
    ensures var e := SCall(s, args);
      && Fits(names, e, 9) && Fits(names, e, 0) && Text(e) == [TIdent(s)] + ([LParen] + (ArgsText(args) + [RParen]))
      && ExprOf(names, e) == if DecodeTypeWord(s).Some? then Construct(DecodeTypeWord(s).value, ArgsOf(names, args))
                             else Call(s, ArgsOf(names, args))
  {
  }

  /** A parenthesis: a cast, an expression, or an expression behind a type that is lost. */
  lemma {:induction false} ParenAccepted(names: set<string>, ts: Input) returns (e: SExpr)
    requires ParsePrimary(names, ts).Ok? && Peek(ts) == LParen
    ensures Reads(names, e, 9, ts, ParsePrimary(names, ts).value)
    decreases |ts|, 6
  {
    hide ParseArgs, ParseInner, ParseUnary, ParseType, Reads, Fits, ExprOf, Text, IsTypeTok;
    assert ts == [LParen] + Rest(ts);
    if IsTypeTok(names, Peek(Rest(ts))) {
      var t := TypeAccepted(names, Rest(ts));
      var (ty, ts1) := ParseType(names, Rest(ts)).value;
      NothingParses(names);
      if Eats(ts1, RParen) {
        var x := UnaryAccepted(names, Rest(ts1));
        e := SCast(t, x);
        CastReads(names, t, ty, x, ts, ts1, ParseUnary(names, Rest(ts1)).value);
      } else {
        var x := InnerAccepted(names, ts1);
        e := SParen(Some(t), x);
        ParenReads(names, Some(t), x, ts, ts1, ParseInner(names, ts1).value);
      }
    } else {
      var x := InnerAccepted(names, Rest(ts));
      e := SParen(None, x);
      ParenReads(names, None, x, ts, Rest(ts), ParseInner(names, Rest(ts)).value);
    }
  }

  lemma {:induction false} NothingParses(names: set<string>)
    ensures ParseInner(names, []).Err?
  {
    hide ParseLevel;
  }

  lemma {:induction false} CastReads(
    names: set<string>, t: SType, ty: Type, x: SExpr, ts: Input, ts1: Input, r: (Expr, Input))
    requires TypeFits(names, t) && TokType(names, t.tok) == Some(ty) && Reads(names, x, 7, Rest(ts1), r)
    requires ts == [LParen] + (TypeText(t) + ts1) && Eats(ts1, RParen)
    ensures Reads(names, SCast(t, x), 9, ts, (Cast(ty, r.0), r.1))
  {
    CastMeans(names, t, x);
    hide Fits, ExprOf, Text, TypeText, TypeFits, TokType;
    assert ts1 == [RParen] + Rest(ts1);
    Regroup4([LParen], TypeText(t), [RParen], Text(x), r.1);
  }

  lemma {:induction false} CastMeans(names: set<string>, t: SType, x: SExpr)
    requires TypeFits(names, t) && Fits(names, x, 7) && Fits(names, x, 0)
    ensures var e := SCast(t, x);
      && Fits(names, e, 9) && Fits(names, e, 0) && Text(e) == [LParen] + (TypeText(t) + ([RParen] + Text(x)))
      && ExprOf(names, e) == Cast(TokType(names, t.tok).value, ExprOf(names, x))
  {
  }

  lemma {:induction false} ParenReads(
    names: set<string>, lost: Option<SType>, x: SExpr, ts: Input, ts1: Input, r: (Expr, Input))
    requires (lost.Some? ==> TypeFits(names, lost.value)) && Fits(names, x, 0) && ExprOf(names, x) == r.0
    requires ts1 == Text(x) + ([RParen] + r.1)
    requires ts == [LParen] + ((match lost { case Some(t) => TypeText(t) case None => [] }) + ts1)
    ensures Reads(names, SParen(lost, x), 9, ts, r)
  {
    var a: Input := match lost { case Some(t) => TypeText(t) case None => [] };
    ParenMeans(names, lost, x);
    hide Fits, ExprOf, Text, TypeText, TypeFits;
    Regroup4([LParen], a, Text(x), [RParen], r.1);
  }

  lemma {:induction false} ParenMeans(names: set<string>, lost: Option<SType>, x: SExpr)
    requires (lost.Some? ==> TypeFits(names, lost.value)) && Fits(names, x, 0)
    ensures var e := SParen(lost, x);
      && Fits(names, e, 9) && Fits(names, e, 0) && ExprOf(names, e) == ExprOf(names, x)
      && Text(e) == [LParen] + ((match lost { case Some(t) => TypeText(t) case None => [] }) + (Text(x) + [RParen]))
  {
  }
}
