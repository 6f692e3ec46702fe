/** Parsing undoes printing. */
module RoundTrip {
  import opened Wrappers
  import opened Ast
  import opened Tokens
  import opened Grammar
  import opened Printer

  /** The token does not continue an expression of level `k`. */
  predicate Stop(k: nat, t: Tok) {
    && t !in {Dot, LParen} && (k == 0 ==> AssignOp(t).None?)
    && (InfixOp(t).Some? ==> InfixOp(t).value.1 < k)
  }

  /** The production for level `k`: 0 assignment, 1 to 6 infix, 7 prefix, 8 postfix. */
  function ParseAt(names: set<string>, k: nat, ts: Input): Result<(Expr, Input)>
    requires k <= 8
  {
    if k == 0 then ParseExpr(names, ts)
    else if k <= 7 then ParseLevel(names, k, ts)
    else ParsePostfix(names, ts)
  }

  // --- first tokens ---

  /** Tokens an expression can start with. */
  predicate Starts(t: Tok) {
    t.TIdent? || t.TInt? || t.TUint? || t.TFloat? || t.TBool? || t == LParen || PrefixOp(t).Some?
  }

  lemma {:induction false} FirstBare(names: set<string>, e: Expr)
    requires Printable(names, e)
    ensures Starts(Bare(e)[0]) && (Level(e) >= 8 ==> PrefixOp(Bare(e)[0]).None?)
    decreases e, 0
  {
    match e
    case MethodCall(base, _, _) => FirstPrint(names, base, 8);
    case Member(base, _) => FirstPrint(names, base, 8);
    case Binary(op, lhs, _) => FirstPrint(names, lhs, if Level(e) == 0 then 1 else Level(e));
    case _ =>
  }

  lemma {:induction false} FirstPrint(names: set<string>, e: Expr, k: nat)
    requires Printable(names, e)
    ensures Starts(Print(e, k)[0]) && (k >= 8 ==> PrefixOp(Print(e, k)[0]).None?)
    decreases e, 1
  {
    FirstBare(names, e);
  }

  lemma {:induction false} PeekAppend(a: Input, b: Input)
    requires a != []
    ensures Peek(a + b) == a[0] && Rest(a + b) == a[1..] + b
  {
  }

  /** The first token is no type, or the second no identifier. */
  predicate Undeclaring(names: set<string>, ts: Input) {
    !IsTypeTok(names, Peek(ts)) || !Peek(Rest(ts)).TIdent?
  }

  /** An expression is never mistaken for a declaration. */
  lemma {:induction false} NotDecl(names: set<string>, e: Expr, k: nat, rest: Input)
    requires Printable(names, e) && !Peek(rest).TIdent?
    ensures Undeclaring(names, Print(e, k) + rest)
    decreases e, 1
  {
    if k <= Level(e) {
      NotDeclBare(names, e, rest);
    } else {
      assert (Print(e, k) + rest)[0] == LParen;
    }
  }

  lemma {:induction false} NotDeclBare(names: set<string>, e: Expr, rest: Input)
    requires Printable(names, e) && !Peek(rest).TIdent?
    ensures Undeclaring(names, Bare(e) + rest)
    decreases e, 0
  {
    hide IsTypeTok, TypeOk, PrintArgs, TypeTok;
    var ts := Bare(e) + rest;
    match e
    case Lit(lit) => LiteralNoType(names, lit);
    case Ident(_) => PeekAppend(Bare(e), rest);
    case Construct(_, _) => assert ts[1] == LParen;
    case Call(_, _) => assert ts[1] == LParen;
    case MethodCall(base, callee, args) =>
      var more := [Dot, TIdent(callee), LParen] + PrintArgs(args) + [RParen];
      NotDecl(names, base, 8, more + rest);
      assert ts == Print(base, 8) + (more + rest);
    case Member(base, member) =>
      NotDecl(names, base, 8, [Dot, TIdent(member)] + rest);
      assert ts == Print(base, 8) + ([Dot, TIdent(member)] + rest);
    case Unary(op, _) =>
      assert ts[0] == PrefixTok(op);
      PrefixNoType(names, op);
    case Cast(_, _) =>
      assert ts[0] == LParen;
      PrefixNoType(names, Neg);
    case Binary(_, _, _) => NotDeclBinary(names, e, rest);
  }

  lemma {:induction false} NotDeclBinary(names: set<string>, e: Expr, rest: Input)
    requires e.Binary? && Printable(names, e) && !Peek(rest).TIdent?
    ensures Undeclaring(names, Bare(e) + rest)
    decreases e, 0, 0
  {
    hide IsTypeTok, Print;
    var l := Level(e);
    var t := if l == 0 then AssignTok(e.op).value else InfixTok(e.op).value.0;
    var more := [t] + Print(e.rhs, if l == 0 then 0 else l + 1);
    var k := if l == 0 then 1 else l;
    NotDecl(names, e.lhs, k, more + rest);
    assert Bare(e) + rest == Print(e.lhs, k) + (more + rest);
  }

  lemma {:induction false} PrefixNoType(names: set<string>, op: UnaryOp)
    ensures !IsTypeTok(names, PrefixTok(op)) && !IsTypeTok(names, LParen)
  {
  }

  lemma {:induction false} LiteralNoType(names: set<string>, lit: Literal)
    ensures !IsTypeTok(names, LitTok(lit))
  {
  }

  // --- from tighter to looser levels ---

  /** What one level parses, the next looser one parses too, if the next token stops it. */
  lemma {:induction false} LiftOne(names: set<string>, j: nat, ts: Input, e: Expr, rest: Input)
    requires 1 <= j <= 8 && ParseAt(names, j, ts) == Ok((e, rest)) && Stop(j - 1, Peek(rest))
    requires j == 8 ==> PrefixOp(Peek(ts)).None?
    ensures ParseAt(names, j - 1, ts) == Ok((e, rest))
  {
    hide ParsePrimary, ParsePostfix, ParseMembers, ParseArgs;
    if j == 8 {
      hide ParseLevel;
      assert ParseUnary(names, ts) == ParsePostfix(names, ts);
      LevelSeven(names, ts);
    } else if j >= 2 {
      assert ParseMore(names, j - 1, e, rest) == Ok((e, rest));
    }
  }

  lemma {:induction false} LevelSeven(names: set<string>, ts: Input)
    ensures ParseLevel(names, 7, ts) == ParseUnary(names, ts)
  {
  }

  lemma {:induction false} Lift(names: set<string>, j: nat, k: nat, ts: Input, e: Expr, rest: Input)
    requires k <= j <= 8 && ParseAt(names, j, ts) == Ok((e, rest)) && Stop(k, Peek(rest))
    requires j == 8 && k < 8 ==> PrefixOp(Peek(ts)).None?
    ensures ParseAt(names, k, ts) == Ok((e, rest))
    decreases j
  {
    hide ParseAt;
    if k < j {
      LiftOne(names, j, ts, e, rest);
      Lift(names, j - 1, k, ts, e, rest);
    }
  }

  // --- primaries ---

  /** Expressions that one primary production reads: leaves, calls, and anything in parentheses. */
  lemma {:induction false} PrimaryTrip(names: set<string>, e: Expr, rest: Input)
    requires Printable(names, e) && ParenOk(names, e, 8) && Level(e) != 8 && Peek(rest) != LParen
    ensures ParsePrimary(names, Print(e, 8) + rest) == Ok((e, rest))
    decreases e, 2
  {
    if Level(e) == 9 {
      LeafTrip(names, e, rest);
    } else {
      hide Print, Printable, Level, IsTypeTok, Bare, ParseExpr, ParseUnary, ParseType;
      ParenTokens(e, rest);
      var inner := Bare(e) + ([RParen] + rest);
      PeekAppend(Bare(e), [RParen] + rest);
      Cons(LParen, inner);
      Cons(RParen, rest);
      LooseTrip(names, e, 0, [RParen] + rest);
      ExprAt(names, inner);
      assert ParseInner(names, inner) == Ok((e, rest));
    }
  }

  lemma {:induction false} ParenTokens(e: Expr, rest: Input)
    requires Level(e) < 8
    ensures Print(e, 8) + rest == [LParen] + (Bare(e) + ([RParen] + rest))
  {
    hide Bare;
  }

  lemma {:induction false} Cons(t: Tok, rest: Input)
    ensures Peek([t] + rest) == t && Rest([t] + rest) == rest
  {
  }

  lemma {:induction false} LeafTrip(names: set<string>, e: Expr, rest: Input)
    requires Printable(names, e) && Level(e) == 9 && Peek(rest) != LParen
    ensures ParsePrimary(names, Print(e, 8) + rest) == Ok((e, rest))
    decreases e, 1
  {
    hide ParseExpr, ParseArgs, ParseInner, ParseUnary, ParseType, PrintArgs;
    match e
    case Lit(lit) => Cons(LitTok(lit), rest);
    case Ident(name) => Cons(TIdent(name), rest);
    case Construct(ty, args) =>
      TypeTokRead(names, ty, [LParen]);
      CallTrip(names, TypeTok(ty), args, rest);
    case Call(name, args) => CallTrip(names, TIdent(name), args, rest);
  }

  /** A name with its arguments. */
  lemma {:induction false} CallTrip(names: set<string>, name: Tok, args: seq<Expr>, rest: Input)
    requires name.TIdent? && PrintableArgs(names, args)
    ensures var ts := [name, LParen] + PrintArgs(args) + [RParen] + rest;
      ParsePrimary(names, ts) ==
        Ok((if DecodeTypeWord(name.s).Some? then Construct(DecodeTypeWord(name.s).value, args) else Call(name.s, args), rest))
    decreases args, 5
  {
    var ts := [name, LParen] + PrintArgs(args) + [RParen] + rest;
    var tail := PrintArgs(args) + ([RParen] + rest);
    assert ts == [name] + ([LParen] + tail);
    ArgsTrip(names, args, [RParen] + rest);
  }

  lemma {:induction false} ArgsTrip(names: set<string>, args: seq<Expr>, rest: Input)
    requires PrintableArgs(names, args) && Peek(rest) == RParen
    ensures ParseArgs(names, PrintArgs(args) + rest) == Ok((args, rest))
    decreases args, 4
  {
    if args == [] {
      assert PrintArgs(args) + rest == rest;
    } else {
      FirstPrint(names, args[0], 0);
      ArgListTrip(names, args, rest);
      PeekAppend(PrintArgs(args), rest);
    }
  }

  lemma {:induction false} ArgListTrip(names: set<string>, args: seq<Expr>, rest: Input)
    requires args != [] && PrintableArgs(names, args) && Peek(rest) == RParen
    ensures PrintArgs(args) != [] && PrintArgs(args)[0] == Print(args[0], 0)[0]
    ensures ParseArgList(names, PrintArgs(args) + rest) == Ok((args, rest))
    decreases args, 3
  {
    hide ParseExpr, Print, Printable;
    var e := args[0];
    if |args| == 1 {
      PrintTrip(names, e, 0, rest);
      ExprAt(names, PrintArgs(args) + rest);
      assert [e] == args;
    } else {
      var more := PrintArgs(args[1..]) + rest;
      PrintTrip(names, e, 0, [Comma] + more);
      assert PrintArgs(args) + rest == Print(e, 0) + ([Comma] + more);
      ExprAt(names, PrintArgs(args) + rest);
      assert Rest([Comma] + more) == more;
      ArgListTrip(names, args[1..], rest);
      assert [e] + args[1..] == args;
    }
  }

  lemma {:induction false} ExprAt(names: set<string>, ts: Input)
    ensures ParseAt(names, 0, ts) == ParseExpr(names, ts)
  {
  }

  // --- chains ---

  /** A postfix expression is read up to its last member access, and then goes on with whatever follows. */
  lemma {:induction false} MemberChain(names: set<string>, e: Expr, tail: Input)
    requires Printable(names, e) && ParenOk(names, e, 8) && Peek(tail) != LParen
    ensures ParsePostfix(names, Print(e, 8) + tail) == ParseMembers(names, e, tail)
    decreases e, 3
  {
    if Level(e) != 8 {
      PrimaryTrip(names, e, tail);
    } else if e.Member? {
      MemberLink(names, e, tail);
    } else {
      MethodLink(names, e, tail);
    }
  }

  lemma {:induction false} MemberLink(names: set<string>, e: Expr, tail: Input)
    requires e.Member? && Printable(names, e) && Peek(tail) != LParen
    ensures ParsePostfix(names, Print(e, 8) + tail) == ParseMembers(names, e, tail)
    decreases e, 0
  {
    hide Print, ParsePrimary, ParseArgs, IsTypeTok, ParsePostfix, Level;
    MemberTokens(e, tail);
    var more := [TIdent(e.member)] + tail;
    Cons(Dot, more);
    Cons(TIdent(e.member), tail);
    MemberChain(names, e.base, [Dot] + more);
  }

  lemma {:induction false} MethodLink(names: set<string>, e: Expr, tail: Input)
    requires e.MethodCall? && Printable(names, e)
    ensures ParsePostfix(names, Print(e, 8) + tail) == ParseMembers(names, e, tail)
    decreases e, 0
  {
    hide Print, ParsePrimary, ParseArgs, IsTypeTok, ParsePostfix, Level;
    MethodTokens(e, tail);
    var args := PrintArgs(e.args) + ([RParen] + tail);
    Cons(Dot, [TIdent(e.callee)] + ([LParen] + args));
    Cons(TIdent(e.callee), [LParen] + args);
    Cons(LParen, args);
    Cons(RParen, tail);
    MemberChain(names, e.base, [Dot] + ([TIdent(e.callee)] + ([LParen] + args)));
    ArgsTrip(names, e.args, [RParen] + tail);
  }

  lemma {:induction false} MemberTokens(e: Expr, tail: Input)
    requires e.Member?
    ensures Print(e, 8) + tail == Print(e.base, 8) + ([Dot] + ([TIdent(e.member)] + tail))
  {
    var b := Print(e.base, 8);
    assert Print(e, 8) == b + [Dot, TIdent(e.member)];
    hide Print;
    assert b + [Dot, TIdent(e.member)] + tail == b + ([Dot] + ([TIdent(e.member)] + tail));
  }

  lemma {:induction false} MethodTokens(e: Expr, tail: Input)
    requires e.MethodCall?
    ensures Print(e, 8) + tail
         == Print(e.base, 8) + ([Dot] + ([TIdent(e.callee)] + ([LParen] + (PrintArgs(e.args) + ([RParen] + tail)))))
  {
    var b, a := Print(e.base, 8), PrintArgs(e.args);
    assert Print(e, 8) == b + ([Dot, TIdent(e.callee), LParen] + a + [RParen]);
    hide Print, PrintArgs;
    assert b + ([Dot, TIdent(e.callee), LParen] + a + [RParen]) + tail
        == b + ([Dot] + ([TIdent(e.callee)] + ([LParen] + (a + ([RParen] + tail)))));
  }

  /** A left-associative chain of one level likewise. */
  lemma {:induction false} InfixChain(names: set<string>, e: Expr, l: nat, tail: Input)
    requires 1 <= l <= 6 && Printable(names, e) && ParenOk(names, e, l) && Stop(l + 1, Peek(tail))
    ensures ParseLevel(names, l, Print(e, l) + tail) == ParseMore(names, l, e, tail)
    decreases e, 6
  {
    hide Printable, IsTypeTok, Bare, ParseMore;
    if Level(e) == l {
      InfixChainSame(names, e, tail);
    } else {
      assert Print(e, l) == Print(e, l + 1);
      hide Print;
      PrintTrip(names, e, l + 1, tail);
      assert ParseAt(names, l + 1, Print(e, l) + tail) == ParseLevel(names, l + 1, Print(e, l) + tail);
    }
  }

  lemma {:induction false} InfixChainSame(names: set<string>, e: Expr, tail: Input)
    requires 1 <= Level(e) <= 6 && Printable(names, e) && Stop(Level(e) + 1, Peek(tail))
    ensures ParseLevel(names, Level(e), Bare(e) + tail) == ParseMore(names, Level(e), e, tail)
    decreases e, 0
  {
    var l := Level(e);
    var t := InfixTok(e.op).value.0;
    var more := Print(e.rhs, l + 1) + tail;
    InfixTokens(e, tail);
    hide Print, Bare, IsTypeTok;
    Cons(t, more);
    InfixChain(names, e.lhs, l, [t] + more);
    PrintTrip(names, e.rhs, l + 1, tail);
    assert ParseAt(names, l + 1, more) == ParseLevel(names, l + 1, more);
  }

  lemma {:induction false} InfixTokens(e: Expr, tail: Input)
    requires 1 <= Level(e) <= 6
    ensures var l := Level(e);
      Bare(e) + tail == Print(e.lhs, l) + ([InfixTok(e.op).value.0] + (Print(e.rhs, l + 1) + tail))
  {
    hide Print;
  }

  lemma {:induction false} AssignTokens(e: Expr, tail: Input)
    requires Level(e) == 0
    ensures Bare(e) + tail == Print(e.lhs, 1) + ([AssignTok(e.op).value] + (Print(e.rhs, 0) + tail))
  {
    hide Print;
  }

  // --- the theorem for expressions ---

  /** Printed without outer parentheses, where a level it binds at least as tightly as is expected. */
  lemma {:induction false} BareTrip(names: set<string>, e: Expr, k: nat, rest: Input)
    requires Printable(names, e) && k <= Level(e) && k <= 8 && Stop(k, Peek(rest))
    ensures ParseAt(names, k, Bare(e) + rest) == Ok((e, rest))
    decreases e, 4
  {
    if Level(e) < 8 {
      LooseTrip(names, e, k, rest);
    } else {
      hide Printable, Level;
      var ts := Bare(e) + rest;
      FirstBare(names, e);
      PeekAppend(Bare(e), rest);
      MemberChain(names, e, rest);
      NoMembers(names, e, rest);
      assert ParseAt(names, 8, ts) == ParsePostfix(names, ts);
      Lift(names, 8, k, ts, e, rest);
    }
  }

  lemma {:induction false} NoMembers(names: set<string>, e: Expr, rest: Input)
    requires Peek(rest) != Dot
    ensures ParseMembers(names, e, rest) == Ok((e, rest))
  {
  }

  /** The same for what binds less tightly than member access. */
  lemma {:induction false} LooseTrip(names: set<string>, e: Expr, k: nat, rest: Input)
    requires Printable(names, e) && k <= Level(e) < 8 && Stop(k, Peek(rest))
    ensures ParseAt(names, k, Bare(e) + rest) == Ok((e, rest))
    decreases e, 1
  {
    hide ParseExpr, ParseLevel, ParseMore;
    var ts := Bare(e) + rest;
    if Level(e) == 7 {
      hide ParseUnary;
      PrefixTrip(names, e, rest);
      LevelSeven(names, ts);
      assert ParseAt(names, 7, ts) == ParseUnary(names, ts);
      Lift(names, 7, k, ts, e, rest);
    } else if Level(e) >= 1 {
      InfixChainSame(names, e, rest);
      NoMore(names, Level(e), e, rest);
      assert ParseAt(names, Level(e), ts) == ParseLevel(names, Level(e), ts);
      Lift(names, Level(e), k, ts, e, rest);
    } else {
      AssignTrip(names, e, rest);
      ExprAt(names, ts);
    }
  }

  lemma {:induction false} NoMore(names: set<string>, l: nat, e: Expr, rest: Input)
    requires 1 <= l <= 6 && Stop(l, Peek(rest))
    ensures ParseMore(names, l, e, rest) == Ok((e, rest))
  {
  }

  lemma {:induction false} AssignTrip(names: set<string>, e: Expr, rest: Input)
    requires Level(e) == 0 && Printable(names, e) && Stop(0, Peek(rest))
    ensures ParseExpr(names, Bare(e) + rest) == Ok((e, rest))
    decreases e, 0
  {
    hide ParseLevel, Print, Bare, IsTypeTok;
    var t := AssignTok(e.op).value;
    var more := Print(e.rhs, 0) + rest;
    var ts := Bare(e) + rest;
    AssignTokens(e, rest);
    Cons(t, more);
    PrintTrip(names, e.lhs, 1, [t] + more);
    PrintTrip(names, e.rhs, 0, rest);
    ExprAt(names, more);
    assert AssignOp(t) == Some(e.op);
    assert ParseAt(names, 1, ts) == ParseLevel(names, 1, ts);
  }

  lemma {:induction false} PrefixTrip(names: set<string>, e: Expr, rest: Input)
    requires Level(e) == 7 && Printable(names, e) && Stop(7, Peek(rest))
    ensures ParseUnary(names, Bare(e) + rest) == Ok((e, rest))
    decreases e, 0
  {
    if e.Unary? {
      hide ParsePostfix, ParseLevel, ParseMore, ParseExpr, ParseMembers, ParsePrimary;
      var tail := Print(e.expr, 7) + rest;
      PrintTrip(names, e.expr, 7, rest);
      LevelSeven(names, tail);
      assert Bare(e) + rest == [PrefixTok(e.uop)] + tail;
      assert Rest([PrefixTok(e.uop)] + tail) == tail;
    } else {
      CastTrip(names, e.ty, e.expr, rest);
    }
  }

  lemma {:induction false} CastTrip(names: set<string>, ty: Type, x: Expr, rest: Input)
    requires Printable(names, Cast(ty, x)) && Stop(7, Peek(rest))
    ensures ParseUnary(names, Bare(Cast(ty, x)) + rest) == Ok((Cast(ty, x), rest))
    decreases x, 9
  {
    hide ParsePrimary, ParseArgs, ParseInner, ParseLevel, ParseMore, ParseExpr, ParseType, Print, TypeTok, IsTypeTok;
    var tail := Print(x, 7) + rest;
    var ts := Bare(Cast(ty, x)) + rest;
    PrintTrip(names, x, 7, rest);
    LevelSeven(names, tail);
    assert ts == [LParen] + ([TypeTok(ty)] + ([RParen] + tail));
    CastPrimary(names, ty, x, tail, rest);
    NoMembers(names, Cast(ty, x), rest);
    assert ParsePostfix(names, ts) == Ok((Cast(ty, x), rest));
  }

  lemma {:induction false} CastPrimary(names: set<string>, ty: Type, x: Expr, tail: Input, rest: Input)
    requires TypeOk(names, ty) && ParseUnary(names, tail) == Ok((x, rest))
    ensures ParsePrimary(names, [LParen] + ([TypeTok(ty)] + ([RParen] + tail))) == Ok((Cast(ty, x), rest))
  {
    hide ParseUnary, ParseInner, ParseArgs, ParseType, TypeTok, IsTypeTok;
    TypeTokRead(names, ty, [RParen] + tail);
    Cons(LParen, [TypeTok(ty)] + ([RParen] + tail));
    Cons(TypeTok(ty), [RParen] + tail);
    Cons(RParen, tail);
  }

  /** Expressions: for every printable tree, parsing its minimally parenthesised rendering, followed by any token that
      does not continue it, gives back that tree and stops at that token. */
  lemma {:induction false} PrintTrip(names: set<string>, e: Expr, k: nat, rest: Input)
    requires Printable(names, e) && ParenOk(names, e, k) && k <= 8 && Stop(k, Peek(rest))
    ensures ParseAt(names, k, Print(e, k) + rest) == Ok((e, rest))
    decreases e, 5
  {
    if k <= Level(e) {
      BareTrip(names, e, k, rest);
    } else {
      var ts := Print(e, k) + rest;
      assert Print(e, k) == Print(e, 8);
      PrimaryTrip(names, e, rest);
      NoMembers(names, e, rest);
      assert ParsePostfix(names, ts) == Ok((e, rest));
      Lift(names, 8, k, ts, e, rest);
    }
  }
}
