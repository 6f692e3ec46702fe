/** Parsing undoes printing for statements, and the two places where the parser's shortcuts break that law, with
    the exact conditions. */
module StmtRoundTrip {
  import opened Wrappers
  import opened Ast
  import opened Tokens
  import opened Grammar
  import opened Printer
  import opened RoundTrip

  lemma {:induction false} ExprTrip(names: set<string>, e: Expr, rest: Input)
    requires Printable(names, e) && Stop(0, Peek(rest))
    ensures ParseExpr(names, Print(e, 0) + rest) == Ok((e, rest))
    ensures Peek(Print(e, 0) + rest) == Print(e, 0)[0] && Starts(Print(e, 0)[0])
  {
    hide Print, Printable;
    PrintTrip(names, e, 0, rest) by { NoParens(names, e); }
    ExprAt(names, Print(e, 0) + rest);
    FirstPrint(names, e, 0);
    PeekAppend(Print(e, 0), rest);
  }

  lemma {:induction false} NoParens(names: set<string>, e: Expr)
    ensures ParenOk(names, e, 0)
  {
  }

  lemma {:induction false} OptionalTrip(names: set<string>, e: Option<Expr>, rest: Input)
    requires OptionalOk(names, e)
    ensures ParseOptional(names, PrintOptional(e) + rest) == Ok((e, rest))
  {
    hide ParseExpr, Print, Printable;
    var ts := PrintOptional(e) + rest;
    if e.Some? {
      assert ts == Print(e.value, 0) + ([Semicolon] + rest);
      ExprTrip(names, e.value, [Semicolon] + rest);
      assert Rest([Semicolon] + rest) == rest;
    } else {
      assert ts == [Semicolon] + rest;
      assert Rest(ts) == rest;
    }
  }

  lemma {:induction false} DeclTrip(names: set<string>, d: VarDecl, rest: Input)
    requires DeclOk(names, d) && Peek(rest) == Semicolon
    ensures ParseVarDecl(names, PrintDecl(d) + rest) == Ok((d, rest)) && LooksLikeVarDecl(names, PrintDecl(d) + rest)
  {
    hide ParseExpr, Print, Printable, ParseType, IsTypeTok, TypeOk, TypeTok, ParseSemantic, PrintSemantic, Starts;
    var ini := PrintInitial(d.init);
    var tail := PrintSemantic(d.semantic) + (ini + rest);
    var ts := PrintDecl(d) + rest;
    DeclTokens(d, rest);
    TypeTokRead(names, d.ty, [TIdent(d.name)] + tail);
    assert Rest(ts) == [TIdent(d.name)] + tail && Rest([TIdent(d.name)] + tail) == tail;
    if d.init.Some? {
      ExprTrip(names, d.init.value, rest);
      assert ini + rest == [TAssign] + (Print(d.init.value, 0) + rest);
      assert Rest(ini + rest) == Print(d.init.value, 0) + rest;
    } else {
      assert ini + rest == rest;
    }
    SemanticTrip(d.semantic, ini + rest);
  }

  lemma {:induction false} DeclTokens(d: VarDecl, rest: Input)
    ensures PrintDecl(d) + rest == [TypeTok(d.ty)] + ([TIdent(d.name)] + (PrintSemantic(d.semantic) + (PrintInitial(d.init) + rest)))
  {
    hide TypeTok, PrintSemantic, PrintInitial;
  }

  lemma {:induction false} SemanticTrip(semantic: Option<string>, rest: Input)
    requires Peek(rest) != Colon
    ensures ParseSemantic(PrintSemantic(semantic) + rest) == (semantic, rest)
  {
    if semantic.Some? {
      var ts := [Colon, TSemantic(semantic.value)] + rest;
      assert Rest(ts) == [TSemantic(semantic.value)] + rest && Rest(Rest(ts)) == rest;
    } else {
      assert [] + rest == rest;
    }
  }

  /** How a statement's tokens begin, told apart by the parser's first look. */
  lemma {:induction false} SimpleTrip(names: set<string>, s: Stmt, rest: Input)
    requires SimpleOk(names, s) && Peek(rest) == Semicolon
    ensures ParseSimple(names, PrintSimple(s) + rest) == Ok((s, rest))
    ensures PrintSimple(s) != [] && (Starts(PrintSimple(s)[0]) || IsTypeTok(names, PrintSimple(s)[0]))
  {
    hide ParseExpr, Print, Printable, IsTypeTok, ParseVarDecl, PrintDecl;
    match s
    case Decl(d) =>
      DeclTrip(names, d, rest);
      assert PrintDecl(d) != [] && PrintDecl(d)[0] == TypeTok(d.ty) by { FirstDecl(d); }
      PeekAppend(PrintDecl(d), rest);
    case ExprStmt(e) =>
      ExprTrip(names, e, rest);
      NotDecl(names, e, 0, rest);
    case _ =>
  }

  lemma {:induction false} FirstDecl(d: VarDecl)
    ensures PrintDecl(d) != [] && PrintDecl(d)[0] == TypeTok(d.ty)
  {
  }

  /** First tokens of declarations and expressions lead to no other production. */
  lemma {:induction false} Ordinary(names: set<string>, t: Tok)
    requires Starts(t) || IsTypeTok(names, t)
    ensures t !in {Semicolon, RParen, RBrace, LBrace, Eof, TKeyword(KReturn), TKeyword(KIf), TKeyword(KFor)}
  {
  }

  lemma {:induction false} InitTrip(names: set<string>, init: Option<Stmt>, rest: Input)
    requires init.Some? ==> SimpleOk(names, init.value)
    ensures ParseInit(names, PrintInit(init) + rest) == Ok((init, rest))
  {
    hide ParseSimple, PrintSimple, SimpleOk, IsTypeTok;
    var ts := PrintInit(init) + rest;
    if init.Some? {
      assert ts == PrintSimple(init.value) + ([Semicolon] + rest);
      SimpleTrip(names, init.value, [Semicolon] + rest);
      PeekAppend(PrintSimple(init.value), [Semicolon] + rest);
      Ordinary(names, Peek(ts));
      assert Rest([Semicolon] + rest) == rest;
    } else {
      assert ts == [Semicolon] + rest && Rest(ts) == rest;
    }
  }

  lemma {:induction false} UpdateTrip(names: set<string>, e: Option<Expr>, rest: Input)
    requires OptionalOk(names, e) && Peek(rest) == RParen
    ensures ParseUpdate(names, PrintUpdate(e) + rest) == Ok((e, rest))
  {
    hide ParseExpr, Print, Printable;
    if e.Some? {
      ExprTrip(names, e.value, rest);
    } else {
      assert PrintUpdate(e) + rest == rest;
    }
  }

  lemma {:induction false} ClausesTrip(names: set<string>, init: Option<Stmt>, test: Option<Expr>, update: Option<Expr>, rest: Input)
    requires (init.Some? ==> SimpleOk(names, init.value)) && OptionalOk(names, test) && OptionalOk(names, update)
    ensures ParseClauses(names, PrintInit(init) + (PrintOptional(test) + (PrintUpdate(update) + ([RParen] + rest))))
         == Ok((init, test, update, rest))
  {
    hide ParseInit, ParseOptional, ParseUpdate, PrintInit, PrintOptional, PrintUpdate, SimpleOk, OptionalOk;
    var ts3 := PrintUpdate(update) + ([RParen] + rest);
    var ts2 := PrintOptional(test) + ts3;
    InitTrip(names, init, ts2);
    OptionalTrip(names, test, ts3);
    UpdateTrip(names, update, [RParen] + rest);
    assert Rest([RParen] + rest) == rest;
  }

  // --- statements ---

  lemma {:induction false} BlockTrip(names: set<string>, b: Block, rest: Input)
    requires StmtsOk(names, b.stmts)
    ensures ParseBlockOrStmt(names, PrintBlock(b) + rest) == Ok((b, rest))
    ensures Peek(PrintBlock(b) + rest) == LBrace && ParseBraced(names, Rest(PrintBlock(b) + rest)) == Ok((b, rest))
    decreases b, 1
  {
    hide ParseStmts, ParseStmt, PrintStmts;
    var inner := PrintStmts(b.stmts) + ([RBrace] + rest);
    assert PrintBlock(b) + rest == [LBrace] + inner;
    assert Rest([LBrace] + inner) == inner;
    StmtsTrip(names, b.stmts, [RBrace] + rest);
    assert Rest([RBrace] + rest) == rest;
  }

  lemma {:induction false} StmtsTrip(names: set<string>, ss: seq<Stmt>, rest: Input)
    requires StmtsOk(names, ss) && Peek(rest) in {RBrace, Eof}
    ensures ParseStmts(names, PrintStmts(ss) + rest) == Ok((ss, rest))
    decreases ss, 0
  {
    hide ParseStmt, PrintStmt;
    if ss == [] {
      assert PrintStmts(ss) + rest == rest;
    } else {
      var more := PrintStmts(ss[1..]) + rest;
      assert PrintStmts(ss) + rest == PrintStmt(ss[0]) + more;
      if PrintStmts(ss[1..]) == [] {
        assert more == rest;
      } else {
        PeekAppend(PrintStmts(ss[1..]), rest);
      }
      StmtTrip(names, ss[0], more);
      StmtsTrip(names, ss[1..], rest);
      assert [ss[0]] + ss[1..] == ss;
    }
  }

  /** Statements: parsing the rendering of a printable statement gives it back and stops after it. */
  lemma {:induction false} StmtTrip(names: set<string>, s: Stmt, rest: Input)
    requires StmtOk(names, s) && (OpenIf(s) ==> !Peek(rest).TKeyword?)
    ensures ParseStmt(names, PrintStmt(s) + rest) == Ok((s, rest))
    ensures Peek(PrintStmt(s) + rest) !in {RBrace, Eof}
    decreases s, 3
  {
    hide ParseSimple, PrintSimple, ParseIf, ParseFor, ParseBraced, ParseOptional, PrintOptional, SimpleOk;
    var ts := PrintStmt(s) + rest;
    match s
    case Return(v) =>
      assert ts == [TKeyword(KReturn)] + (PrintOptional(v) + rest);
      assert Rest(ts) == PrintOptional(v) + rest;
      OptionalTrip(names, v, rest);
    case Decl(_) => SimpleStmtTrip(names, s, rest);
    case ExprStmt(_) => SimpleStmtTrip(names, s, rest);
    case If(_, _, _) =>
      IfTrip(names, s, rest);
      assert Peek(ts) == TKeyword(KIf);
    case For(_, _, _, _) =>
      ForTrip(names, s, rest);
      assert Peek(ts) == TKeyword(KFor);
    case Nested(b) => BlockTrip(names, b, rest);
  }

  lemma {:induction false} SimpleStmtTrip(names: set<string>, s: Stmt, rest: Input)
    requires SimpleOk(names, s)
    ensures ParseStmt(names, PrintSimple(s) + [Semicolon] + rest) == Ok((s, rest))
    ensures Peek(PrintSimple(s) + [Semicolon] + rest) !in {RBrace, Eof}
  {
    hide ParseSimple, PrintSimple, SimpleOk, IsTypeTok, ParseIf, ParseFor, ParseBraced, ParseOptional;
    var ts := PrintSimple(s) + [Semicolon] + rest;
    assert ts == PrintSimple(s) + ([Semicolon] + rest);
    SimpleTrip(names, s, [Semicolon] + rest);
    PeekAppend(PrintSimple(s), [Semicolon] + rest);
    Ordinary(names, Peek(ts));
    assert Rest([Semicolon] + rest) == rest;
  }

  /** The tokens of an `if` up to the end of its then-block. */
  lemma {:induction false} IfHead(names: set<string>, s: Stmt, rest: Input)
    requires s.If? && Printable(names, s.cond) && StmtsOk(names, s.thenBlock.stmts)
    ensures var ts := PrintStmt(s) + rest; var more := PrintElse(s.elseBlock) + rest;
      && ts != [] && Peek(ts) == TKeyword(KIf)
      && ParseIf(names, ts) ==
           if Eats(more, TKeyword(KElse)) then
             (match ParseBlockOrStmt(names, Rest(more))
              case Ok((b, ts1)) => Ok((If(s.cond, s.thenBlock, Some(b)), ts1))
              case Err(e) => Err(e))
           else Ok((If(s.cond, s.thenBlock, None), more))
    decreases s, 0
  {
    hide ParseExpr, Print, Printable, ParseBlockOrStmt, PrintBlock, PrintElse, StmtsOk, PrintStmt, Starts, Stop;
    var ts := PrintStmt(s) + rest;
    var more := PrintElse(s.elseBlock) + rest;
    var ts2 := PrintBlock(s.thenBlock) + more;
    var ts1 := Print(s.cond, 0) + ([RParen] + ts2);
    IfTokens(s, rest);
    Cons(TKeyword(KIf), [LParen] + ts1);
    Cons(LParen, ts1);
    Cons(RParen, ts2);
    ExprTrip(names, s.cond, [RParen] + ts2) by { ParenStops(); }
    BlockTrip(names, s.thenBlock, more);
  }

  lemma {:induction false} ParenStops()
    ensures Stop(0, RParen)
  {
  }

  lemma {:induction false} IfTokens(s: Stmt, rest: Input)
    requires s.If?
    ensures PrintStmt(s) + rest ==
      [TKeyword(KIf)] + ([LParen] + (Print(s.cond, 0) + ([RParen] + (PrintBlock(s.thenBlock) + (PrintElse(s.elseBlock) + rest)))))
  {
  }

  lemma {:induction false} ElseTokens(b: Block, rest: Input)
    ensures var more := PrintElse(Some(b)) + rest; Peek(more) == TKeyword(KElse) && Rest(more) == PrintBlock(b) + rest
  {
    hide PrintBlock;
    assert PrintElse(Some(b)) + rest == [TKeyword(KElse)] + (PrintBlock(b) + rest);
  }

  lemma {:induction false} IfTrip(names: set<string>, s: Stmt, rest: Input)
    requires s.If? && StmtOk(names, s) && (OpenIf(s) ==> !Peek(rest).TKeyword?)
    ensures PrintStmt(s) + rest != [] && ParseIf(names, PrintStmt(s) + rest) == Ok((s, rest))
    decreases s, 2
  {
    hide ParseIf, ParseBlockOrStmt, PrintBlock, PrintStmt, Print, Printable, StmtsOk;
    IfHead(names, s, rest);
    if s.elseBlock.Some? {
      var b := s.elseBlock.value;
      BlockTrip(names, b, rest);
      ElseTokens(b, rest);
    } else {
      assert PrintElse(s.elseBlock) + rest == rest;
    }
  }

  lemma {:induction false} ForTrip(names: set<string>, s: Stmt, rest: Input)
    requires s.For? && StmtOk(names, s)
    ensures PrintStmt(s) + rest != [] && ParseFor(names, PrintStmt(s) + rest) == Ok((s, rest))
    decreases s, 2
  {
    hide ParseClauses, PrintInit, PrintOptional, PrintUpdate, ParseBlockOrStmt, PrintBlock;
    var ts := PrintStmt(s) + rest;
    var ts2 := PrintBlock(s.body) + rest;
    var ts1 := PrintInit(s.init) + (PrintOptional(s.test) + (PrintUpdate(s.update) + ([RParen] + ts2)));
    assert ts == [TKeyword(KFor)] + ([LParen] + ts1);
    assert Rest(ts) == [LParen] + ts1 && Rest([LParen] + ts1) == ts1;
    ClausesTrip(names, s.init, s.test, s.update, ts2);
    BlockTrip(names, s.body, rest);
  }

  /** An `if` without `else` comes back exactly when no keyword follows it, whatever the keyword: `eat` compares token
      variants only, so the parser takes `return`, `for` or `float` for `else`. */
  lemma {:induction false} OpenIfExact(names: set<string>, s: Stmt, rest: Input)
    requires StmtOk(names, s) && OpenIf(s)
    ensures ParseStmt(names, PrintStmt(s) + rest) == Ok((s, rest)) <==> !Peek(rest).TKeyword?
  {
    hide ParseIf, ParseBlockOrStmt, PrintBlock;
    IfHead(names, s, rest);
    assert PrintElse(s.elseBlock) + rest == rest;
    assert ParseStmt(names, PrintStmt(s) + rest) == ParseIf(names, PrintStmt(s) + rest);
  }

  /** `if (c) {} return x;` is read as `if (c) {} else x;`. */
  lemma {:induction false} ReturnTakenForElse(names: set<string>)
    ensures var s := If(Ident("c"), Block([]), None);
      ParseStmt(names, PrintStmt(s) + [TKeyword(KReturn), TIdent("x"), Semicolon])
        == Ok((If(Ident("c"), Block([]), Some(Block([ExprStmt(Ident("x"))]))), []))
  {
    hide ParseIf, ParseBlockOrStmt, PrintStmt, PrintBlock, Print, ParseStmts;
    var s := If(Ident("c"), Block([]), None);
    var rest := [TKeyword(KReturn), TIdent("x"), Semicolon];
    IfHead(names, s, rest);
    assert PrintElse(s.elseBlock) + rest == rest;
    assert Rest(rest) == [TIdent("x"), Semicolon];
    LoneStatement(names);
    assert ParseStmt(names, PrintStmt(s) + rest) == ParseIf(names, PrintStmt(s) + rest);
  }

  lemma {:induction false} LoneStatement(names: set<string>)
    ensures ParseBlockOrStmt(names, [TIdent("x"), Semicolon]) == Ok((Block([ExprStmt(Ident("x"))]), []))
  {
    hide ParseStmt, ParseBraced;
    SimpleStmtTrip(names, ExprStmt(Ident("x")), []);
    assert PrintSimple(ExprStmt(Ident("x"))) + [Semicolon] + [] == [TIdent("x"), Semicolon];
  }

  // --- parentheses around a type ---

  predicate IsWord(t: Tok) {
    t.TIdent? || t.TKeyword? || t.TInt? || t.TUint? || t.TFloat? || t.TBool?
  }

  function WordCount(ts: Input): nat {
    if ts == [] then 0 else (if IsWord(ts[0]) then 1 else 0) + WordCount(ts[1..])
  }

  /** Words an expression is made of. */
  function Words(e: Expr): nat
    decreases e
  {
    match e
    case Lit(_) => 1
    case Ident(_) => 1
    case Construct(_, args) => 1 + ArgWords(args)
    case Call(_, args) => 1 + ArgWords(args)
    case MethodCall(base, _, args) => Words(base) + 1 + ArgWords(args)
    case Member(base, _) => Words(base) + 1
    case Binary(_, lhs, rhs) => Words(lhs) + Words(rhs)
    case Unary(_, x) => Words(x)
    case Cast(_, x) => 1 + Words(x)
  }

  function ArgWords(args: seq<Expr>): nat
    decreases args
  {
    if args == [] then 0 else Words(args[0]) + ArgWords(args[1..])
  }

  lemma {:induction false} WordsAppend(a: Input, b: Input)
    ensures WordCount(a + b) == WordCount(a) + WordCount(b)
  {
    if a == [] {
      assert a + b == b;
    } else {
      assert (a + b)[1..] == a[1..] + b;
      WordsAppend(a[1..], b);
    }
  }

  /** Printing writes each word once. */
  lemma {:induction false} PrintWords(names: set<string>, e: Expr, k: nat)
    requires Printable(names, e)
    ensures WordCount(Print(e, k)) == Words(e)
    decreases e, 1
  {
    BareWords(names, e);
    if k > Level(e) {
      WordsAppend([LParen], Bare(e) + [RParen]);
      WordsAppend(Bare(e), [RParen]);
      assert [LParen] + Bare(e) + [RParen] == [LParen] + (Bare(e) + [RParen]);
    }
  }

  lemma {:induction false} ArgsPrintWords(names: set<string>, args: seq<Expr>)
    requires PrintableArgs(names, args)
    ensures WordCount(PrintArgs(args)) == ArgWords(args)
    decreases args, 2
  {
    if args != [] {
      PrintWords(names, args[0], 0);
      ArgsPrintWords(names, args[1..]);
      if |args| > 1 {
        WordsAppend(Print(args[0], 0), [Comma] + PrintArgs(args[1..]));
        WordsAppend([Comma], PrintArgs(args[1..]));
      }
    }
  }

  lemma {:induction false} BareWords(names: set<string>, e: Expr)
    requires Printable(names, e)
    ensures WordCount(Bare(e)) == Words(e)
    decreases e, 0
  {
    hide Print, Level, TypeOk, IsTypeTok, ParenOk;
    match e
    case Lit(_) =>
    case Ident(_) =>
    case Construct(ty, args) =>
      ArgsPrintWords(names, args);
      WordsAppend([TypeTok(ty), LParen] + PrintArgs(args), [RParen]);
      WordsAppend([TypeTok(ty), LParen], PrintArgs(args));
    case Call(name, args) =>
      ArgsPrintWords(names, args);
      WordsAppend([TIdent(name), LParen] + PrintArgs(args), [RParen]);
      WordsAppend([TIdent(name), LParen], PrintArgs(args));
    case MethodCall(_, _, _) => MethodWords(names, e);
    case Member(base, member) =>
      PrintWords(names, base, 8);
      WordsAppend(Print(base, 8), [Dot, TIdent(member)]);
      ShortWords(Dot, TIdent(member), LParen);
    case Unary(op, x) =>
      PrintWords(names, x, 7);
      WordsAppend([PrefixTok(op)], Print(x, 7));
    case Cast(ty, x) =>
      PrintWords(names, x, 7);
      WordsAppend([LParen, TypeTok(ty), RParen], Print(x, 7));
      ShortWords(LParen, TypeTok(ty), RParen);
    case Binary(op, lhs, rhs) => BinaryWords(names, e);
  }

  lemma {:induction false} MethodWords(names: set<string>, e: Expr)
    requires e.MethodCall? && Printable(names, e)
    ensures WordCount(Bare(e)) == Words(e)
    decreases e, 0, 0
  {
    hide Print, Level, TypeOk, IsTypeTok, ParenOk;
    PrintWords(names, e.base, 8);
    ArgsPrintWords(names, e.args);
    var call := [Dot, TIdent(e.callee), LParen];
    WordsAppend(Print(e.base, 8), call + PrintArgs(e.args) + [RParen]);
    WordsAppend(call + PrintArgs(e.args), [RParen]);
    WordsAppend(call, PrintArgs(e.args));
    ShortWords(Dot, TIdent(e.callee), LParen);
  }

  lemma {:induction false} ShortWords(a: Tok, b: Tok, c: Tok)
    ensures WordCount([a, b]) == (if IsWord(a) then 1 else 0) + (if IsWord(b) then 1 else 0)
    ensures WordCount([a, b, c]) == WordCount([a, b]) + (if IsWord(c) then 1 else 0)
  {
    assert [a, b] == [a] + [b] && [a, b, c] == [a, b] + [c];
    WordsAppend([a], [b]);
    WordsAppend([a, b], [c]);
  }

  lemma {:induction false} BinaryWords(names: set<string>, e: Expr)
    requires e.Binary? && Printable(names, e)
    ensures WordCount(Bare(e)) == Words(e)
    decreases e, 0, 0
  {
    hide Print;
    var l := Level(e);
    var t := if l == 0 then AssignTok(e.op).value else InfixTok(e.op).value.0;
    var (lk, rk) := if l == 0 then (1, 0) else (l, l + 1);
    PrintWords(names, e.lhs, lk);
    PrintWords(names, e.rhs, rk);
    WordsAppend(Print(e.lhs, lk), [t] + Print(e.rhs, rk));
    WordsAppend([t], Print(e.rhs, rk));
  }

  lemma {:induction false} PeekWords(ts: Input)
    ensures WordCount(ts) == WordCount(Rest(ts)) + (if IsWord(Peek(ts)) then 1 else 0)
  {
  }

  lemma {:induction false} SkipWords(ts: Input)
    ensures WordCount(SkipUntilGt(ts)) <= WordCount(ts)
  {
    if ts != [] && ts[0] != TGt {
      SkipWords(ts[1..]);
    }
  }

  lemma {:induction false} TypeWords(names: set<string>, ts: Input)
    requires ParseType(names, ts).Ok?
    ensures WordCount(ts) >= 1 + WordCount(ParseType(names, ts).value.1)
  {
    PeekWords(ts);
    PeekWords(Rest(ts));
    SkipWords(Rest(Rest(ts)));
  }

  /** Parsing consumes at least the words of what it returns. */
  lemma {:induction false} ExprConsumes(names: set<string>, ts: Input)
    requires ParseExpr(names, ts).Ok?
    ensures var (e, rest) := ParseExpr(names, ts).value; WordCount(ts) >= Words(e) + WordCount(rest)
    decreases |ts|, 20
  {
    LevelConsumes(names, 1, ts);
    var (lhs, ts1) := ParseLevel(names, 1, ts).value;
    if AssignOp(Peek(ts1)).Some? {
      PeekWords(ts1);
      ExprConsumes(names, Rest(ts1));
    }
  }

  lemma {:induction false} LevelConsumes(names: set<string>, level: nat, ts: Input)
    requires 1 <= level <= 7 && ParseLevel(names, level, ts).Ok?
    ensures var (e, rest) := ParseLevel(names, level, ts).value; WordCount(ts) >= Words(e) + WordCount(rest)
    decreases |ts|, 18 - level
  {
    if level == 7 {
      UnaryConsumes(names, ts);
    } else {
      LevelConsumes(names, level + 1, ts);
      var (lhs, ts1) := ParseLevel(names, level + 1, ts).value;
      MoreConsumes(names, level, lhs, ts1);
    }
  }

  lemma {:induction false} MoreConsumes(names: set<string>, level: nat, lhs: Expr, ts: Input)
    requires 1 <= level <= 6 && ParseMore(names, level, lhs, ts).Ok?
    ensures var (e, rest) := ParseMore(names, level, lhs, ts).value;
      Words(lhs) + WordCount(ts) >= Words(e) + WordCount(rest)
    decreases |ts|, 19
  {
    if InfixOp(Peek(ts)).Some? && InfixOp(Peek(ts)).value.1 == level {
      var op := InfixOp(Peek(ts)).value.0;
      PeekWords(ts);
      LevelConsumes(names, level + 1, Rest(ts));
      var (rhs, ts1) := ParseLevel(names, level + 1, Rest(ts)).value;
      MoreConsumes(names, level, Binary(op, lhs, rhs), ts1);
    }
  }

  lemma {:induction false} UnaryConsumes(names: set<string>, ts: Input)
    requires ParseUnary(names, ts).Ok?
    ensures var (e, rest) := ParseUnary(names, ts).value; WordCount(ts) >= Words(e) + WordCount(rest)
    decreases |ts|, 10
  {
    if PrefixOp(Peek(ts)).Some? {
      PeekWords(ts);
      UnaryConsumes(names, Rest(ts));
    } else {
      PrimaryConsumes(names, ts);
      var (e, ts1) := ParsePrimary(names, ts).value;
      MembersConsume(names, e, ts1);
    }
  }

  lemma {:induction false} MembersConsume(names: set<string>, e: Expr, ts: Input)
    requires ParseMembers(names, e, ts).Ok?
    ensures var (e', rest) := ParseMembers(names, e, ts).value; Words(e) + WordCount(ts) >= Words(e') + WordCount(rest)
    decreases |ts|, 7
  {
    hide ParsePrimary, ParseExpr, ParseLevel, ParseUnary, WordCount, ParseArgs, SameVariant;
    if Peek(ts) == Dot {
      PeekWords(ts);
      PeekWords(Rest(ts));
      var (member, ts1) := ExpectIdent(Rest(ts)).value;
      if Eats(ts1, LParen) {
        PeekWords(ts1);
        ArgsConsume(names, Rest(ts1));
        var (args, ts2) := ParseArgs(names, Rest(ts1)).value;
        PeekWords(ts2);
        MembersConsume(names, MethodCall(e, member, args), Rest(ts2));
      } else {
        MembersConsume(names, Member(e, member), ts1);
      }
    }
  }

  lemma {:induction false} InnerConsumes(names: set<string>, ts: Input)
    requires ParseInner(names, ts).Ok?
    ensures var (e, rest) := ParseInner(names, ts).value; WordCount(ts) >= Words(e) + WordCount(rest)
    decreases |ts|, 21
  {
    ExprConsumes(names, ts);
    PeekWords(ParseExpr(names, ts).value.1);
  }

  lemma {:induction false} PrimaryConsumes(names: set<string>, ts: Input)
    requires ParsePrimary(names, ts).Ok?
    ensures var (e, rest) := ParsePrimary(names, ts).value; WordCount(ts) >= Words(e) + WordCount(rest)
    decreases |ts|, 8
  {
    hide ParseExpr, ParseLevel, ParseUnary, ParseMembers, ParseType, WordCount, DecodeTypeWord;
    PeekWords(ts);
    if Peek(ts) == LParen {
      if IsTypeTok(names, Peek(Rest(ts))) {
        TypeWords(names, Rest(ts));
        var (ty, ts1) := ParseType(names, Rest(ts)).value;
        if Eats(ts1, RParen) {
          PeekWords(ts1);
          UnaryConsumes(names, Rest(ts1));
        } else {
          InnerConsumes(names, ts1);
        }
      } else {
        InnerConsumes(names, Rest(ts));
      }
    } else if Peek(ts).TIdent? && Eats(Rest(ts), LParen) {
      PeekWords(Rest(ts));
      ArgsConsume(names, Rest(Rest(ts)));
      PeekWords(ParseArgs(names, Rest(Rest(ts))).value.1);
    }
  }

  lemma {:induction false} ArgsConsume(names: set<string>, ts: Input)
    requires ParseArgs(names, ts).Ok?
    ensures var (args, rest) := ParseArgs(names, ts).value; WordCount(ts) >= ArgWords(args) + WordCount(rest)
    decreases |ts|, 22
  {
    if Peek(ts) != RParen {
      ArgListConsumes(names, ts);
    }
  }

  lemma {:induction false} ArgListConsumes(names: set<string>, ts: Input)
    requires ParseArgList(names, ts).Ok?
    ensures var (args, rest) := ParseArgList(names, ts).value; WordCount(ts) >= ArgWords(args) + WordCount(rest)
    decreases |ts|, 21
  {
    ExprConsumes(names, ts);
    var (e, ts1) := ParseExpr(names, ts).value;
    if Eats(ts1, Comma) {
      PeekWords(ts1);
      ArgListConsumes(names, Rest(ts1));
      var (es, ts2) := ParseArgList(names, Rest(ts1)).value;
      assert ([e] + es)[1..] == es;
    } else {
      assert [e][1..] == [];
    }
  }

  /** Anything printable is read back from parentheses that do not open before a type. */
  lemma {:induction false} ParensTrip(names: set<string>, e: Expr, rest: Input)
    requires Printable(names, e) && !IsTypeTok(names, Bare(e)[0])
    ensures ParsePrimary(names, [LParen] + (Bare(e) + ([RParen] + rest))) == Ok((e, rest))
  {
    hide Printable, Level, IsTypeTok, Bare, ParseExpr, ParseUnary, ParseType;
    var inner := Bare(e) + ([RParen] + rest);
    PeekAppend(Bare(e), [RParen] + rest);
    Cons(LParen, inner);
    Cons(RParen, rest);
    ParenStops();
    BareTrip(names, e, 0, [RParen] + rest);
    ExprAt(names, inner);
    assert ParseInner(names, inner) == Ok((e, rest));
  }

  /** Parentheses, needed or not, are read back exactly when the text inside does not start with a type: the probe for
      a cast consumes the type and does not give it back. */
  lemma {:induction false} ParenthesesExact(names: set<string>, e: Expr, rest: Input)
    requires Printable(names, e)
    ensures ParsePrimary(names, [LParen] + Bare(e) + [RParen] + rest) == Ok((e, rest)) <==> !IsTypeTok(names, Bare(e)[0])
  {
    var ts := [LParen] + Bare(e) + [RParen] + rest;
    assert ts == [LParen] + (Bare(e) + ([RParen] + rest));
    if !IsTypeTok(names, Bare(e)[0]) {
      ParensTrip(names, e, rest);
    } else {
      FirstBare(names, e);
      LostType(names, e, rest);
    }
  }

  lemma {:induction false} LostType(names: set<string>, e: Expr, rest: Input)
    requires Printable(names, e) && IsTypeTok(names, Bare(e)[0]) && Bare(e)[0].TIdent?
    ensures ParsePrimary(names, [LParen] + Bare(e) + [RParen] + rest) != Ok((e, rest))
  {
    hide ParseExpr, ParseUnary, Printable, Level, ParseInner, Bare, WordCount, Words, ParseArgs, IsTypeTok;
    var ts := [LParen] + Bare(e) + [RParen] + rest;
    var tail := Bare(e)[1..] + ([RParen] + rest);
    assert Rest(ts) == [Bare(e)[0]] + tail;
    assert Rest(Rest(ts)) == tail;
    LostCount(names, e, rest);
    if ParseInner(names, tail).Ok? {
      InnerConsumes(names, tail);
    }
    NotCast(names, e);
  }

  lemma {:induction false} LostCount(names: set<string>, e: Expr, rest: Input)
    requires Printable(names, e) && Bare(e)[0].TIdent?
    ensures WordCount(Bare(e)[1..] + ([RParen] + rest)) < Words(e) + WordCount(rest)
  {
    hide Bare, Words;
    BareWords(names, e);
    WordsAppend(Bare(e)[1..], [RParen] + rest);
    WordsAppend([RParen], rest);
  }

  lemma {:induction false} NotCast(names: set<string>, e: Expr)
    requires IsTypeTok(names, Bare(e)[0])
    ensures !e.Cast?
  {
  }
}
