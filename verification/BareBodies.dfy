/** Bodies without braces. */
module BareBodies {
  import opened Wrappers
  import opened Ast
  import opened Tokens
  import opened Grammar
  import opened Printer
  import opened RoundTrip
  import opened StmtRoundTrip

  lemma {:induction false} FirstToken(names: set<string>, s: Stmt, rest: Input)
    requires StmtOk(names, s) && !s.Nested?
    ensures !Eats(PrintStmt(s) + rest, LBrace) && PrintStmt(s) != []
  {
    hide PrintSimple, SimpleOk, IsTypeTok, PrintOptional, PrintInit, PrintUpdate, PrintBlock, PrintElse, StmtsOk, Printable, Print;
    var ts := PrintStmt(s) + rest;
    match s
    case Return(_) => assert ts[0] == TKeyword(KReturn);
    case If(_, _, _) => assert ts[0] == TKeyword(KIf);
    case For(_, _, _, _) => assert ts[0] == TKeyword(KFor);
    case Decl(_) => SimpleFirst(names, s, rest);
    case ExprStmt(_) => SimpleFirst(names, s, rest);
    case Nested(_) =>
  }

  lemma {:induction false} SimpleFirst(names: set<string>, s: Stmt, rest: Input)
    requires SimpleOk(names, s) && (s.Decl? || s.ExprStmt?)
    ensures !Eats(PrintStmt(s) + rest, LBrace) && PrintStmt(s) != []
  {
    hide PrintSimple, SimpleOk, IsTypeTok, Starts;
    SimpleTrip(names, s, [Semicolon]);
    PeekAppend(PrintSimple(s), [Semicolon] + rest);
    assert PrintStmt(s) + rest == PrintSimple(s) + ([Semicolon] + rest);
    Ordinary(names, PrintSimple(s)[0]);
  }

  /** One statement stands for a block. */
  lemma {:induction false} LoneTrip(names: set<string>, s: Stmt, rest: Input)
    requires StmtOk(names, s) && !s.Nested? && (OpenIf(s) ==> !Peek(rest).TKeyword?)
    ensures ParseBlockOrStmt(names, PrintStmt(s) + rest) == Ok((Block([s]), rest))
  {
    hide ParseStmt, PrintStmt, StmtOk, ParseBraced;
    FirstToken(names, s, rest);
    StmtTrip(names, s, rest);
  }

  /** Up to the closing parenthesis of an `if`. */
  lemma {:induction false} BareHead(names: set<string>, cond: Expr, body: Input)
    requires Printable(names, cond)
    ensures var ts := [TKeyword(KIf)] + ([LParen] + (Print(cond, 0) + ([RParen] + body)));
      && ts != []
      && ParseStmt(names, ts) == ParseIf(names, ts)
      && ParseIf(names, ts) == match ParseBlockOrStmt(names, body) {
           case Err(m) => Err(m)
           case Ok((b, ts1)) =>
             if !Eats(ts1, TKeyword(KElse)) then Ok((If(cond, b, None), ts1))
             else match ParseBlockOrStmt(names, Rest(ts1)) {
               case Err(m) => Err(m)
               case Ok((b2, ts2)) => Ok((If(cond, b, Some(b2)), ts2))
             }
         }
  {
    hide ParseExpr, Print, Printable, ParseBlockOrStmt, Stop;
    var inner := Print(cond, 0) + ([RParen] + body);
    Cons(TKeyword(KIf), [LParen] + inner);
    Cons(LParen, inner);
    Cons(RParen, body);
    ParenStops();
    ExprTrip(names, cond, [RParen] + body);
  }

  /** `if (c) s` */
  lemma {:induction false} BareIf(names: set<string>, cond: Expr, s: Stmt, rest: Input)
    requires Printable(names, cond) && StmtOk(names, s) && !s.Nested? && !Peek(rest).TKeyword?
    ensures ParseStmt(names, [TKeyword(KIf)] + ([LParen] + (Print(cond, 0) + ([RParen] + (PrintStmt(s) + rest)))))
         == Ok((If(cond, Block([s]), None), rest))
  {
    hide ParseStmt, ParseIf, PrintStmt, StmtOk, Printable, Print, ParseBlockOrStmt;
    BareHead(names, cond, PrintStmt(s) + rest);
    LoneTrip(names, s, rest);
  }

  /** `if (c) s else t` */
  lemma {:induction false} BareIfElse(names: set<string>, cond: Expr, s: Stmt, t: Stmt, rest: Input)
    requires Printable(names, cond) && StmtOk(names, s) && StmtOk(names, t) && !s.Nested? && !t.Nested? && !OpenIf(s)
    requires OpenIf(t) ==> !Peek(rest).TKeyword?
    ensures ParseStmt(names, [TKeyword(KIf)] + ([LParen] + (Print(cond, 0) + ([RParen] +
                             (PrintStmt(s) + ([TKeyword(KElse)] + (PrintStmt(t) + rest)))))))
         == Ok((If(cond, Block([s]), Some(Block([t]))), rest))
  {
    hide ParseStmt, ParseIf, PrintStmt, StmtOk, Printable, Print, ParseBlockOrStmt;
    var more := [TKeyword(KElse)] + (PrintStmt(t) + rest);
    BareHead(names, cond, PrintStmt(s) + more);
    LoneTrip(names, s, more);
    Cons(TKeyword(KElse), PrintStmt(t) + rest);
    LoneTrip(names, t, rest);
  }

  /** An `else` belongs to the nearest `if`: `if (c) if (d) { ... } else s`. */
  lemma {:induction false} ElseBelongsToNearest(names: set<string>, cond: Expr, d: Expr, b: Block, s: Stmt, rest: Input)
    requires Printable(names, cond) && Printable(names, d) && StmtsOk(names, b.stmts) && StmtOk(names, s) && !s.Nested?
    requires !Peek(rest).TKeyword?
    ensures var inner := PrintStmt(If(d, b, None)) + ([TKeyword(KElse)] + (PrintStmt(s) + rest));
      ParseStmt(names, [TKeyword(KIf)] + ([LParen] + (Print(cond, 0) + ([RParen] + inner))))
        == Ok((If(cond, Block([If(d, b, Some(Block([s])))]), None), rest))
  {
    hide ParseIf, PrintStmt, StmtOk, StmtsOk, Printable, Print, ParseBlockOrStmt, ParseBraced;
    var more := [TKeyword(KElse)] + (PrintStmt(s) + rest);
    var open := If(d, b, None);
    IfHead(names, open, more);
    assert PrintElse(None) + more == more;
    Cons(TKeyword(KElse), PrintStmt(s) + rest);
    LoneTrip(names, s, rest);
    assert ParseIf(names, PrintStmt(open) + more) == Ok((If(d, b, Some(Block([s]))), rest));
    IfIsStatement(names, PrintStmt(open) + more);
    BareHead(names, cond, PrintStmt(open) + more);
  }

  lemma {:induction false} IfIsStatement(names: set<string>, ts: Input)
    requires ts != [] && Peek(ts) == TKeyword(KIf) && ParseIf(names, ts).Ok?
    ensures ParseBlockOrStmt(names, ts) == Ok((Block([ParseIf(names, ts).value.0]), ParseIf(names, ts).value.1))
  {
    hide ParseIf, ParseBraced;
  }

  /** `for (...) s` */
  lemma {:induction false} BareFor(
    names: set<string>, init: Option<Stmt>, test: Option<Expr>, update: Option<Expr>, s: Stmt, rest: Input)
    requires (init.Some? ==> SimpleOk(names, init.value)) && OptionalOk(names, test) && OptionalOk(names, update)
    requires StmtOk(names, s) && !s.Nested? && (OpenIf(s) ==> !Peek(rest).TKeyword?)
    ensures var clauses := PrintInit(init) + (PrintOptional(test) + (PrintUpdate(update) + ([RParen] + (PrintStmt(s) + rest))));
      ParseStmt(names, [TKeyword(KFor)] + ([LParen] + clauses)) == Ok((For(init, test, update, Block([s])), rest))
  {
    hide ParseClauses, PrintInit, PrintOptional, PrintUpdate, ParseBlockOrStmt, PrintStmt, StmtOk, OptionalOk, SimpleOk;
    var ts2 := PrintStmt(s) + rest;
    var ts1 := PrintInit(init) + (PrintOptional(test) + (PrintUpdate(update) + ([RParen] + ts2)));
    Cons(TKeyword(KFor), [LParen] + ts1);
    Cons(LParen, ts1);
    ClausesTrip(names, init, test, update, ts2);
    LoneTrip(names, s, rest);
  }

  // --- what nothing starts with ---

  /** Whatever parses as an expression starts with a word, a literal, a parenthesis or a prefix operator; so scalar
      constructors do not parse, their type being a keyword. */
  lemma {:induction false} ExprStarts(names: set<string>, ts: Input)
    requires ParseExpr(names, ts).Ok?
    ensures Starts(Peek(ts))
  {
    hide ParseLevel;
    LevelStarts(names, 1, ts);
  }

  lemma {:induction false} LevelStarts(names: set<string>, level: nat, ts: Input)
    requires 1 <= level <= 7 && ParseLevel(names, level, ts).Ok?
    ensures Starts(Peek(ts))
    decreases 7 - level
  {
    if level < 7 {
      hide ParseMore;
      LevelStarts(names, level + 1, ts);
    } else {
      hide ParseLevel, ParsePostfix;
      LevelSeven(names, ts);
      if PrefixOp(Peek(ts)).None? {
        assert ParseUnary(names, ts) == ParsePostfix(names, ts);
        PostfixStarts(names, ts);
      }
    }
  }

  lemma {:induction false} PostfixStarts(names: set<string>, ts: Input)
    requires ParsePostfix(names, ts).Ok?
    ensures Starts(Peek(ts))
  {
    hide ParseMembers;
    PrimaryStarts(names, ts);
  }

  lemma {:induction false} PrimaryStarts(names: set<string>, ts: Input)
    requires ParsePrimary(names, ts).Ok?
    ensures Starts(Peek(ts))
  {
    hide ParseArgs, ParseInner, ParseType, ParseUnary;
  }
}
