/** What the parser accepts as statements: the counterpart of `Acceptance`. */
module StmtAcceptance {
  import opened Wrappers
  import opened Ast
  import opened Tokens
  import opened Grammar
  import opened Acceptance

  // --- syntax trees ---

  /** What follows a colon: one token, a semantic or a plain word if it is to be kept. */
  datatype SVar = SVar(ty: SType, name: string, colon: Option<Tok>, init: Option<SExpr>)

  datatype SBody = Braces(stmts: seq<SStmt>) | Lone(stmt: SStmt)

  /** Any keyword is taken for `else`. */
  datatype SElse = SElse(k: Keyword, body: SBody)

  datatype SStmt =
    | SReturn(value: Option<SExpr>)
    | SDecl(decl: SVar)
    | SExprStmt(e: SExpr)
    | SIf(cond: SExpr, thenBody: SBody, elseBody: Option<SElse>)
    | SFor(init: Option<SStmt>, test: Option<SExpr>, update: Option<SExpr>, body: SBody)
    | SNested(stmts: seq<SStmt>)

  // --- their text ---

  function ColonText(colon: Option<Tok>): Input {
    match colon
    case Some(t) => [Colon] + [t]
    case None => []
  }

  function InitText(init: Option<SExpr>): Input {
    match init
    case Some(e) => [TAssign] + Text(e)
    case None => []
  }

  function VarText(d: SVar): Input {
    TypeText(d.ty) + ([TIdent(d.name)] + (ColonText(d.colon) + InitText(d.init)))
  }

  function OptionText(e: Option<SExpr>): Input {
    match e
    case Some(x) => Text(x)
    case None => []
  }

  /** A declaration or an expression, without its semicolon. */
  function SimpleText(s: Option<SStmt>): Input {
    match s
    case Some(SDecl(d)) => VarText(d)
    case Some(SExprStmt(e)) => Text(e)
    case _ => []
  }

  function StmtText(s: SStmt): Input
    decreases s, 1
  {
    match s
    case SReturn(v) => [TKeyword(KReturn)] + (OptionText(v) + [Semicolon])
    case SDecl(_) => SimpleText(Some(s)) + [Semicolon]
    case SExprStmt(_) => SimpleText(Some(s)) + [Semicolon]
    case SIf(c, b, e) => [TKeyword(KIf)] + ([LParen] + (Text(c) + ([RParen] + (BodyText(b) + ElseText(e)))))
    case SFor(i, t, u, b) =>
      [TKeyword(KFor)] + ([LParen] + (ClausesText(i, t, u) + BodyText(b)))
    case SNested(ss) => [LBrace] + (StmtsText(ss) + [RBrace])
  }

  /** The three clauses of a loop and the closing parenthesis. */
  function ClausesText(i: Option<SStmt>, t: Option<SExpr>, u: Option<SExpr>): Input {
    SimpleText(i) + ([Semicolon] + (OptionText(t) + ([Semicolon] + (OptionText(u) + [RParen]))))
  }

  function ElseText(e: Option<SElse>): Input
    decreases e, 1
  {
    match e
    case Some(x) => [TKeyword(x.k)] + BodyText(x.body)
    case None => []
  }

  function BodyText(b: SBody): Input
    decreases b, 1
  {
    match b
    case Braces(ss) => [LBrace] + (StmtsText(ss) + [RBrace])
    case Lone(s) => StmtText(s)
  }

  function StmtsText(ss: seq<SStmt>): Input
    decreases ss, 0
  {
    if ss == [] then [] else StmtText(ss[0]) + StmtsText(ss[1..])
  }

  // --- what they stand for ---

  predicate OptionFits(names: set<string>, e: Option<SExpr>) {
    e.Some? ==> Fits(names, e.value, 0)
  }

  predicate SimpleFits(names: set<string>, s: SStmt) {
    match s
    case SDecl(d) => TypeFits(names, d.ty) && OptionFits(names, d.init)
    case SExprStmt(e) => Fits(names, e, 0)
    case _ => false
  }

  predicate StmtFits(names: set<string>, s: SStmt)
    decreases s, 1
  {
    match s
    case SReturn(v) => OptionFits(names, v)
    case SIf(c, b, e) => Fits(names, c, 0) && BodyFits(names, b) && (e.Some? ==> BodyFits(names, e.value.body))
    case SFor(i, t, u, b) =>
      (i.Some? ==> SimpleFits(names, i.value)) && OptionFits(names, t) && OptionFits(names, u) && BodyFits(names, b)
    case SNested(ss) => StmtsFit(names, ss)
    case _ => SimpleFits(names, s)
  }

  predicate BodyFits(names: set<string>, b: SBody)
    decreases b, 1
  {
    match b
    case Braces(ss) => StmtsFit(names, ss)
    case Lone(s) => StmtFits(names, s)
  }

  predicate StmtsFit(names: set<string>, ss: seq<SStmt>)
    decreases ss, 0
  {
    ss == [] || (StmtFits(names, ss[0]) && StmtsFit(names, ss[1..]))
  }

  function OptionOf(names: set<string>, e: Option<SExpr>): Option<Expr>
    requires OptionFits(names, e)
  {
    match e
    case Some(x) => Some(ExprOf(names, x))
    case None => None
  }

  function ColonOf(colon: Option<Tok>): Option<string> {
    match colon
    case Some(TSemantic(s)) => Some(s)
    case Some(TIdent(s)) => Some(s)
    case _ => None
  }

  function SimpleOf(names: set<string>, s: SStmt): Stmt
    requires SimpleFits(names, s)
  {
    match s
    case SDecl(d) => Decl(VarDecl(TokType(names, d.ty.tok).value, d.name, OptionOf(names, d.init), ColonOf(d.colon)))
    case SExprStmt(e) => ExprStmt(ExprOf(names, e))
  }

  function StmtOf(names: set<string>, s: SStmt): Stmt
    requires StmtFits(names, s)
    decreases s, 1
  {
    match s
    case SReturn(v) => Return(OptionOf(names, v))
    case SIf(c, b, e) =>
      If(ExprOf(names, c), BlockOf(names, b), match e { case Some(x) => Some(BlockOf(names, x.body)) case None => None })
    case SFor(i, t, u, b) =>
      For(match i { case Some(x) => Some(SimpleOf(names, x)) case None => None }, OptionOf(names, t), OptionOf(names, u), BlockOf(names, b))
    case SNested(ss) => Nested(Block(StmtsOf(names, ss)))
    case _ => SimpleOf(names, s)
  }

  function BlockOf(names: set<string>, b: SBody): Block
    requires BodyFits(names, b)
    decreases b, 1
  {
    match b
    case Braces(ss) => Block(StmtsOf(names, ss))
    case Lone(s) => Block([StmtOf(names, s)])
  }

  function StmtsOf(names: set<string>, ss: seq<SStmt>): seq<Stmt>
    requires StmtsFit(names, ss)
    decreases ss, 0
  {
    if ss == [] then [] else [StmtOf(names, ss[0])] + StmtsOf(names, ss[1..])
  }

  // --- expressions and declarations ---

  lemma {:induction false} ExprRead(names: set<string>, ts: Input) returns (e: SExpr)
    requires ParseExpr(names, ts).Ok?
    ensures var (x, rest) := ParseExpr(names, ts).value; Fits(names, e, 0) && ExprOf(names, e) == x && ts == Text(e) + rest
  {
    hide ParseExpr, Fits, ExprOf, Text;
    e := ExprAccepted(names, ts);
  }

  lemma {:induction false} Whole(a: Input)
    ensures [] + a == a && a + [] == a
  {
  }

  lemma {:induction false} OptionalAccepted(names: set<string>, ts: Input) returns (e: Option<SExpr>)
    requires ParseOptional(names, ts).Ok?
    ensures var (x, rest) := ParseOptional(names, ts).value;
      OptionFits(names, e) && OptionOf(names, e) == x && ts == OptionText(e) + ([Semicolon] + rest)
  {
    hide ParseExpr, Fits, ExprOf, Text;
    e := None;
    if Eats(ts, Semicolon) {
      Uncons(ts, Semicolon);
      Whole(ts);
    } else {
      var x := ExprRead(names, ts);
      e := Some(x);
      Uncons(ParseExpr(names, ts).value.1, Semicolon);
    }
  }

  lemma {:induction false} UpdateAccepted(names: set<string>, ts: Input) returns (e: Option<SExpr>)
    requires ParseUpdate(names, ts).Ok?
    ensures var (x, rest) := ParseUpdate(names, ts).value;
      OptionFits(names, e) && OptionOf(names, e) == x && ts == OptionText(e) + rest
  {
    hide ParseExpr, Fits, ExprOf, Text;
    e := None;
    if Peek(ts) == RParen {
      Whole(ts);
    } else {
      var x := ExprRead(names, ts);
      e := Some(x);
    }
  }

  /** A colon and one token, or nothing; a colon may be the last token there is. */
  lemma {:induction false} ColonAccepted(ts: Input) returns (c: Option<Tok>)
    ensures var (s, rest) := ParseSemantic(ts); ColonOf(c) == s && (ts == ColonText(c) + rest || rest == [])
  {
    c := None;
    Whole(ts);
    if Eats(ts, Colon) {
      Uncons(ts, Colon);
      if Rest(ts) != [] {
        c := Some(Rest(ts)[0]);
        assert Rest(ts) == [Rest(ts)[0]] + Rest(Rest(ts));
        assert ([Colon] + [Rest(ts)[0]]) + Rest(Rest(ts)) == [Colon] + ([Rest(ts)[0]] + Rest(Rest(ts)));
      }
    }
  }

  /** Type, name and semantic. */
  lemma {:induction false} HeadAccepted(names: set<string>, ts: Input) returns (t: SType, c: Option<Tok>)
    requires ParseField(names, ts).Ok?
    ensures var (f, rest) := ParseField(names, ts).value;
      && TypeFits(names, t) && TokType(names, t.tok) == Some(f.ty) && ColonOf(c) == f.semantic
      && (ts == TypeText(t) + ([TIdent(f.name)] + (ColonText(c) + rest)) || rest == [])
  {
    hide ParseType, TypeFits, TokType, TypeText, ParseSemantic, ColonText;
    t := TypeAccepted(names, ts);
    var (ty, ts1) := ParseType(names, ts).value;
    var (name, ts2) := ExpectIdent(ts1).value;
    Uncons(ts1, TIdent(name));
    c := ColonAccepted(ts2);
  }

  lemma {:induction false} VarAccepted(names: set<string>, ts: Input) returns (d: SVar)
    requires ParseVarDecl(names, ts).Ok?
    ensures var (v, rest) := ParseVarDecl(names, ts).value;
      SimpleFits(names, SDecl(d)) && SimpleOf(names, SDecl(d)) == Decl(v) && (ts == VarText(d) + rest || rest == [])
  {
    VarField(names, ts);
    hide ParseType, TypeFits, TokType, TypeText, ParseSemantic, ColonText, ParseExpr, Fits, ExprOf, Text, ParseField;
    var t, c := HeadAccepted(names, ts);
    var (f, ts3) := ParseField(names, ts).value;
    d := SVar(t, f.name, c, None);
    Regroup4(TypeText(t), [TIdent(f.name)], ColonText(c), [], ts3);
    Whole(ts3);
    if Eats(ts3, TAssign) {
      var e := ExprRead(names, Rest(ts3));
      d := SVar(t, f.name, c, Some(e));
      Uncons(ts3, TAssign);
      VarRegroup(TypeText(t), [TIdent(f.name)], ColonText(c), Text(e), ParseVarDecl(names, ts).value.1);
    }
  }

  lemma {:induction false} VarRegroup(a: Input, b: Input, c: Input, e: Input, rest: Input)
    ensures (a + (b + (c + ([TAssign] + e)))) + rest == a + (b + (c + ([TAssign] + (e + rest))))
  {
    Regroup4(a, b, c, [TAssign] + e, rest);
    assert ([TAssign] + e) + rest == [TAssign] + (e + rest);
  }

  lemma {:induction false} VarField(names: set<string>, ts: Input)
    requires ParseVarDecl(names, ts).Ok?
    ensures ParseField(names, ts).Ok?
    ensures var (f, ts3) := ParseField(names, ts).value;
      if Eats(ts3, TAssign) then
        && ParseExpr(names, Rest(ts3)).Ok?
        && var (e, ts4) := ParseExpr(names, Rest(ts3)).value;
           ParseVarDecl(names, ts) == Ok((VarDecl(f.ty, f.name, Some(e), f.semantic), ts4))
      else ParseVarDecl(names, ts) == Ok((VarDecl(f.ty, f.name, None, f.semantic), ts3))
  {
    hide ParseType, ParseExpr, ParseSemantic;
  }

  lemma {:induction false} SimpleAccepted(names: set<string>, ts: Input) returns (s: SStmt)
    requires ParseSimple(names, ts).Ok?
    ensures var (x, rest) := ParseSimple(names, ts).value;
      SimpleFits(names, s) && SimpleOf(names, s) == x && (ts == SimpleText(Some(s)) + rest || rest == [])
  {
    hide ParseVarDecl, ParseExpr, Fits, ExprOf, Text, VarText, TypeFits, TokType, LooksLikeVarDecl;
    if LooksLikeVarDecl(names, ts) {
      var d := VarAccepted(names, ts);
      s := SDecl(d);
    } else {
      var e := ExprRead(names, ts);
      s := SExprStmt(e);
    }
  }

  lemma {:induction false} InitAccepted(names: set<string>, ts: Input) returns (s: Option<SStmt>)
    requires ParseInit(names, ts).Ok?
    ensures var (x, rest) := ParseInit(names, ts).value;
      && (s.Some? ==> SimpleFits(names, s.value)) && x == (match s { case Some(y) => Some(SimpleOf(names, y)) case None => None })
      && ts == SimpleText(s) + ([Semicolon] + rest)
  {
    hide ParseSimple, SimpleFits, SimpleOf;
    s := None;
    if Eats(ts, Semicolon) {
      Uncons(ts, Semicolon);
      Whole(ts);
    } else {
      var x := SimpleAccepted(names, ts);
      s := Some(x);
      Uncons(ParseSimple(names, ts).value.1, Semicolon);
    }
  }

  lemma {:induction false} ClausesAccepted(names: set<string>, ts: Input)
    returns (i: Option<SStmt>, t: Option<SExpr>, u: Option<SExpr>)
    requires ParseClauses(names, ts).Ok?
    ensures var (x, y, z, rest) := ParseClauses(names, ts).value;
      && (i.Some? ==> SimpleFits(names, i.value)) && x == (match i { case Some(s) => Some(SimpleOf(names, s)) case None => None })
      && OptionFits(names, t) && OptionOf(names, t) == y && OptionFits(names, u) && OptionOf(names, u) == z
      && ts == ClausesText(i, t, u) + rest
  {
    hide ParseInit, ParseOptional, ParseUpdate, SimpleFits, SimpleOf, OptionFits, OptionOf, SimpleText, OptionText;
    i := InitAccepted(names, ts);
    var ts2 := ParseInit(names, ts).value.1;
    t := OptionalAccepted(names, ts2);
    var ts3 := ParseOptional(names, ts2).value.1;
    u := UpdateAccepted(names, ts3);
    var ts4 := ParseUpdate(names, ts3).value.1;
    Uncons(ts4, RParen);
    Regroup6(SimpleText(i), [Semicolon], OptionText(t), [Semicolon], OptionText(u), [RParen], ParseClauses(names, ts).value.3);
  }

  // --- statements ---

  lemma {:induction false} StmtAccepted(names: set<string>, ts: Input) returns (s: SStmt)
    requires ParseStmt(names, ts).Ok?
    ensures var (x, rest) := ParseStmt(names, ts).value;
      StmtFits(names, s) && StmtOf(names, s) == x && ts == StmtText(s) + rest
    decreases |ts|, 1
  {
    hide ParseOptional, ParseIf, ParseFor, ParseBraced, ParseSimple, StmtFits, StmtOf, StmtText;
    match Peek(ts)
    case TKeyword(KReturn) =>
      var v := OptionalAccepted(names, Rest(ts));
      s := SReturn(v);
      ReturnRead(names, v, ts, ParseOptional(names, Rest(ts)).value);
    case TKeyword(KIf) => s := IfAccepted(names, ts);
    case TKeyword(KFor) => s := ForAccepted(names, ts);
    case LBrace =>
      var ss := BracedAccepted(names, Rest(ts));
      s := SNested(ss);
      NestedRead(names, ss, ts, ParseBraced(names, Rest(ts)).value);
    case _ =>
      s := SimpleAccepted(names, ts);
      SimpleRead(names, s, ts, ParseSimple(names, ts).value);
  }

  lemma {:induction false} ReturnRead(names: set<string>, v: Option<SExpr>, ts: Input, r: (Option<Expr>, Input))
    requires Peek(ts) == TKeyword(KReturn) && OptionFits(names, v) && OptionOf(names, v) == r.0
    requires Rest(ts) == OptionText(v) + ([Semicolon] + r.1)
    ensures var s := SReturn(v); StmtFits(names, s) && StmtOf(names, s) == Return(r.0) && ts == StmtText(s) + r.1
  {
    hide OptionFits, OptionOf, OptionText;
    Uncons(ts, TKeyword(KReturn));
    Regroup3([TKeyword(KReturn)], OptionText(v), [Semicolon], r.1);
  }

  lemma {:induction false} NestedRead(names: set<string>, ss: seq<SStmt>, ts: Input, r: (Block, Input))
    requires Peek(ts) == LBrace && StmtsFit(names, ss) && Block(StmtsOf(names, ss)) == r.0
    requires Rest(ts) == StmtsText(ss) + ([RBrace] + r.1)
    ensures var s := SNested(ss); StmtFits(names, s) && StmtOf(names, s) == Nested(r.0) && ts == StmtText(s) + r.1
    ensures var b := Braces(ss); BodyFits(names, b) && BlockOf(names, b) == r.0 && ts == BodyText(b) + r.1
  {
    hide StmtsFit, StmtsOf, StmtsText;
    Uncons(ts, LBrace);
    Regroup3([LBrace], StmtsText(ss), [RBrace], r.1);
  }

  lemma {:induction false} SimpleRead(names: set<string>, s: SStmt, ts: Input, r: (Stmt, Input))
    requires SimpleFits(names, s) && SimpleOf(names, s) == r.0 && (ts == SimpleText(Some(s)) + r.1 || r.1 == [])
    requires Eats(r.1, Semicolon)
    ensures StmtFits(names, s) && StmtOf(names, s) == r.0 && ts == StmtText(s) + Rest(r.1)
  {
    hide SimpleText, Fits, ExprOf, TypeFits, TokType, OptionFits, OptionOf;
    Uncons(r.1, Semicolon);
    assert (SimpleText(Some(s)) + [Semicolon]) + Rest(r.1) == SimpleText(Some(s)) + ([Semicolon] + Rest(r.1));
  }

  lemma {:induction false} BodyAccepted(names: set<string>, ts: Input) returns (b: SBody)
    requires ParseBlockOrStmt(names, ts).Ok?
    ensures var (x, rest) := ParseBlockOrStmt(names, ts).value;
      BodyFits(names, b) && BlockOf(names, b) == x && ts == BodyText(b) + rest
    decreases |ts|, 3
  {
    hide ParseStmt, ParseBraced, StmtFits, StmtOf, StmtText, BodyFits, BlockOf, BodyText;
    if Eats(ts, LBrace) {
      var ss := BracedAccepted(names, Rest(ts));
      b := Braces(ss);
      NestedRead(names, ss, ts, ParseBraced(names, Rest(ts)).value);
    } else {
      var s := StmtAccepted(names, ts);
      b := Lone(s);
      LoneRead(names, s);
    }
  }

  lemma {:induction false} LoneRead(names: set<string>, s: SStmt)
    requires StmtFits(names, s)
    ensures var b := Lone(s); BodyFits(names, b) && BlockOf(names, b) == Block([StmtOf(names, s)]) && BodyText(b) == StmtText(s)
  {
    hide StmtFits, StmtOf, StmtText;
  }

  lemma {:induction false} BracedAccepted(names: set<string>, ts: Input) returns (ss: seq<SStmt>)
    requires ParseBraced(names, ts).Ok?
    ensures var (b, rest) := ParseBraced(names, ts).value;
      StmtsFit(names, ss) && Block(StmtsOf(names, ss)) == b && ts == StmtsText(ss) + ([RBrace] + rest)
    decreases |ts|, 3
  {
    hide ParseStmts, StmtsFit, StmtsOf, StmtsText;
    ss := StmtsAccepted(names, ts);
    Uncons(ParseStmts(names, ts).value.1, RBrace);
  }

  lemma {:induction false} StmtsAccepted(names: set<string>, ts: Input) returns (ss: seq<SStmt>)
    requires ParseStmts(names, ts).Ok?
    ensures var (x, rest) := ParseStmts(names, ts).value;
      StmtsFit(names, ss) && StmtsOf(names, ss) == x && ts == StmtsText(ss) + rest
    decreases |ts|, 2
  {
    hide ParseStmt, StmtFits, StmtOf, StmtText;
    ss := [];
    if Peek(ts) in {RBrace, Eof} {
      Whole(ts);
    } else {
      var s := StmtAccepted(names, ts);
      var (x, ts1) := ParseStmt(names, ts).value;
      var more := StmtsAccepted(names, ts1);
      ss := [s] + more;
      assert ss[1..] == more;
      assert (StmtText(s) + StmtsText(more)) + ParseStmts(names, ts1).value.1 == StmtText(s) + (StmtsText(more) + ParseStmts(names, ts1).value.1);
    }
  }

  lemma {:induction false} IfAccepted(names: set<string>, ts: Input) returns (s: SStmt)
    requires Peek(ts) == TKeyword(KIf) && ParseIf(names, ts).Ok?
    ensures var (x, rest) := ParseIf(names, ts).value;
      StmtFits(names, s) && StmtOf(names, s) == x && ts == StmtText(s) + rest
    decreases |ts|, 0
  {
    hide ParseExpr, ParseBlockOrStmt, Fits, ExprOf, Text, BodyFits, BlockOf, BodyText, StmtFits, StmtOf, StmtText;
    var ts1 := Rest(Rest(ts));
    Uncons(ts, TKeyword(KIf));
    Uncons(Rest(ts), LParen);
    var c := ExprRead(names, ts1);
    var (cond, ts2) := ParseExpr(names, ts1).value;
    Uncons(ts2, RParen);
    var b := BodyAccepted(names, Rest(ts2));
    var (thenBlock, ts4) := ParseBlockOrStmt(names, Rest(ts2)).value;
    if Eats(ts4, TKeyword(KElse)) {
      var b2 := BodyAccepted(names, Rest(ts4));
      s := SIf(c, b, Some(SElse(Peek(ts4).k, b2)));
      Uncons(ts4, TKeyword(Peek(ts4).k));
      IfRead(names, c, b, s.elseBody);
      IfRegroup(Text(c), BodyText(b), [Peek(ts4)], BodyText(b2), ParseIf(names, ts).value.1);
    } else {
      s := SIf(c, b, None);
      IfRead(names, c, b, None);
      Regroup6([TKeyword(KIf)], [LParen], Text(c), [RParen], BodyText(b), [], ts4);
      Whole(ts4);
    }
  }

  lemma {:induction false} IfRegroup(c: Input, b: Input, k: Input, b2: Input, rest: Input)
    ensures ([TKeyword(KIf)] + ([LParen] + (c + ([RParen] + (b + (k + b2)))))) + rest
         == [TKeyword(KIf)] + ([LParen] + (c + ([RParen] + (b + (k + (b2 + rest))))))
  {
    Regroup6([TKeyword(KIf)], [LParen], c, [RParen], b, k + b2, rest);
    assert (k + b2) + rest == k + (b2 + rest);
  }

  lemma {:induction false} IfRead(names: set<string>, c: SExpr, b: SBody, e: Option<SElse>)
    requires Fits(names, c, 0) && BodyFits(names, b) && (e.Some? ==> BodyFits(names, e.value.body))
    ensures var s := SIf(c, b, e);
      && StmtFits(names, s)
      && StmtOf(names, s) == If(ExprOf(names, c), BlockOf(names, b),
                                match e { case Some(x) => Some(BlockOf(names, x.body)) case None => None })
      && StmtText(s) == [TKeyword(KIf)] + ([LParen] + (Text(c) + ([RParen] + (BodyText(b) +
           (match e { case Some(x) => [TKeyword(x.k)] + BodyText(x.body) case None => [] })))))
  {
    hide Fits, ExprOf, Text, BodyFits, BlockOf, BodyText;
  }

  lemma {:induction false} ForAccepted(names: set<string>, ts: Input) returns (s: SStmt)
    requires Peek(ts) == TKeyword(KFor) && ParseFor(names, ts).Ok?
    ensures var (x, rest) := ParseFor(names, ts).value;
      StmtFits(names, s) && StmtOf(names, s) == x && ts == StmtText(s) + rest
    decreases |ts|, 0
  {
    hide ParseClauses, ParseBlockOrStmt, SimpleFits, SimpleOf, OptionFits, OptionOf, ClausesText, BodyFits, BlockOf, BodyText;
    Uncons(ts, TKeyword(KFor));
    Uncons(Rest(ts), LParen);
    var ts1 := Rest(Rest(ts));
    var i, t, u := ClausesAccepted(names, ts1);
    var ts2 := ParseClauses(names, ts1).value.3;
    var b := BodyAccepted(names, ts2);
    s := SFor(i, t, u, b);
    Regroup4([TKeyword(KFor)], [LParen], ClausesText(i, t, u), BodyText(b), ParseFor(names, ts).value.1);
  }
}
