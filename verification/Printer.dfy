/** A printer with as few parentheses as the grammar allows, and the trees it applies to. */
module Printer {
  import opened Wrappers
  import opened Ast
  import opened Tokens
  import opened Grammar

  // --- tokens for operators and types ---

  function AssignTok(op: BinaryOp): Option<Tok> {
    match op
    case Assign => Some(TAssign)
    case AddAssign => Some(PlusEq)
    case SubAssign => Some(MinusEq)
    case MulAssign => Some(StarEq)
    case DivAssign => Some(SlashEq)
    case _ => None
  }

  function InfixTok(op: BinaryOp): (r: Option<(Tok, nat)>)
    ensures r.Some? ==> 1 <= r.value.1 <= 6 && InfixOp(r.value.0) == Some((op, r.value.1))
  {
    match op
    case Or => Some((OrOr, 1))
    case And => Some((AndAnd, 2))
    case Eq => Some((EqEq, 3))
    case Ne => Some((Neq, 3))
    case Lt => Some((TLt, 4))
    case Le => Some((TLe, 4))
    case Gt => Some((TGt, 4))
    case Ge => Some((TGe, 4))
    case Add => Some((Plus, 5))
    case Sub => Some((Minus, 5))
    case Mul => Some((Star, 6))
    case Div => Some((Slash, 6))
    case Mod => Some((Percent, 6))
    case _ => None
  }

  function PrefixTok(op: UnaryOp): (r: Tok)
    ensures PrefixOp(r) == Some(op)
  {
    match op
    case Neg => Minus
    case Not => Bang
    case BitNot => Tilde
  }

  /** The token of a type: a keyword for scalars and resources, else the displayed word. */
  function TypeTok(ty: Type): Tok {
    match ty
    case Void => TKeyword(KVoid)
    case Scalar(Float) => TKeyword(KFloat)
    case Scalar(Int) => TKeyword(KInt)
    case Scalar(Uint) => TKeyword(KUint)
    case Scalar(Bool) => TKeyword(KBool)
    case Texture2D => TKeyword(KTexture2D)
    case SamplerState => TKeyword(KSamplerState)
    case _ => TIdent(Display(ty))
  }

  /** Types that a single token denotes. */
  predicate TypeOk(names: set<string>, ty: Type) {
    match ty
    case Vector(_, n) => 2 <= n <= 4
    case Matrix(_, r, c) => 1 <= r < TWO_32 && 2 <= c < TWO_32
    case Struct(name) => name in names && DecodeTypeWord(name).None?
    case _ => true
  }

  lemma {:induction false} TypeTokRead(names: set<string>, ty: Type, rest: Input)
    requires TypeOk(names, ty) && Peek(rest) != TLt
    ensures IsTypeTok(names, TypeTok(ty)) && ParseType(names, [TypeTok(ty)] + rest) == Ok((ty, rest))
    ensures TypeTok(ty).TIdent? && !ty.Struct? ==> DecodeTypeWord(TypeTok(ty).s) == Some(ty)
  {
    match ty
    case Vector(k, n) => VectorWordExact(k, n);
    case Matrix(k, r, c) => MatrixWordExact(k, r, c);
    case _ =>
    assert ([TypeTok(ty)] + rest)[1..] == rest;
  }

  // --- levels ---

  /** How tightly a tree binds: 0 assignment, 1 to 6 infix, 7 prefix and cast, 8 member access, 9 the rest. */
  function Level(e: Expr): (l: nat)
    ensures l <= 9
  {
    match e
    case Binary(op, _, _) =>
      if AssignTok(op).Some? then 0 else (match InfixTok(op) { case Some((_, l)) => l case None => 9 })
    case Unary(_, _) => 7
    case Cast(_, _) => 7
    case Member(_, _) => 8
    case MethodCall(_, _, _) => 8
    case _ => 9
  }

  // --- printing ---

  function LitTok(lit: Literal): Tok {
    match lit
    case IntLit(i) => TInt(i)
    case UintLit(u) => TUint(u)
    case FloatLit(f) => TFloat(f)
    case BoolLit(b) => TBool(b)
  }

  /** Print where an expression of level `k` or tighter is expected. */
  function Print(e: Expr, k: nat): (ts: Input)
    ensures ts != []
    decreases e, 1
  {
    if k <= Level(e) then Bare(e) else [LParen] + Bare(e) + [RParen]
  }

  /** Print without outer parentheses. */
  function Bare(e: Expr): (ts: Input)
    ensures ts != []
    decreases e, 0
  {
    match e
    case Lit(lit) => [LitTok(lit)]
    case Ident(name) => [TIdent(name)]
    case Construct(ty, args) => [TypeTok(ty), LParen] + PrintArgs(args) + [RParen]
    case Call(name, args) => [TIdent(name), LParen] + PrintArgs(args) + [RParen]
    case MethodCall(base, callee, args) => Print(base, 8) + ([Dot, TIdent(callee), LParen] + PrintArgs(args) + [RParen])
    case Member(base, member) => Print(base, 8) + [Dot, TIdent(member)]
    case Unary(op, x) => [PrefixTok(op)] + Print(x, 7)
    case Cast(ty, x) => [LParen, TypeTok(ty), RParen] + Print(x, 7)
    case Binary(op, lhs, rhs) =>
      match (AssignTok(op), InfixTok(op))
      case (Some(t), _) => Print(lhs, 1) + ([t] + Print(rhs, 0))
      case (None, Some((t, l))) => Print(lhs, l) + ([t] + Print(rhs, l + 1))
      case _ => [Eof]
  }

  function PrintArgs(args: seq<Expr>): Input
    decreases args, 2
  {
    if args == [] then []
    else if |args| == 1 then Print(args[0], 0)
    else Print(args[0], 0) + ([Comma] + PrintArgs(args[1..]))
  }

  // --- printable trees ---

  /** The parser takes a parenthesis followed by a type for a cast. */
  predicate ParenOk(names: set<string>, e: Expr, k: nat) {
    k <= Level(e) || !IsTypeTok(names, Bare(e)[0])
  }

  /** Trees the grammar can produce: no bitwise operators, constructors of vectors and matrices only, calls of names
      that are not type words, and no parentheses needed around text that starts with a type. */
  predicate Printable(names: set<string>, e: Expr)
    decreases e, 0
  {
    match e
    case Lit(_) => true
    case Ident(_) => true
    case Construct(ty, args) => (ty.Vector? || ty.Matrix?) && TypeOk(names, ty) && PrintableArgs(names, args)
    case Call(name, args) => DecodeTypeWord(name).None? && PrintableArgs(names, args)
    case MethodCall(base, _, args) => Printable(names, base) && ParenOk(names, base, 8) && PrintableArgs(names, args)
    case Member(base, _) => Printable(names, base) && ParenOk(names, base, 8)
    case Unary(_, x) => Printable(names, x) && ParenOk(names, x, 7)
    case Cast(ty, x) => TypeOk(names, ty) && Printable(names, x) && ParenOk(names, x, 7)
    case Binary(op, lhs, rhs) =>
      && (AssignTok(op).Some? || InfixTok(op).Some?)
      && Printable(names, lhs) && Printable(names, rhs)
      && var l := Level(e);
         ParenOk(names, lhs, if l == 0 then 1 else l) && ParenOk(names, rhs, if l == 0 then 0 else l + 1)
  }

  predicate PrintableArgs(names: set<string>, args: seq<Expr>)
    decreases args, 1
  {
    args == [] || (Printable(names, args[0]) && PrintableArgs(names, args[1..]))
  }

  // --- statements ---

  /** A braced block. */
  function PrintBlock(b: Block): Input
    decreases b, 1
  {
    [LBrace] + (PrintStmts(b.stmts) + [RBrace])
  }

  function PrintSemantic(semantic: Option<string>): Input {
    match semantic
    case Some(s) => [Colon, TSemantic(s)]
    case None => []
  }

  function PrintInitial(init: Option<Expr>): Input {
    match init
    case Some(e) => [TAssign] + Print(e, 0)
    case None => []
  }

  function PrintDecl(d: VarDecl): Input {
    [TypeTok(d.ty), TIdent(d.name)]
      + (PrintSemantic(d.semantic) + PrintInitial(d.init))
  }

  /** A declaration or an expression, without its semicolon. */
  function PrintSimple(s: Stmt): Input {
    match s
    case Decl(d) => PrintDecl(d)
    case ExprStmt(e) => Print(e, 0)
    case _ => []
  }

  function PrintOptional(e: Option<Expr>): Input {
    (match e { case Some(x) => Print(x, 0) case None => [] }) + [Semicolon]
  }

  function PrintUpdate(e: Option<Expr>): Input {
    match e
    case Some(x) => Print(x, 0)
    case None => []
  }

  function PrintInit(init: Option<Stmt>): Input {
    (match init { case Some(s) => PrintSimple(s) case None => [] }) + [Semicolon]
  }

  function PrintStmt(s: Stmt): Input
    decreases s, 0
  {
    match s
    case Return(v) => [TKeyword(KReturn)] + PrintOptional(v)
    case Decl(_) => PrintSimple(s) + [Semicolon]
    case ExprStmt(_) => PrintSimple(s) + [Semicolon]
    case If(cond, thenBlock, elseBlock) =>
      [TKeyword(KIf), LParen] + (Print(cond, 0) + ([RParen] + (PrintBlock(thenBlock) + PrintElse(elseBlock))))
    case For(init, test, update, body) =>
      [TKeyword(KFor), LParen]
        + (PrintInit(init) + (PrintOptional(test) + (PrintUpdate(update) + ([RParen] + PrintBlock(body)))))
    case Nested(b) => PrintBlock(b)
  }

  function PrintElse(b: Option<Block>): Input
    decreases b, 2
  {
    match b
    case Some(x) => [TKeyword(KElse)] + PrintBlock(x)
    case None => []
  }

  function PrintStmts(ss: seq<Stmt>): Input
    decreases ss, 0
  {
    if ss == [] then [] else PrintStmt(ss[0]) + PrintStmts(ss[1..])
  }

  predicate DeclOk(names: set<string>, d: VarDecl) {
    TypeOk(names, d.ty) && (d.init.Some? ==> Printable(names, d.init.value))
  }

  predicate SimpleOk(names: set<string>, s: Stmt) {
    match s
    case Decl(d) => DeclOk(names, d)
    case ExprStmt(e) => Printable(names, e)
    case _ => false
  }

  predicate OptionalOk(names: set<string>, e: Option<Expr>) {
    e.Some? ==> Printable(names, e.value)
  }

  /** An `if` without `else`: the parser looks for one behind it. */
  predicate OpenIf(s: Stmt) {
    s.If? && s.elseBlock.None?
  }

  /** Statements the parser can produce from what is printed: as for expressions, loops initialised by a
      declaration or an expression, and no keyword right after an `if` without `else`. */
  predicate StmtOk(names: set<string>, s: Stmt)
    decreases s, 0
  {
    match s
    case Return(v) => OptionalOk(names, v)
    case Decl(_) => SimpleOk(names, s)
    case ExprStmt(_) => SimpleOk(names, s)
    case If(cond, thenBlock, elseBlock) =>
      Printable(names, cond) && StmtsOk(names, thenBlock.stmts)
      && (match elseBlock { case Some(b) => StmtsOk(names, b.stmts) case None => true })
    case For(init, test, update, body) =>
      && (init.Some? ==> SimpleOk(names, init.value))
      && OptionalOk(names, test) && OptionalOk(names, update) && StmtsOk(names, body.stmts)
    case Nested(b) => StmtsOk(names, b.stmts)
  }

  predicate StmtsOk(names: set<string>, ss: seq<Stmt>)
    decreases ss, 1
  {
    ss == [] ||
    (StmtOk(names, ss[0]) && StmtsOk(names, ss[1..])
     && (OpenIf(ss[0]) ==> !Peek(PrintStmts(ss[1..])).TKeyword?))
  }
}
