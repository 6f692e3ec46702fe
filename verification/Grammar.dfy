/** The grammar the parser implements, as functions from the tokens still to be read to a result and what is left.
    The end of input is the empty sequence. Their contracts say that every production terminates and that a
    successful one consumes at least one token, so every loop over productions makes progress. */
module Grammar {
  import opened Wrappers
  import opened Ast
  import opened Tokens

  type Input = seq<Tok>

  function Peek(ts: Input): Tok {
    if ts == [] then Eof else ts[0]
  }

  /** Drop one token, if there is one. */
  function Rest(ts: Input): (r: Input)
    ensures |r| <= |ts|
  {
    if ts == [] then [] else ts[1..]
  }

  /** `eat` compares variants only: wanting one keyword, it takes any. */
  predicate Eats(ts: Input, want: Tok) {
    SameVariant(Peek(ts), want)
  }

  function Expect(ts: Input, want: Tok): (r: Result<Input>)
    ensures r.Ok? && want != Eof ==> |r.value| < |ts|
  {
    if Eats(ts, want) then Ok(Rest(ts)) else Err("unexpected token")
  }

  function ExpectIdent(ts: Input): (r: Result<(string, Input)>)
    ensures r.Ok? ==> |r.value.1| < |ts|
  {
    if Peek(ts).TIdent? then Ok((Peek(ts).s, Rest(ts))) else Err("expected an identifier")
  }

  // --- types ---

  predicate IsTypeKeyword(k: Keyword) {
    k in {KVoid, KFloat, KInt, KUint, KBool, KSamplerState, KTexture2D}
  }

  /** Whether a token can begin a type, given the structs declared so far. */
  predicate IsTypeTok(names: set<string>, t: Tok) {
    match t
    case TKeyword(k) => IsTypeKeyword(k)
    case TIdent(s) => DecodeTypeWord(s).Some? || s in names
    case _ => false
  }

  /** Skip through the next `>`. */
  function SkipUntilGt(ts: Input): (r: Input)
    ensures |r| <= |ts|
  {
    if ts == [] then [] else if ts[0] == TGt then ts[1..] else SkipUntilGt(ts[1..])
  }

  function ParseType(names: set<string>, ts: Input): (r: Result<(Type, Input)>)
    ensures r.Ok? ==> |r.value.1| < |ts| && IsTypeTok(names, Peek(ts))
  {
    match Peek(ts)
    case TKeyword(k) => (
      match k
      case KVoid => Ok((Void, Rest(ts)))
      case KFloat => Ok((Scalar(Float), Rest(ts)))
      case KInt => Ok((Scalar(Int), Rest(ts)))
      case KUint => Ok((Scalar(Uint), Rest(ts)))
      case KBool => Ok((Scalar(Bool), Rest(ts)))
      case KSamplerState => Ok((SamplerState, Rest(ts)))
      case KTexture2D => Ok((Texture2D, if Eats(Rest(ts), TLt) then SkipUntilGt(Rest(Rest(ts))) else Rest(ts)))
      case _ => Err("expected a type"))
    case TIdent(s) =>
      if DecodeTypeWord(s).Some? then Ok((DecodeTypeWord(s).value, Rest(ts)))
      else if s in names then Ok((Struct(s), Rest(ts)))
      else Err("unknown type")
    case _ => Err("expected a type")
  }

  // --- operators ---

  /** Assignment operators. */
  function AssignOp(t: Tok): Option<BinaryOp> {
    match t
    case TAssign => Some(Assign)
    case PlusEq => Some(AddAssign)
    case MinusEq => Some(SubAssign)
    case StarEq => Some(MulAssign)
    case SlashEq => Some(DivAssign)
    case _ => None
  }

  /** Binary operators with their level, 1 (loosest) to 6. */
  function InfixOp(t: Tok): (r: Option<(BinaryOp, nat)>)
    ensures r.Some? ==> 1 <= r.value.1 <= 6
  {
    match t
    case OrOr => Some((Or, 1))
    case AndAnd => Some((And, 2))
    case EqEq => Some((Eq, 3))
    case Neq => Some((Ne, 3))
    case TLt => Some((Lt, 4))
    case TLe => Some((Le, 4))
    case TGt => Some((Gt, 4))
    case TGe => Some((Ge, 4))
    case Plus => Some((Add, 5))
    case Minus => Some((Sub, 5))
    case Star => Some((Mul, 6))
    case Slash => Some((Div, 6))
    case Percent => Some((Mod, 6))
    case _ => None
  }

  function PrefixOp(t: Tok): Option<UnaryOp> {
    match t
    case Minus => Some(Neg)
    case Bang => Some(Not)
    case Tilde => Some(BitNot)
    case _ => None
  }

  // --- expressions ---

  /** Right-associative assignment over the ladder of binary levels. */
  function ParseExpr(names: set<string>, ts: Input): (r: Result<(Expr, Input)>)
    ensures r.Ok? ==> |r.value.1| < |ts|
    decreases |ts|, 20
  {
    var (lhs, ts1) :- ParseLevel(names, 1, ts);
    match AssignOp(Peek(ts1))
    case None => Ok((lhs, ts1))
    case Some(op) =>
      var (rhs, ts2) :- ParseExpr(names, Rest(ts1));
      Ok((Binary(op, lhs, rhs), ts2))
  }

  /** One level of the ladder: operands of the next level, joined to the left. */
  function ParseLevel(names: set<string>, level: nat, ts: Input): (r: Result<(Expr, Input)>)
    requires 1 <= level <= 7
    ensures r.Ok? ==> |r.value.1| < |ts|
    decreases |ts|, 18 - level
  {
    if level == 7 then ParseUnary(names, ts)
    else
      var (lhs, ts1) :- ParseLevel(names, level + 1, ts);
      ParseMore(names, level, lhs, ts1)
  }

  function ParseMore(names: set<string>, level: nat, lhs: Expr, ts: Input): (r: Result<(Expr, Input)>)
    requires 1 <= level <= 6
    ensures r.Ok? ==> |r.value.1| <= |ts|
    decreases |ts|, 19
  {
    match InfixOp(Peek(ts))
    case Some((op, l)) =>
      if l != level then Ok((lhs, ts))
      else
        var (rhs, ts1) :- ParseLevel(names, level + 1, Rest(ts));
        ParseMore(names, level, Binary(op, lhs, rhs), ts1)
    case None => Ok((lhs, ts))
  }

  function ParseUnary(names: set<string>, ts: Input): (r: Result<(Expr, Input)>)
    ensures r.Ok? ==> |r.value.1| < |ts|
    decreases |ts|, 10
  {
    match PrefixOp(Peek(ts))
    case Some(op) =>
      var (x, ts1) :- ParseUnary(names, Rest(ts));
      Ok((Unary(op, x), ts1))
    case None => ParsePostfix(names, ts)
  }

  function ParsePostfix(names: set<string>, ts: Input): (r: Result<(Expr, Input)>)
    ensures r.Ok? ==> |r.value.1| < |ts|
    decreases |ts|, 9
  {
    var (e, ts1) :- ParsePrimary(names, ts);
    ParseMembers(names, e, ts1)
  }

  /** Member accesses and method calls on `e`. */
  function ParseMembers(names: set<string>, e: Expr, ts: Input): (r: Result<(Expr, Input)>)
    ensures r.Ok? ==> |r.value.1| <= |ts|
    decreases |ts|, 7
  {
    if Peek(ts) != Dot then Ok((e, ts))
    else
      var (member, ts1) :- ExpectIdent(Rest(ts));
      if Eats(ts1, LParen) then
        var (args, ts2) :- ParseArgs(names, Rest(ts1));
        var ts3 :- Expect(ts2, RParen);
        ParseMembers(names, MethodCall(e, member, args), ts3)
      else ParseMembers(names, Member(e, member), ts1)
  }

  function ParsePrimary(names: set<string>, ts: Input): (r: Result<(Expr, Input)>)
    ensures r.Ok? ==> |r.value.1| < |ts|
    decreases |ts|, 8
  {
    match Peek(ts)
    case TInt(i) => Ok((Lit(IntLit(i)), Rest(ts)))
    case TUint(u) => Ok((Lit(UintLit(u)), Rest(ts)))
    case TFloat(f) => Ok((Lit(FloatLit(f)), Rest(ts)))
    case TBool(b) => Ok((Lit(BoolLit(b)), Rest(ts)))
    case LParen =>
      if IsTypeTok(names, Peek(Rest(ts))) then
        var (ty, ts1) :- ParseType(names, Rest(ts));
        if Eats(ts1, RParen) then
          var (x, ts2) :- ParseUnary(names, Rest(ts1));
          Ok((Cast(ty, x), ts2))
        else ParseInner(names, ts1)
      else ParseInner(names, Rest(ts))
    case TIdent(s) =>
      if Eats(Rest(ts), LParen) then
        var (args, ts1) :- ParseArgs(names, Rest(Rest(ts)));
        var ts2 :- Expect(ts1, RParen);
        Ok((if DecodeTypeWord(s).Some? then Construct(DecodeTypeWord(s).value, args) else Call(s, args), ts2))
      else Ok((Ident(s), Rest(ts)))
    case _ => Err("expected an expression")
  }

  /** What stands between parentheses, and the closing one. */
  function ParseInner(names: set<string>, ts: Input): (r: Result<(Expr, Input)>)
    ensures r.Ok? ==> |r.value.1| < |ts|
    decreases |ts|, 21
  {
    var (e, ts1) :- ParseExpr(names, ts);
    var ts2 :- Expect(ts1, RParen);
    Ok((e, ts2))
  }

  function ParseArgs(names: set<string>, ts: Input): (r: Result<(seq<Expr>, Input)>)
    ensures r.Ok? ==> |r.value.1| <= |ts|
    decreases |ts|, 22
  {
    if Peek(ts) == RParen then Ok(([], ts)) else ParseArgList(names, ts)
  }

  function ParseArgList(names: set<string>, ts: Input): (r: Result<(seq<Expr>, Input)>)
    ensures r.Ok? ==> |r.value.1| < |ts|
    decreases |ts|, 21
  {
    var (e, ts1) :- ParseExpr(names, ts);
    if Eats(ts1, Comma) then
      var (es, ts2) :- ParseArgList(names, Rest(ts1));
      Ok(([e] + es, ts2))
    else Ok(([e], ts1))
  }

  // --- statements ---

  /** A type followed by an identifier. */
  predicate LooksLikeVarDecl(names: set<string>, ts: Input) {
    IsTypeTok(names, Peek(ts)) && Peek(Rest(ts)).TIdent?
  }

  /** `: SEMANTIC`; whatever token follows the colon is consumed. */
  function ParseSemantic(ts: Input): (r: (Option<string>, Input))
    ensures |r.1| <= |ts|
  {
    if !Eats(ts, Colon) then (None, ts)
    else match Peek(Rest(ts))
      case TSemantic(s) => (Some(s), Rest(Rest(ts)))
      case TIdent(s) => (Some(s), Rest(Rest(ts)))
      case _ => (None, Rest(Rest(ts)))
  }

  function ParseVarDecl(names: set<string>, ts: Input): (r: Result<(VarDecl, Input)>)
    ensures r.Ok? ==> |r.value.1| < |ts|
  {
    var (ty, ts1) :- ParseType(names, ts);
    var (name, ts2) :- ExpectIdent(ts1);
    var (semantic, ts3) := ParseSemantic(ts2);
    if Eats(ts3, TAssign) then
      var (e, ts4) :- ParseExpr(names, Rest(ts3));
      Ok((VarDecl(ty, name, Some(e), semantic), ts4))
    else Ok((VarDecl(ty, name, None, semantic), ts3))
  }

  /** A declaration or an expression, without its semicolon. */
  function ParseSimple(names: set<string>, ts: Input): (r: Result<(Stmt, Input)>)
    ensures r.Ok? ==> |r.value.1| < |ts|
  {
    if LooksLikeVarDecl(names, ts) then
      var (d, ts1) :- ParseVarDecl(names, ts);
      Ok((Decl(d), ts1))
    else
      var (e, ts1) :- ParseExpr(names, ts);
      Ok((ExprStmt(e), ts1))
  }

  /** An expression and its semicolon, unless there is only the semicolon. */
  function ParseOptional(names: set<string>, ts: Input): (r: Result<(Option<Expr>, Input)>)
    ensures r.Ok? ==> |r.value.1| < |ts|
  {
    if Eats(ts, Semicolon) then Ok((None, Rest(ts)))
    else
      var (e, ts1) :- ParseExpr(names, ts);
      var ts2 :- Expect(ts1, Semicolon);
      Ok((Some(e), ts2))
  }

  function ParseStmt(names: set<string>, ts: Input): (r: Result<(Stmt, Input)>)
    ensures r.Ok? ==> |r.value.1| < |ts|
    decreases |ts|, 1
  {
    match Peek(ts)
    case TKeyword(KReturn) =>
      var (v, ts1) :- ParseOptional(names, Rest(ts));
      Ok((Return(v), ts1))
    case TKeyword(KIf) => ParseIf(names, ts)
    case TKeyword(KFor) => ParseFor(names, ts)
    case LBrace =>
      var (b, ts1) :- ParseBraced(names, Rest(ts));
      Ok((Nested(b), ts1))
    case _ =>
      var (s, ts1) :- ParseSimple(names, ts);
      var ts2 :- Expect(ts1, Semicolon);
      Ok((s, ts2))
  }

  function ParseIf(names: set<string>, ts: Input): (r: Result<(Stmt, Input)>)
    requires ts != []
    ensures r.Ok? ==> |r.value.1| < |ts|
    decreases |ts|, 0
  {
    var ts1 :- Expect(Rest(ts), LParen);
    var (cond, ts2) :- ParseExpr(names, ts1);
    var ts3 :- Expect(ts2, RParen);
    var (thenBlock, ts4) :- ParseBlockOrStmt(names, ts3);
    if Eats(ts4, TKeyword(KElse)) then
      var (elseBlock, ts5) :- ParseBlockOrStmt(names, Rest(ts4));
      Ok((If(cond, thenBlock, Some(elseBlock)), ts5))
    else Ok((If(cond, thenBlock, None), ts4))
  }

  /** The three clauses of a loop, each optional, and the closing parenthesis. */
  function ParseClauses(names: set<string>, ts: Input): (r: Result<(Option<Stmt>, Option<Expr>, Option<Expr>, Input)>)
    ensures r.Ok? ==> |r.value.3| < |ts|
  {
    var (init, ts2) :- ParseInit(names, ts);
    var (test, ts3) :- ParseOptional(names, ts2);
    var (update, ts4) :- ParseUpdate(names, ts3);
    var ts5 :- Expect(ts4, RParen);
    Ok((init, test, update, ts5))
  }

  function ParseInit(names: set<string>, ts: Input): (r: Result<(Option<Stmt>, Input)>)
    ensures r.Ok? ==> |r.value.1| < |ts|
  {
    if Eats(ts, Semicolon) then Ok((None, Rest(ts)))
    else
      var (s, ts1) :- ParseSimple(names, ts);
      var ts2 :- Expect(ts1, Semicolon);
      Ok((Some(s), ts2))
  }

  function ParseUpdate(names: set<string>, ts: Input): (r: Result<(Option<Expr>, Input)>)
    ensures r.Ok? ==> |r.value.1| <= |ts|
  {
    if Peek(ts) == RParen then Ok((None, ts))
    else
      var (e, ts1) :- ParseExpr(names, ts);
      Ok((Some(e), ts1))
  }

  function ParseFor(names: set<string>, ts: Input): (r: Result<(Stmt, Input)>)
    requires ts != []
    ensures r.Ok? ==> |r.value.1| < |ts|
    decreases |ts|, 0
  {
    var ts1 :- Expect(Rest(ts), LParen);
    var (init, test, update, ts2) :- ParseClauses(names, ts1);
    var (body, ts3) :- ParseBlockOrStmt(names, ts2);
    Ok((For(init, test, update, body), ts3))
  }

  /** A braced block, or one statement standing for a block. */
  function ParseBlockOrStmt(names: set<string>, ts: Input): (r: Result<(Block, Input)>)
    ensures r.Ok? ==> |r.value.1| < |ts|
    decreases |ts|, 3
  {
    if Eats(ts, LBrace) then ParseBraced(names, Rest(ts))
    else
      var (s, ts1) :- ParseStmt(names, ts);
      Ok((Block([s]), ts1))
  }

  /** Statements up to the closing brace. */
  function ParseBraced(names: set<string>, ts: Input): (r: Result<(Block, Input)>)
    ensures r.Ok? ==> |r.value.1| < |ts|
    decreases |ts|, 3
  {
    var (ss, ts1) :- ParseStmts(names, ts);
    var ts2 :- Expect(ts1, RBrace);
    Ok((Block(ss), ts2))
  }

  /** Statements up to a closing brace or the end of input. */
  function ParseStmts(names: set<string>, ts: Input): (r: Result<(seq<Stmt>, Input)>)
    ensures r.Ok? ==> |r.value.1| <= |ts|
    decreases |ts|, 2
  {
    if Peek(ts) in {RBrace, Eof} then Ok(([], ts))
    else
      var (s, ts1) :- ParseStmt(names, ts);
      var (ss, ts2) :- ParseStmts(names, ts1);
      Ok(([s] + ss, ts2))
  }

  // --- top-level declarations ---

  /** A member of a struct or constant buffer, or a parameter. */
  datatype Field = Field(ty: Type, name: string, semantic: Option<string>)

  datatype TopDecl =
    | StructDecl(name: string, members: seq<Field>)
    | CBufferDecl(name: string, register: Option<string>, members: seq<Field>)
    | FunctionDecl(ty: Type, name: string, params: seq<Field>, semantic: Option<string>, body: Option<Block>)
    | GlobalVarDecl(ty: Type, name: string, register: Option<string>)

  /** Skip through the next `)`. */
  function SkipUntilRParen(ts: Input): (r: Input)
    ensures |r| <= |ts|
  {
    if ts == [] then [] else if ts[0] == RParen then ts[1..] else SkipUntilRParen(ts[1..])
  }

  /** `: register(b0)`. What does not fit is dropped as far as it was read, and no error is reported. */
  function ParseRegister(ts: Input): (r: (Option<string>, Input))
    ensures |r.1| <= |ts|
  {
    if !Eats(ts, Colon) then (None, ts)
    else if !Eats(Rest(ts), TKeyword(KRegister)) then (None, Rest(ts))
    else
      var ts1 := Rest(Rest(ts));
      if !Eats(ts1, LParen) then (None, ts1)
      else
        var t := Peek(Rest(ts1));
        (if t.TIdent? then Some(t.s) else None, SkipUntilRParen(Rest(Rest(ts1))))
  }

  /** A type, a name, an optional semantic. */
  function ParseField(names: set<string>, ts: Input): (r: Result<(Field, Input)>)
    ensures r.Ok? ==> |r.value.1| < |ts|
  {
    var (ty, ts1) :- ParseType(names, ts);
    var (name, ts2) :- ExpectIdent(ts1);
    var (semantic, ts3) := ParseSemantic(ts2);
    Ok((Field(ty, name, semantic), ts3))
  }

  /** Members, each with its semicolon, and the closing brace. */
  function ParseFields(names: set<string>, ts: Input): (r: Result<(seq<Field>, Input)>)
    ensures r.Ok? ==> |r.value.1| < |ts|
    decreases |ts|
  {
    if Eats(ts, RBrace) then Ok(([], Rest(ts)))
    else
      var (f, ts1) :- ParseField(names, ts);
      var ts2 :- Expect(ts1, Semicolon);
      var (fs, ts3) :- ParseFields(names, ts2);
      Ok(([f] + fs, ts3))
  }

  function ParseStruct(names: set<string>, ts: Input): (r: Result<(TopDecl, Input)>)
    ensures r.Ok? ==> |r.value.1| < |ts| && r.value.0.StructDecl?
  {
    var ts1 :- Expect(ts, TKeyword(KStruct));
    var (name, ts2) :- ExpectIdent(ts1);
    var ts3 :- Expect(ts2, LBrace);
    var (members, ts4) :- ParseFields(names, ts3);
    var ts5 :- Expect(ts4, Semicolon);
    Ok((StructDecl(name, members), ts5))
  }

  function ParseCBuffer(names: set<string>, ts: Input): (r: Result<(TopDecl, Input)>)
    ensures r.Ok? ==> |r.value.1| < |ts| && r.value.0.CBufferDecl?
  {
    var ts1 :- Expect(ts, TKeyword(KCBuffer));
    var (name, ts2) :- ExpectIdent(ts1);
    var (register, ts3) := ParseRegister(ts2);
    var ts4 :- Expect(ts3, LBrace);
    var (members, ts5) :- ParseFields(names, ts4);
    var ts6 :- Expect(ts5, Semicolon);
    Ok((CBufferDecl(name, register, members), ts6))
  }

  const MODIFIERS: set<string> := {"in", "out", "inout", "uniform"}

  /** Parameter modifiers are ordinary words, read and dropped. */
  function SkipModifier(ts: Input): (r: Input)
    ensures |r| <= |ts|
  {
    if Peek(ts).TIdent? && Peek(ts).s in MODIFIERS then Rest(ts) else ts
  }

  function ParseParams(names: set<string>, ts: Input): (r: Result<(seq<Field>, Input)>)
    ensures r.Ok? ==> |r.value.1| <= |ts|
  {
    if Peek(ts) == RParen then Ok(([], ts)) else ParseParamList(names, ts)
  }

  function ParseParamList(names: set<string>, ts: Input): (r: Result<(seq<Field>, Input)>)
    ensures r.Ok? ==> |r.value.1| < |ts|
    decreases |ts|
  {
    var (f, ts1) :- ParseField(names, SkipModifier(ts));
    if Eats(ts1, Comma) then
      var (fs, ts2) :- ParseParamList(names, Rest(ts1));
      Ok(([f] + fs, ts2))
    else Ok(([f], ts1))
  }

  /** What follows the opening parenthesis of a function: parameters, semantic, and a body unless a semicolon. */
  function ParseSignature(names: set<string>, ts: Input): (r: Result<((seq<Field>, Option<string>, Option<Block>), Input)>)
    ensures r.Ok? ==> |r.value.1| < |ts|
  {
    var (params, ts1) :- ParseParams(names, ts);
    var ts2 :- Expect(ts1, RParen);
    var (semantic, ts3) := ParseSemantic(ts2);
    if Eats(ts3, Semicolon) then Ok(((params, semantic, None), Rest(ts3)))
    else
      var ts4 :- Expect(ts3, LBrace);
      var (body, ts5) :- ParseBraced(names, ts4);
      Ok(((params, semantic, Some(body)), ts5))
  }

  function ParseFunctionOrGlobal(names: set<string>, ts: Input): (r: Result<(TopDecl, Input)>)
    ensures r.Ok? ==> |r.value.1| < |ts| && !r.value.0.StructDecl?
  {
    var (ty, ts1) :- ParseType(names, ts);
    var (name, ts2) :- ExpectIdent(ts1);
    match Peek(ts2)
    case LParen =>
      var ((params, semantic, body), ts3) :- ParseSignature(names, Rest(ts2));
      Ok((FunctionDecl(ty, name, params, semantic, body), ts3))
    case Colon =>
      var (register, ts3) := ParseRegister(ts2);
      var ts4 :- Expect(ts3, Semicolon);
      Ok((GlobalVarDecl(ty, name, register), ts4))
    case Semicolon => Ok((GlobalVarDecl(ty, name, None), Rest(ts2)))
    case _ => Err("expected `(`, `:` or `;`")
  }

  /** One declaration. It consumes at least one token. */
  function ParseDecl(names: set<string>, ts: Input): (r: Result<(TopDecl, Input)>)
    ensures r.Ok? ==> |r.value.1| < |ts|
  {
    match Peek(ts)
    case TKeyword(KStruct) => ParseStruct(names, ts)
    case TKeyword(KCBuffer) => ParseCBuffer(names, ts)
    case _ => ParseFunctionOrGlobal(names, ts)
  }

  /** A struct can be named from the next declaration on. */
  function NamesAfter(names: set<string>, d: TopDecl): set<string> {
    if d.StructDecl? then names + {d.name} else names
  }

  /** The structs among declarations. */
  function StructNames(ds: seq<TopDecl>): set<string> {
    set i | 0 <= i < |ds| && ds[i].StructDecl? :: ds[i].name
  }

  /** A translation unit: declarations up to the end of input. Each consumes a token, so there are at most as many as
      tokens; and the structs known at the end are exactly those declared. */
  function ParseUnit(names: set<string>, ts: Input): (r: Result<(seq<TopDecl>, set<string>)>)
    ensures r.Ok? ==> |r.value.0| <= |ts| && (ts != [] ==> r.value.0 != [])
    ensures r.Ok? ==> r.value.1 == names + StructNames(r.value.0)
    decreases |ts|
  {
    if ts == [] then
      assert names + StructNames([]) == names;
      Ok(([], names))
    else
      var (d, ts1) :- ParseDecl(names, ts);
      var (ds, names1) :- ParseUnit(NamesAfter(names, d), ts1);
      StructNamesCons(d, ds);
      Ok(([d] + ds, names1))
  }

  lemma {:induction false} StructNamesCons(d: TopDecl, ds: seq<TopDecl>)
    ensures StructNames([d] + ds) == (if d.StructDecl? then {d.name} else {}) + StructNames(ds)
  {
    var all := [d] + ds;
    forall x ensures x in StructNames(all) <==> x in (if d.StructDecl? then {d.name} else {}) + StructNames(ds) {
      if x in StructNames(ds) {
        var i :| 0 <= i < |ds| && ds[i].StructDecl? && ds[i].name == x;
        assert all[i + 1] == ds[i];
      }
      if d.StructDecl? && x == d.name {
        assert all[0] == d;
      }
    }
  }
}
