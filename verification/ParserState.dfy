/** The parser as it is written: a cursor over a token list that ends in `Eof`. Each method is proved to compute the
    production of Grammar with the same name on the tokens still to be read, and never to move past the `Eof`. */
module ParserState {
  import opened Wrappers
  import opened Ast
  import opened Tokens
  import G = Grammar
  import opened Grammar

  class Parser {
    const toks: seq<Tok>
    var idx: nat
    /** Structs declared so far. */
    var structNames: set<string>

    constructor (toks: seq<Tok>)
      requires |toks| > 0 && toks[|toks| - 1] == Eof && Eof !in toks[..|toks| - 1]
      ensures Valid() && Left() == toks[..|toks| - 1] && this.toks == toks && structNames == {}
    {
      this.toks, structNames, idx := toks, {}, 0;
    }

    ghost predicate Valid()
      reads this`idx
    {
      idx < |toks| && toks[|toks| - 1] == Eof && Eof !in toks[..|toks| - 1]
    }

    /** The tokens still to be read, without the final `Eof`. */
    ghost function Left(): Input
      reads this`idx
      requires Valid()
    {
      toks[idx..|toks| - 1]
    }

    /** Value and remaining tokens of a method against its production. */
    ghost predicate Same<T>(r: Result<T>, spec: Result<(T, Input)>)
      reads this`idx
      requires Valid()
    {
      match spec
      case Ok((v, rest)) => r == Ok(v) && Left() == rest
      case Err(_) => r.Err?
    }

    ghost predicate Done(r: Result<()>, spec: Result<Input>)
      reads this`idx
      requires Valid()
    {
      match spec
      case Ok(rest) => r.Ok? && Left() == rest
      case Err(_) => r.Err?
    }

    lemma {:induction false} LeftFacts()
      requires Valid()
      ensures toks[idx] == G.Peek(Left()) && (toks[idx] == Eof <==> Left() == [])
      ensures |Left()| == |toks| - 1 - idx
    {
      if idx < |toks| - 1 {
        assert toks[idx] == toks[..|toks| - 1][idx];
      }
    }

    // --- token helpers ---

    function Peek(): (t: Tok)
      reads this`idx
      requires Valid()
      ensures t == G.Peek(Left())
    {
      LeftFacts();
      toks[idx]
    }

    method Bump() returns (t: Tok)
      requires Valid()
      modifies this`idx
      ensures Valid() && t == G.Peek(old(Left())) && Left() == Rest(old(Left()))
      ensures idx <= old(idx) + 1
    {
      LeftFacts();
      t := toks[idx];
      if t != Eof {
        idx := idx + 1;
      }
    }

    method Eat(want: Tok) returns (ate: bool)
      requires Valid()
      modifies this`idx
      ensures Valid() && ate == Eats(old(Left()), want)
      ensures Left() == if ate then Rest(old(Left())) else old(Left())
    {
      if SameVariant(Peek(), want) {
        var _ := Bump();
        return true;
      }
      return false;
    }

    method Expect(want: Tok) returns (r: Result<()>)
      requires Valid()
      modifies this`idx
      ensures Valid() && Done(r, G.Expect(old(Left()), want)) && (r.Err? ==> Left() == old(Left()))
    {
      if SameVariant(Peek(), want) {
        var _ := Bump();
        return Ok(());
      }
      return Err("unexpected token");
    }

    method ExpectIdent() returns (r: Result<string>)
      requires Valid()
      modifies this`idx
      ensures Valid() && Same(r, G.ExpectIdent(old(Left())))
    {
      var t := Bump();
      if t.TIdent? {
        return Ok(t.s);
      }
      return Err("expected an identifier");
    }

    // --- types ---

    function PeekIsType(): (b: bool)
      reads this`idx, this`structNames
      requires Valid()
      ensures b == IsTypeTok(structNames, G.Peek(Left()))
    {
      IsTypeTok(structNames, Peek())
    }

    method SkipUntilGt()
      requires Valid()
      modifies this`idx
      ensures Valid() && Left() == G.SkipUntilGt(old(Left()))
    {
      while Peek() !in {TGt, Eof}
        invariant Valid() && G.SkipUntilGt(Left()) == G.SkipUntilGt(old(Left()))
        decreases |toks| - idx
      {
        LeftFacts();
        var _ := Bump();
        LeftFacts();
      }
      LeftFacts();
      if Peek() == TGt {
        var _ := Bump();
      }
    }

    method ParseType() returns (r: Result<Type>)
      requires Valid()
      modifies this`idx
      ensures Valid() && Same(r, G.ParseType(structNames, old(Left())))
    {
      var t := Bump();
      match t
      case TKeyword(KVoid) => return Ok(Void);
      case TKeyword(KFloat) => return Ok(Scalar(Float));
      case TKeyword(KInt) => return Ok(Scalar(Int));
      case TKeyword(KUint) => return Ok(Scalar(Uint));
      case TKeyword(KBool) => return Ok(Scalar(Bool));
      case TKeyword(KSamplerState) => return Ok(SamplerState);
      case TKeyword(KTexture2D) =>
        var element := Eat(TLt);
        if element {
          SkipUntilGt();
        }
        return Ok(Texture2D);
      case TIdent(s) =>
        var ty := DecodeTypeWord(s);
        if ty.Some? {
          return Ok(ty.value);
        }
        if s in structNames {
          return Ok(Struct(s));
        }
        return Err("unknown type");
      case _ => return Err("expected a type");
    }

    // --- expressions ---

    method ParseExpr() returns (r: Result<Expr>)
      requires Valid()
      modifies this`idx
      decreases |toks| - idx, 20
      ensures Valid() && Same(r, G.ParseExpr(structNames, old(Left())))
    {
      LeftFacts();
      var lhs :- ParseLevel(1);
      LeftFacts();
      var op := AssignOp(Peek());
      if op.None? {
        return Ok(lhs);
      }
      var _ := Bump();
      LeftFacts();
      var rhs :- ParseExpr();
      return Ok(Binary(op.value, lhs, rhs));
    }

    /** The six methods from `parse_or` to `parse_mul` differ in their operators only: these are their levels. */
    method ParseLevel(level: nat) returns (r: Result<Expr>)
      requires Valid() && 1 <= level <= 7
      modifies this`idx
      decreases |toks| - idx, 18 - level
      ensures Valid() && Same(r, G.ParseLevel(structNames, level, old(Left())))
    {
      hide G.ParseUnary, Left, Valid, InfixOp;
      if level == 7 {
        r := ParseUnary();
        return;
      }
      ghost var start := Left();
      LeftFacts();
      var lhs :- ParseLevel(level + 1);
      LeftFacts();
      while InfixOp(Peek()).Some? && InfixOp(Peek()).value.1 == level
        invariant Valid() && |Left()| < |start|
        invariant G.ParseLevel(structNames, level, start) == ParseMore(structNames, level, lhs, Left())
        decreases |toks| - idx
      {
        LeftFacts();
        var op := InfixOp(Peek()).value.0;
        var _ := Bump();
        LeftFacts();
        var rhs :- ParseLevel(level + 1);
        LeftFacts();
        lhs := Binary(op, lhs, rhs);
      }
      return Ok(lhs);
    }

    method ParseUnary() returns (r: Result<Expr>)
      requires Valid()
      modifies this`idx
      decreases |toks| - idx, 10
      ensures Valid() && Same(r, G.ParseUnary(structNames, old(Left())))
    {
      LeftFacts();
      var op := PrefixOp(Peek());
      if op.None? {
        r := ParsePostfix();
        return;
      }
      var _ := Bump();
      LeftFacts();
      var x :- ParseUnary();
      return Ok(Unary(op.value, x));
    }

    method ParsePostfix() returns (r: Result<Expr>)
      requires Valid()
      modifies this`idx
      decreases |toks| - idx, 9
      ensures Valid() && Same(r, G.ParsePostfix(structNames, old(Left())))
    {
      hide G.ParsePrimary, G.ParseArgs, Left, Valid;
      ghost var start := Left();
      LeftFacts();
      var e :- ParsePrimary();
      LeftFacts();
      while Peek() == Dot
        invariant Valid() && |Left()| < |start|
        invariant G.ParsePostfix(structNames, start) == ParseMembers(structNames, e, Left())
        decreases |toks| - idx
      {
        LeftFacts();
        var _ := Bump();
        LeftFacts();
        var member :- ExpectIdent();
        LeftFacts();
        var call := Eat(LParen);
        LeftFacts();
        if call {
          var args :- ParseArgs();
          LeftFacts();
          var _ :- Expect(RParen);
          LeftFacts();
          e := MethodCall(e, member, args);
        } else {
          e := Member(e, member);
        }
      }
      return Ok(e);
    }

    method ParsePrimary() returns (r: Result<Expr>)
      requires Valid()
      modifies this`idx
      decreases |toks| - idx, 8
      ensures Valid() && Same(r, G.ParsePrimary(structNames, old(Left())))
    {
      LeftFacts();
      var t := Peek();
      match t
      case TInt(i) =>
        var _ := Bump();
        return Ok(Lit(IntLit(i)));
      case TUint(u) =>
        var _ := Bump();
        return Ok(Lit(UintLit(u)));
      case TFloat(f) =>
        var _ := Bump();
        return Ok(Lit(FloatLit(f)));
      case TBool(b) =>
        var _ := Bump();
        return Ok(Lit(BoolLit(b)));
      case LParen => r := ParseParen();
      case TIdent(s) => r := ParseNamed();
      case _ => return Err("expected an expression");
    }

    /** A call, a constructor or a name. */
    method ParseNamed() returns (r: Result<Expr>)
      requires Valid() && Peek().TIdent?
      modifies this`idx
      decreases |toks| - idx, 7
      ensures Valid() && Same(r, G.ParsePrimary(structNames, old(Left())))
    {
      hide G.ParseArgs, Left, Valid, DecodeTypeWord;
      LeftFacts();
      var t := Bump();
      LeftFacts();
      var call := Eat(LParen);
      LeftFacts();
      if call {
        var args :- ParseArgs();
        var _ :- Expect(RParen);
        var ty := DecodeTypeWord(t.s);
        if ty.Some? {
          return Ok(Construct(ty.value, args));
        }
        return Ok(Call(t.s, args));
      }
      return Ok(Ident(t.s));
    }

    /** A cast, or an expression in parentheses. */
    method ParseParen() returns (r: Result<Expr>)
      requires Valid() && Peek() == LParen
      modifies this`idx
      decreases |toks| - idx, 7
      ensures Valid() && Same(r, G.ParsePrimary(structNames, old(Left())))
    {
      hide G.ParseExpr, G.ParseUnary, G.ParseInner, G.ParseType, G.ParseArgs, Left, Valid;
      LeftFacts();
      var _ := Bump();
      LeftFacts();
      if PeekIsType() {
        var ty :- ParseType();
        LeftFacts();
        var cast := Eat(RParen);
        LeftFacts();
        if cast {
          var x :- ParseUnary();
          return Ok(Cast(ty, x));
        }
      }
      r := ParseInner();
    }

    method ParseInner() returns (r: Result<Expr>)
      requires Valid()
      modifies this`idx
      decreases |toks| - idx, 21
      ensures Valid() && Same(r, G.ParseInner(structNames, old(Left())))
    {
      hide G.ParseExpr, Left, Valid;
      var e :- ParseExpr();
      var _ :- Expect(RParen);
      return Ok(e);
    }

    method ParseArgs() returns (r: Result<seq<Expr>>)
      requires Valid()
      modifies this`idx
      decreases |toks| - idx, 22
      ensures Valid() && Same(r, G.ParseArgs(structNames, old(Left())))
    {
      if Peek() == RParen {
        return Ok([]);
      }
      ghost var start := Left();
      var args: seq<Expr> := [];
      var more := true;
      PrependNothing(ParseArgList(structNames, start));
      while more
        invariant Valid() && |Left()| <= |start|
        invariant more ==> ParseArgList(structNames, start) == Prepend(args, ParseArgList(structNames, Left()))
        invariant !more ==> ParseArgList(structNames, start) == Ok((args, Left()))
        decreases more, |toks| - idx
      {
        LeftFacts();
        var e :- ParseExpr();
        LeftFacts();
        more := Eat(Comma);
        LeftFacts();
        if more {
          PrependTwice(args, [e], ParseArgList(structNames, Left()));
        }
        args := args + [e];
      }
      return Ok(args);
    }

    // --- statements ---

    method ParseSemantic() returns (r: Option<string>)
      requires Valid()
      modifies this`idx
      ensures Valid() && (r, Left()) == G.ParseSemantic(old(Left()))
    {
      var colon := Eat(Colon);
      if !colon {
        return None;
      }
      var t := Bump();
      match t
      case TSemantic(s) => return Some(s);
      case TIdent(s) => return Some(s);
      case _ => return None;
    }

    method ParseVarDecl() returns (r: Result<VarDecl>)
      requires Valid()
      modifies this`idx
      ensures Valid() && Same(r, G.ParseVarDecl(structNames, old(Left())))
    {
      var ty :- ParseType();
      var name :- ExpectIdent();
      var semantic := ParseSemantic();
      var hasInit := Eat(TAssign);
      if hasInit {
        var e :- ParseExpr();
        return Ok(VarDecl(ty, name, Some(e), semantic));
      }
      return Ok(VarDecl(ty, name, None, semantic));
    }

    /** The token after the type is within the list: the cursor is not at the `Eof`. */
    function LooksLikeVarDecl(): (b: bool)
      reads this`idx, this`structNames
      requires Valid()
      ensures b == G.LooksLikeVarDecl(structNames, Left())
    {
      LeftFacts();
      if !PeekIsType() then false
      else
        assert idx + 1 < |toks|;
        NextToken();
        toks[idx + 1].TIdent?
    }

    lemma {:induction false} NextToken()
      requires Valid() && idx + 1 < |toks|
      ensures toks[idx + 1] == G.Peek(Rest(Left()))
    {
      LeftFacts();
      if idx + 1 < |toks| - 1 {
        assert Left()[1] == toks[idx + 1];
      }
    }

    method ParseSimple() returns (r: Result<Stmt>)
      requires Valid()
      modifies this`idx
      ensures Valid() && Same(r, G.ParseSimple(structNames, old(Left())))
    {
      if LooksLikeVarDecl() {
        var d :- ParseVarDecl();
        return Ok(Decl(d));
      }
      var e :- ParseExpr();
      return Ok(ExprStmt(e));
    }

    method ParseOptional() returns (r: Result<Option<Expr>>)
      requires Valid()
      modifies this`idx
      ensures Valid() && Same(r, G.ParseOptional(structNames, old(Left())))
    {
      var none := Eat(Semicolon);
      if none {
        return Ok(None);
      }
      var e :- ParseExpr();
      var _ :- Expect(Semicolon);
      return Ok(Some(e));
    }

    method ParseStmt() returns (r: Result<Stmt>)
      requires Valid()
      modifies this`idx
      decreases |toks| - idx, 2
      ensures Valid() && Same(r, G.ParseStmt(structNames, old(Left())))
    {
      hide G.ParseIf, G.ParseFor, G.ParseSimple, G.ParseOptional, G.ParseBraced, Left, Valid;
      var t := Peek();
      if t == TKeyword(KReturn) {
        r := ParseReturn();
      } else if t == TKeyword(KIf) {
        r := ParseIf();
      } else if t == TKeyword(KFor) {
        r := ParseFor();
      } else if t == LBrace {
        LeftFacts();
        var _ := Bump();
        LeftFacts();
        var b :- ParseBraced();
        return Ok(Nested(b));
      } else {
        r := ParseSimpleStmt();
      }
    }

    method ParseReturn() returns (r: Result<Stmt>)
      requires Valid() && Peek() == TKeyword(KReturn)
      modifies this`idx
      ensures Valid() && Same(r, G.ParseStmt(structNames, old(Left())))
    {
      hide G.ParseOptional, Left, Valid;
      var _ := Bump();
      var v :- ParseOptional();
      return Ok(Return(v));
    }

    method ParseSimpleStmt() returns (r: Result<Stmt>)
      requires Valid() && Peek() !in {TKeyword(KReturn), TKeyword(KIf), TKeyword(KFor), LBrace}
      modifies this`idx
      ensures Valid() && Same(r, G.ParseStmt(structNames, old(Left())))
    {
      hide G.ParseSimple, Left, Valid;
      var s :- ParseSimple();
      var _ :- Expect(Semicolon);
      return Ok(s);
    }

    method ParseIf() returns (r: Result<Stmt>)
      requires Valid() && Peek() == TKeyword(KIf)
      modifies this`idx
      decreases |toks| - idx, 1
      ensures old(Left()) != [] && Valid() && Same(r, G.ParseIf(structNames, old(Left())))
    {
      hide G.ParseBlockOrStmt, G.ParseExpr;
      LeftFacts();
      var _ := Bump();
      LeftFacts();
      var _ :- Expect(LParen);
      var cond :- ParseExpr();
      var _ :- Expect(RParen);
      LeftFacts();
      var thenBlock :- ParseBlockOrStmt();
      LeftFacts();
      var otherwise := Eat(TKeyword(KElse));
      LeftFacts();
      if otherwise {
        var elseBlock :- ParseBlockOrStmt();
        return Ok(If(cond, thenBlock, Some(elseBlock)));
      }
      return Ok(If(cond, thenBlock, None));
    }

    method ParseFor() returns (r: Result<Stmt>)
      requires Valid() && Peek() == TKeyword(KFor)
      modifies this`idx
      decreases |toks| - idx, 1
      ensures old(Left()) != [] && Valid() && Same(r, G.ParseFor(structNames, old(Left())))
    {
      hide G.ParseBlockOrStmt, G.ParseInit, G.ParseOptional, G.ParseUpdate, Left, Valid;
      LeftFacts();
      var _ := Bump();
      LeftFacts();
      var _ :- Expect(LParen);
      var init :- ParseInit();
      var test :- ParseOptional();
      var update :- ParseUpdate();
      var _ :- Expect(RParen);
      LeftFacts();
      var body :- ParseBlockOrStmt();
      return Ok(For(init, test, update, body));
    }

    method ParseInit() returns (r: Result<Option<Stmt>>)
      requires Valid()
      modifies this`idx
      ensures Valid() && Same(r, G.ParseInit(structNames, old(Left())))
    {
      hide G.ParseSimple, Left, Valid;
      var none := Eat(Semicolon);
      if none {
        return Ok(None);
      }
      var s :- ParseSimple();
      var _ :- Expect(Semicolon);
      return Ok(Some(s));
    }

    method ParseUpdate() returns (r: Result<Option<Expr>>)
      requires Valid()
      modifies this`idx
      ensures Valid() && Same(r, G.ParseUpdate(structNames, old(Left())))
    {
      hide G.ParseExpr, Left, Valid;
      if Peek() == RParen {
        return Ok(None);
      }
      var e :- ParseExpr();
      return Ok(Some(e));
    }

    method ParseBlockOrStmt() returns (r: Result<Block>)
      requires Valid()
      modifies this`idx
      decreases |toks| - idx, 5
      ensures Valid() && Same(r, G.ParseBlockOrStmt(structNames, old(Left())))
    {
      LeftFacts();
      var brace := Eat(LBrace);
      LeftFacts();
      if brace {
        r := ParseBraced();
        return;
      }
      var s :- ParseStmt();
      return Ok(Block([s]));
    }

    method ParseBraced() returns (r: Result<Block>)
      requires Valid()
      modifies this`idx
      decreases |toks| - idx, 4
      ensures Valid() && Same(r, G.ParseBraced(structNames, old(Left())))
    {
      var b :- ParseBlockBody();
      var _ :- Expect(RBrace);
      return Ok(b);
    }

    method ParseBlockBody() returns (r: Result<Block>)
      requires Valid()
      modifies this`idx
      decreases |toks| - idx, 3
      ensures Valid()
      ensures match ParseStmts(structNames, old(Left()))
        case Ok((ss, rest)) => r == Ok(Block(ss)) && Left() == rest
        case Err(_) => r.Err?
    {
      hide G.ParseStmt;
      ghost var start := Left();
      var ss: seq<Stmt> := [];
      PrependNothing(ParseStmts(structNames, start));
      while Peek() !in {RBrace, Eof}
        invariant Valid() && |Left()| <= |start|
        invariant ParseStmts(structNames, start) == Prepend(ss, ParseStmts(structNames, Left()))
        decreases |toks| - idx
      {
        LeftFacts();
        var s :- ParseStmt();
        LeftFacts();
        PrependTwice(ss, [s], ParseStmts(structNames, Left()));
        ss := ss + [s];
      }
      assert ss + [] == ss;
      return Ok(Block(ss));
    }

    // --- top-level declarations ---

    method SkipUntilRParen()
      requires Valid()
      modifies this`idx
      ensures Valid() && Left() == G.SkipUntilRParen(old(Left()))
    {
      while Peek() !in {RParen, Eof}
        invariant Valid() && G.SkipUntilRParen(Left()) == G.SkipUntilRParen(old(Left()))
        decreases |toks| - idx
      {
        LeftFacts();
        var _ := Bump();
        LeftFacts();
      }
      LeftFacts();
      var _ := Eat(RParen);
    }

    method ParseRegister() returns (r: Option<string>)
      requires Valid()
      modifies this`idx
      ensures Valid() && (r, Left()) == G.ParseRegister(old(Left()))
    {
      hide Left, Valid, G.SkipUntilRParen;
      var colon := Eat(Colon);
      if !colon {
        return None;
      }
      var keyword := Expect(TKeyword(KRegister));
      if keyword.Err? {
        return None;
      }
      var paren := Eat(LParen);
      if !paren {
        return None;
      }
      var t := Bump();
      SkipUntilRParen();
      return if t.TIdent? then Some(t.s) else None;
    }

    method ParseField() returns (r: Result<Field>)
      requires Valid()
      modifies this`idx
      ensures Valid() && Same(r, G.ParseField(structNames, old(Left())))
    {
      hide Left, Valid, G.ParseType, G.ParseSemantic;
      var ty :- ParseType();
      var name :- ExpectIdent();
      var semantic := ParseSemantic();
      return Ok(Field(ty, name, semantic));
    }

    method ParseFields() returns (r: Result<seq<Field>>)
      requires Valid()
      modifies this`idx
      ensures Valid() && Same(r, G.ParseFields(structNames, old(Left())))
    {
      hide Left, Valid, G.ParseField;
      ghost var start := Left();
      var fields: seq<Field> := [];
      PrependNothing(G.ParseFields(structNames, start));
      var closed := Eat(RBrace);
      ghost var here := start;
      while !closed
        invariant Valid() && |here| <= |start| && closed == Eats(here, RBrace)
        invariant Left() == if closed then Rest(here) else here
        invariant G.ParseFields(structNames, start) == Prepend(fields, G.ParseFields(structNames, here))
        decreases !closed, |here|
      {
        var f :- ParseField();
        var _ :- Expect(Semicolon);
        here := Left();
        PrependTwice(fields, [f], G.ParseFields(structNames, here));
        fields := fields + [f];
        closed := Eat(RBrace);
      }
      assert fields + [] == fields;
      return Ok(fields);
    }

    method ParseStruct() returns (r: Result<TopDecl>)
      requires Valid()
      modifies this`idx
      ensures Valid() && Same(r, G.ParseStruct(structNames, old(Left())))
    {
      hide Left, Valid, G.ParseFields;
      var _ :- Expect(TKeyword(KStruct));
      var name :- ExpectIdent();
      var _ :- Expect(LBrace);
      var members :- ParseFields();
      var _ :- Expect(Semicolon);
      return Ok(StructDecl(name, members));
    }

    method ParseCBuffer() returns (r: Result<TopDecl>)
      requires Valid()
      modifies this`idx
      ensures Valid() && Same(r, G.ParseCBuffer(structNames, old(Left())))
    {
      hide Left, Valid, G.ParseFields, G.ParseRegister;
      var _ :- Expect(TKeyword(KCBuffer));
      var name :- ExpectIdent();
      var register := ParseRegister();
      var _ :- Expect(LBrace);
      var members :- ParseFields();
      var _ :- Expect(Semicolon);
      return Ok(CBufferDecl(name, register, members));
    }

    method SkipModifier()
      requires Valid()
      modifies this`idx
      ensures Valid() && Left() == G.SkipModifier(old(Left()))
    {
      hide Left, Valid;
      if Peek().TIdent? && Peek().s in MODIFIERS {
        var _ := Bump();
      }
    }

    method ParseParams() returns (r: Result<seq<Field>>)
      requires Valid()
      modifies this`idx
      ensures Valid() && Same(r, G.ParseParams(structNames, old(Left())))
    {
      hide Left, Valid, G.ParseField, G.SkipModifier;
      if Peek() == RParen {
        return Ok([]);
      }
      ghost var start := Left();
      var params: seq<Field> := [];
      var more := true;
      PrependNothing(ParseParamList(structNames, start));
      while more
        invariant Valid() && |Left()| <= |start|
        invariant more ==> ParseParamList(structNames, start) == Prepend(params, ParseParamList(structNames, Left()))
        invariant !more ==> ParseParamList(structNames, start) == Ok((params, Left()))
        decreases more, |Left()|
      {
        SkipModifier();
        var f :- ParseField();
        more := Eat(Comma);
        if more {
          PrependTwice(params, [f], ParseParamList(structNames, Left()));
        }
        params := params + [f];
      }
      return Ok(params);
    }

    method ParseSignature() returns (r: Result<(seq<Field>, Option<string>, Option<Block>)>)
      requires Valid()
      modifies this`idx
      ensures Valid() && Same(r, G.ParseSignature(structNames, old(Left())))
    {
      hide Left, Valid, G.ParseParams, G.ParseSemantic, G.ParseBraced;
      var params :- ParseParams();
      var _ :- Expect(RParen);
      var semantic := ParseSemantic();
      var prototype := Eat(Semicolon);
      if prototype {
        return Ok((params, semantic, None));
      }
      var _ :- Expect(LBrace);
      var body :- ParseBraced();
      return Ok((params, semantic, Some(body)));
    }

    method ParseFunctionOrGlobal() returns (r: Result<TopDecl>)
      requires Valid()
      modifies this`idx
      ensures Valid() && Same(r, G.ParseFunctionOrGlobal(structNames, old(Left())))
    {
      hide Left, Valid, G.ParseType, G.ParseSignature, G.ParseRegister;
      var ty :- ParseType();
      var name :- ExpectIdent();
      if Peek() == LParen {
        var _ := Bump();
        var s :- ParseSignature();
        return Ok(FunctionDecl(ty, name, s.0, s.1, s.2));
      } else if Peek() == Colon {
        var register := ParseRegister();
        var _ :- Expect(Semicolon);
        return Ok(GlobalVarDecl(ty, name, register));
      } else if Peek() == Semicolon {
        var _ := Bump();
        return Ok(GlobalVarDecl(ty, name, None));
      }
      return Err("expected `(`, `:` or `;`");
    }

    /** A struct is known from the next declaration on. */
    method ParseDecl() returns (r: Result<TopDecl>)
      requires Valid()
      modifies this
      ensures Valid() && Same(r, G.ParseDecl(old(structNames), old(Left())))
      ensures r.Ok? ==> structNames == NamesAfter(old(structNames), r.value)
    {
      hide Left, Valid, G.ParseStruct, G.ParseCBuffer, G.ParseFunctionOrGlobal;
      var t := Peek();
      if t == TKeyword(KStruct) {
        var d :- ParseStruct();
        structNames := structNames + {d.name};
        return Ok(d);
      } else if t == TKeyword(KCBuffer) {
        r := ParseCBuffer();
      } else {
        r := ParseFunctionOrGlobal();
      }
    }

    /** The whole input: on success the cursor has arrived at the `Eof`. */
    method ParseUnit() returns (r: Result<seq<TopDecl>>)
      requires Valid()
      modifies this
      ensures Valid()
      ensures match G.ParseUnit(old(structNames), old(Left()))
        case Ok((ds, names)) => r == Ok(ds) && structNames == names && Left() == []
        case Err(_) => r.Err?
    {
      hide Left, Valid, G.ParseDecl, NamesAfter, StructNames;
      ghost var names, start := structNames, Left();
      var ds: seq<TopDecl> := [];
      UnitNothing(G.ParseUnit(names, start));
      LeftFacts();
      while Peek() != Eof
        invariant Valid() && G.ParseUnit(names, start) == UnitPrepend(ds, G.ParseUnit(structNames, Left()))
        decreases |Left()|
      {
        LeftFacts();
        ghost var ns := structNames;
        var d :- ParseDecl();
        UnitTwice(ds, d, G.ParseUnit(structNames, Left()));
        ds := ds + [d];
      }
      LeftFacts();
      assert ds + [] == ds;
      return Ok(ds);
    }
  }

  // --- accumulating lists ---

  function Prepend<T>(xs: seq<T>, r: Result<(seq<T>, Input)>): Result<(seq<T>, Input)> {
    match r
    case Ok((ys, rest)) => Ok((xs + ys, rest))
    case Err(e) => Err(e)
  }

  lemma {:induction false} PrependNothing<T>(r: Result<(seq<T>, Input)>)
    ensures Prepend([], r) == r
  {
    if r.Ok? {
      assert [] + r.value.0 == r.value.0;
    }
  }

  lemma {:induction false} PrependTwice<T>(a: seq<T>, b: seq<T>, r: Result<(seq<T>, Input)>)
    ensures Prepend(a, Prepend(b, r)) == Prepend(a + b, r)
  {
    if r.Ok? {
      assert a + (b + r.value.0) == (a + b) + r.value.0;
    }
  }

  function UnitPrepend(ds: seq<TopDecl>, r: Result<(seq<TopDecl>, set<string>)>): Result<(seq<TopDecl>, set<string>)> {
    match r
    case Ok((rest, names)) => Ok((ds + rest, names))
    case Err(e) => Err(e)
  }

  lemma {:induction false} UnitNothing(r: Result<(seq<TopDecl>, set<string>)>)
    ensures UnitPrepend([], r) == r
  {
    if r.Ok? {
      assert [] + r.value.0 == r.value.0;
    }
  }

  lemma {:induction false} UnitTwice(ds: seq<TopDecl>, d: TopDecl, r: Result<(seq<TopDecl>, set<string>)>)
    ensures UnitPrepend(ds, UnitPrepend([d], r)) == UnitPrepend(ds + [d], r)
  {
    if r.Ok? {
      assert ds + ([d] + r.value.0) == (ds + [d]) + r.value.0;
    }
  }
}
