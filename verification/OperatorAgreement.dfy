/** Each emitted opcode computes what the HLSL operator means, wherever the interpreter gives it a meaning. */
module OperatorAgreement {
  import opened Wrappers
  import opened Ast
  import opened Values
  import opened HlslMeaning
  import opened HlslSemantics
  import opened SpirvMachine
  import opened EmitterSpec

  lemma {:induction false} ArithAgrees(
    fo: FloatOps, structs: Structs, op: BinaryOp, ta: Type, tb: Type, a: Value, b: Value)
    requires HasType(structs, a, ta) && HasType(structs, b, tb) && ArithValue(fo, op, a, b).Some?
    ensures var ty := if ta.IsComposite() then ta else tb;
      && ArithResult(op, ta, tb) == Some(ty) && ValueResult(op, a, b) == Some(ty) && ArithOpcode(op, ty).Some?
      && Lift2(BinFn(fo, ArithOpcode(op, ty).value, ty.kind), a, b) == ArithValue(fo, op, a, b)
      && HasType(structs, ArithValue(fo, op, a, b).value, ty)
  {
    hide HasType, ArithFn, BinFn, HlslArith, ArithOpcode;
    FlatTyped(structs, a, ta);
    FlatTyped(structs, b, tb);
    ArithTyped(fo, structs, op, a, b);
    var ty := if ta.IsComposite() then ta else tb;
    ArithHasOpcode(op, ta, tb);
    var f, h := ArithFn(fo, op), BinFn(fo, ArithOpcode(op, ty).value, ty.kind);
    forall x, y | KindOf(x) == ta.kind && KindOf(y) == tb.kind && f(x, y).Some?
      ensures h(x, y) == f(x, y) && KindOf(f(x, y).value) == ty.kind
    {
      ArithElemAgrees(fo, op, ta, tb, x, y);
    }
    Lift2Agree(structs, f, h, a, b, ta, tb, ty.kind);
  }

  lemma {:induction false} ArithHasOpcode(op: BinaryOp, ta: Type, tb: Type)
    requires ArithResult(op, ta, tb).Some?
    ensures var ty := if ta.IsComposite() then ta else tb; ArithResult(op, ta, tb) == Some(ty) && ArithOpcode(op, ty).Some?
  {
  }

  lemma {:induction false} ArithElemAgrees(fo: FloatOps, op: BinaryOp, ta: Type, tb: Type, x: Elem, y: Elem)
    requires ArithResult(op, ta, tb).Some? && KindOf(x) == ta.kind && KindOf(y) == tb.kind && ArithFn(fo, op)(x, y).Some?
    ensures var ty := ArithResult(op, ta, tb).value;
      ArithOpcode(op, ty).Some? && BinFn(fo, ArithOpcode(op, ty).value, ty.kind)(x, y) == ArithFn(fo, op)(x, y)
    ensures KindOf(ArithFn(fo, op)(x, y).value) == ArithResult(op, ta, tb).value.kind
  {
    var ty := ArithResult(op, ta, tb).value;
    ConvertedKind(fo, x, ty.kind);
    ConvertedKind(fo, y, ty.kind);
    assert CommonKind(ta.kind, tb.kind) == ty.kind;
    KindAgrees(fo, op, ty, x, y);
  }

  /** Operands of the kind of the result, or an int and a uint with a uint result. */
  lemma {:induction false} KindAgrees(fo: FloatOps, op: BinaryOp, ty: Type, x: Elem, y: Elem)
    requires op in {Add, Sub, Mul, Div} && (ty.Scalar? || ty.Vector?)
    requires if ty.kind == Uint then KindOf(x) in {Int, Uint} && KindOf(y) in {Int, Uint} else KindOf(x) == ty.kind == KindOf(y)
    requires ty.kind != Bool && ArithElem(fo, op, ConvertElem(fo, x, ty.kind), ConvertElem(fo, y, ty.kind)).Some?
    ensures ArithOpcode(op, ty).Some?
    ensures BinElem(fo, ArithOpcode(op, ty).value, ty.kind, x, y)
         == ArithElem(fo, op, ConvertElem(fo, x, ty.kind), ConvertElem(fo, y, ty.kind))
    ensures KindOf(ArithElem(fo, op, ConvertElem(fo, x, ty.kind), ConvertElem(fo, y, ty.kind)).value) == ty.kind
  {
  }

  /** A compound assignment stores what the opcode computes, unconverted; on covered operands that is the result
      converted to the type of the place. */
  lemma {:induction false} CompoundAgrees(
    fo: FloatOps, structs: Structs, op: BinaryOp, ta: Type, tb: Type, a: Value, b: Value)
    requires HasType(structs, a, ta) && HasType(structs, b, tb) && CompoundValue(fo, op, ta, a, b).Some?
    ensures !ta.IsComposite() ==> ta == tb
    ensures ArithOpcode(op, ta).Some? && (ta.Scalar? || ta.Vector?)
    ensures Lift2(BinFn(fo, ArithOpcode(op, ta).value, ta.kind), a, b) == CompoundValue(fo, op, ta, a, b)
    ensures HasType(structs, CompoundValue(fo, op, ta, a, b).value, ta)
  {
    hide HasType, ArithFn, BinFn, HlslArith, ArithOpcode, ConvertFlat;
    FlatTyped(structs, a, ta);
    FlatTyped(structs, b, tb);
    CompoundTyped(fo, structs, op, ta, a, b);
    if ArithResult(op, ta, tb) == Some(ta) {
      ArithAgrees(fo, structs, op, ta, tb, a, b);
      ConvertFlatTyped(fo, structs, ArithValue(fo, op, a, b).value, ta);
    } else if IntByUint(op, ta, tb) {
      IntByUintAgrees(fo, op, ta.n, a, b);
    } else {
      QuotientVectors(fo, structs, ta.n, a, b);
      DivisionOpcodes(ta.n);
    }
  }

  // --- quotients of an int vector by a uint vector ---

  lemma {:induction false} TimesAtLeast(b: nat, q: nat, k: nat)
    requires q >= k
    ensures b * q >= b * k
  {
    assert b * q == b * k + b * (q - k);
  }

  lemma {:induction false} QuotientFacts(a: nat, b: nat)
    requires b > 0
    ensures 0 <= a / b <= a && (a < b <==> a / b == 0)
    ensures b >= 2 ==> 2 * (a / b) <= a
    ensures b <= a < 2 * b <==> a / b == 1
  {
    var q := a / b;
    var r := a % b;
    assert a == b * q + r && 0 <= r < b && q >= 0;
    TimesAtLeast(q, b, 1);
    assert b * q == q * b;
    if b >= 2 {
      TimesAtLeast(q, b, 2);
    }
    if q >= 1 {
      TimesAtLeast(b, q, 1);
    }
    if q >= 2 {
      TimesAtLeast(b, q, 2);
    }
  }

  lemma {:induction false} SmallWrap(x: int)
    requires -TWO_32 < x < TWO_32
    ensures Wrap(x) == if x < 0 then x + TWO_32 else x
  {
  }

  lemma {:induction false} QuotientsAgreeExact(x: Word, y: Word)
    requires y != 0
    ensures var undefined := Signed(x) == -TWO_31 && Signed(y) == -1;
      !undefined && Wrap(TruncDiv(Signed(x), Signed(y))) == Wrap(x / y) <==> QuotientsAgree(x, y)
  {
    QuotientFacts(x, y);
    SmallWrap(x / y);
    if x < TWO_31 {
      if y >= TWO_31 {
        QuotientFacts(x, TWO_32 - y);
        SmallWrap(-(x / (TWO_32 - y)));
      }
    } else if y < TWO_31 {
      QuotientFacts(TWO_32 - x, y);
      SmallWrap(-((TWO_32 - x) / y));
    } else {
      QuotientFacts(TWO_32 - x, TWO_32 - y);
      SmallWrap((TWO_32 - x) / (TWO_32 - y));
    }
  }

  lemma {:induction false} QuotientVectors(fo: FloatOps, structs: Structs, n: nat, x: Value, y: Value)
    requires HasType(structs, x, Vector(Int, n)) && HasType(structs, y, Vector(Uint, n)) && x.VVec? && y.VVec?
    requires HlslCompound(fo, Div, Vector(Int, n), x, y).Some?
    ensures Lift2(BinFn(fo, SDiv, Int), x, y) == HlslCompound(fo, Div, Vector(Int, n), x, y)
       <==> AllQuotientsAgree(Div, Vector(Int, n), Vector(Uint, n), x, y)
  {
    var f, h := ArithFn(fo, Div), BinFn(fo, SDiv, Int);
    var r := ZipMap(f, x.c, y.c).value;
    var meant := seq(n, i requires 0 <= i < n <= |r| => ConvertElem(fo, r[i], Int));
    assert HlslCompound(fo, Div, Vector(Int, n), x, y) == Some(VVec(meant));
    forall i | 0 <= i < n
      ensures x.c[i].EInt? && y.c[i].EUint? && (h(x.c[i], y.c[i]) == Some(meant[i]) <==> QuotientsAgree(x.c[i].w, y.c[i].w))
    {
      assert KindOf(x.c[i]) == Int && KindOf(y.c[i]) == Uint && f(x.c[i], y.c[i]) == Some(r[i]);
      QuotientElem(fo, x.c[i], y.c[i]);
    }
    hide ArithFn, BinFn, ConvertElem, QuotientsAgree;
    ZipMapExact(h, x.c, y.c, meant);
  }

  lemma {:induction false} QuotientElem(fo: FloatOps, p: Elem, q: Elem)
    requires p.EInt? && q.EUint? && ArithFn(fo, Div)(p, q).Some?
    ensures BinFn(fo, SDiv, Int)(p, q) == Some(ConvertElem(fo, ArithFn(fo, Div)(p, q).value, Int)) <==> QuotientsAgree(p.w, q.w)
  {
    hide TruncDiv, Wrap, QuotientsAgree;
    assert q.w != 0;
    QuotientsAgreeExact(p.w, q.w);
  }

  lemma {:induction false} IntByUintAgrees(fo: FloatOps, op: BinaryOp, n: nat, a: Value, b: Value)
    requires op in {Add, Sub, Mul} && FlatType(a) == Some(Vector(Int, n)) && FlatType(b) == Some(Vector(Uint, n))
    ensures ArithOpcode(op, Vector(Int, n)).Some?
    ensures Lift2(BinFn(fo, ArithOpcode(op, Vector(Int, n)).value, Int), a, b) == HlslCompound(fo, op, Vector(Int, n), a, b)
  {
    hide ArithFn, BinFn, ArithOpcode;
    IntByUintElem(fo, op, n, EInt(0), EUint(0));
    var f, h := ArithFn(fo, op), BinFn(fo, ArithOpcode(op, Vector(Int, n)).value, Int);
    forall i | 0 <= i < n ensures f(a.c[i], b.c[i]).Some? && h(a.c[i], b.c[i]) == Some(ConvertElem(fo, f(a.c[i], b.c[i]).value, Int)) {
      assert KindOf(a.c[i]) == Int && KindOf(b.c[i]) == Uint;
      IntByUintElem(fo, op, n, a.c[i], b.c[i]);
    }
    var r, q := ZipMap(f, a.c, b.c).value, ZipMap(h, a.c, b.c).value;
    assert q == seq(n, i requires 0 <= i < n <= |r| => ConvertElem(fo, r[i], Int));
  }

  lemma {:induction false} DivisionOpcodes(n: nat)
    ensures ArithOpcode(Div, Vector(Int, n)) == Some(SDiv)
  {
  }

  lemma {:induction false} IntByUintElem(fo: FloatOps, op: BinaryOp, n: nat, x: Elem, y: Elem)
    requires op in {Add, Sub, Mul} && x.EInt? && y.EUint?
    ensures ArithOpcode(op, Vector(Int, n)).Some? && ArithFn(fo, op)(x, y).Some?
    ensures BinFn(fo, ArithOpcode(op, Vector(Int, n)).value, Int)(x, y) == Some(ConvertElem(fo, ArithFn(fo, op)(x, y).value, Int))
  {
  }

  lemma {:induction false} CompareAgrees(fo: FloatOps, structs: Structs, op: BinaryOp, ta: Type, tb: Type, a: Value, b: Value)
    requires HasType(structs, a, ta) && HasType(structs, b, tb) && IsComparison(op)
    requires Lift2(CompareFn(fo, op), a, b).Some?
    ensures ta.Scalar? || ta.Vector?
    ensures var opc := CompareOpcode(op, ta.kind == Float).value;
      Lift2(BinFn(fo, opc, Bool), a, b) == Lift2(CompareFn(fo, op), a, b)
    ensures HasType(structs, Lift2(CompareFn(fo, op), a, b).value, if ta.Scalar? then Scalar(Bool) else Vector(Bool, ta.n))
  {
    var opc := CompareOpcode(op, ta.kind == Float).value;
    var f, h := CompareFn(fo, op), BinFn(fo, opc, Bool);
    forall x, y | KindOf(x) == ta.kind && KindOf(y) == tb.kind && f(x, y).Some?
      ensures h(x, y) == f(x, y) && KindOf(f(x, y).value) == Bool
    {
      CompareElemAgrees(fo, op, x, y);
    }
    hide CompareFn, BinFn;
    Lift2Agree(structs, f, h, a, b, ta, tb, Bool);
  }

  lemma {:induction false} CompareElemAgrees(fo: FloatOps, op: BinaryOp, x: Elem, y: Elem)
    requires IsComparison(op) && CoveredCompare(fo, op, x, y).Some?
    ensures BinElem(fo, CompareOpcode(op, KindOf(x) == Float).value, Bool, x, y) == CoveredCompare(fo, op, x, y)
  {
    if x.EFloat? {
      assert y.EFloat?;
    } else {
      IntegerCompare(fo, op, x, y);
      assert CompareOpcode(op, false).value !in {LogicalAnd, LogicalOr} && !IsFloatOpcode(CompareOpcode(op, false).value);
    }
  }

  /** On integers the opcode compares bit patterns as signed numbers. */
  lemma {:induction false} IntegerCompare(fo: FloatOps, op: BinaryOp, x: Elem, y: Elem)
    requires IsComparison(op) && CompareCovered(fo, op, x, y) && !x.EFloat?
    ensures Bits(x).Some? && Bits(y).Some? && HlslCompareElem(fo, op, x, y).Some?
    ensures IntegerElem(CompareOpcode(op, false).value, Bool, Bits(x).value, Bits(y).value)
         == Some(EBool(HlslCompareElem(fo, op, x, y).value))
  {
    if x.EInt? && y.EInt? {
      assert HlslCompareElem(fo, op, x, y) == OrderOf(op, Signed(x.w), Signed(y.w));
    } else {
      assert HlslCompareElem(fo, op, x, y) == OrderOf(op, x.w, y.w);
    }
  }

  lemma {:induction false} LogicalAgrees(fo: FloatOps, structs: Structs, op: BinaryOp, a: Value, b: Value)
    requires op in {And, Or} && a.VScalar? && b.VScalar?
    requires Lift2(LogicalFn(fo, op), a, b).Some?
    ensures Lift2(BinFn(fo, if op == And then LogicalAnd else LogicalOr, Bool), a, b) == Lift2(LogicalFn(fo, op), a, b)
    ensures HasType(structs, Lift2(LogicalFn(fo, op), a, b).value, Scalar(Bool))
  {
  }

  lemma {:induction false} UnaryAgrees(fo: FloatOps, structs: Structs, op: UnaryOp, ty: Type, a: Value)
    requires HasType(structs, a, ty) && UnaryOpcode(op, ty).Some?
    requires Lift2(UnaryFn(fo, op), a, a).Some?
    ensures ty.Scalar? || ty.Vector?
    ensures Lift2(UnFn(fo, UnaryOpcode(op, ty).value, ty.kind), a, a) == Lift2(UnaryFn(fo, op), a, a)
    ensures HasType(structs, Lift2(UnaryFn(fo, op), a, a).value, ty)
  {
    var f, h := UnaryFn(fo, op), UnFn(fo, UnaryOpcode(op, ty).value, ty.kind);
    forall x, y | KindOf(x) == ty.kind && f(x, y).Some? ensures h(x, y) == f(x, y) && KindOf(f(x, y).value) == ty.kind {
      UnaryElemAgrees(fo, op, ty, x);
    }
    hide UnaryFn, UnFn;
    Lift2Agree(structs, f, h, a, a, ty, ty, ty.kind);
  }

  lemma {:induction false} UnaryElemAgrees(fo: FloatOps, op: UnaryOp, ty: Type, x: Elem)
    requires (ty.Scalar? || ty.Vector?) && UnaryOpcode(op, ty).Some? && KindOf(x) == ty.kind && UnaryElem(fo, op, x).Some?
    ensures UnElem(fo, UnaryOpcode(op, ty).value, ty.kind, x) == UnaryElem(fo, op, x)
    ensures KindOf(UnaryElem(fo, op, x).value) == ty.kind
  {
  }

  lemma {:induction false} ConvertAgrees(fo: FloatOps, e: Elem, to: ScalarKind)
    requires ConvertOpcode(KindOf(e), to).Some?
    ensures UnElem(fo, ConvertOpcode(KindOf(e), to).value, to, e) == Some(ConvertElem(fo, e, to))
  {
  }

  /** The intrinsic tables name the same function on both sides, with the same operand count. */
  lemma {:induction false} IntrinsicTablesAgree(name: string)
    ensures ExtInstOf(name).Some? <==> FnOfName(name).Some?
    ensures ExtInstOf(name).Some? ==>
      FnOfNumber(ExtInstOf(name).value.0) == FnOfName(name) && ExtInstOf(name).value.1 == Arity(FnOfName(name).value)
    ensures FnOfName(name) == Some(Length) <==> name == "length"
  {
  }

  lemma {:induction false} AssembleTyped(structs: Structs, kind: ScalarKind, n: nat, parts: seq<Value>)
    requires AssembleVector(kind, n, parts).Some?
    ensures Flatten(parts).Some? && AssembleVector(kind, n, parts) == Some(VVec(Flatten(parts).value))
    ensures HasType(structs, AssembleVector(kind, n, parts).value, Vector(kind, n))
  {
  }

  lemma {:induction false} SwizzleTyped(structs: Structs, v: Value, kind: ScalarKind, n: nat, member: string)
    requires HasType(structs, v, Vector(kind, n)) && SwizzleValue(v, member).Some?
    ensures DecodeSwizzle(member).Some?
    ensures var idx := DecodeSwizzle(member).value;
      HasType(structs, SwizzleValue(v, member).value, if |idx| == 1 then Scalar(kind) else Vector(kind, |idx|))
  {
  }

  // --- type inference ---

  /** Every visible binding has a local of the same type under its name. */
  ghost predicate TypesAgree(env: Env, locals: seq<Local>) {
    forall x: string :: LookupEnv(env, x).Some? ==>
      LookupLocal(locals, x).Some? && locals[LookupLocal(locals, x).value].ty == env[LookupEnv(env, x).value].ty
  }

  lemma {:induction false} TypesAgreeSameNames(env: Env, env': Env, locals: seq<Local>)
    requires TypesAgree(env, locals) && SameNames(env, env')
    ensures TypesAgree(env', locals)
  {
    forall x: string | LookupEnv(env', x).Some?
      ensures LookupLocal(locals, x).Some? && locals[LookupLocal(locals, x).value].ty == env'[LookupEnv(env', x).value].ty
    {
      LookupSameNames(env, env', x);
    }
  }

  /** A place is inferred to have its own type. */
  lemma {:induction false} PlaceInferred(g: Globals, env: Env, locals: seq<Local>, e: Expr)
    requires PlaceOf(g.structs, env, e).Some? && TypesAgree(env, locals)
    ensures InferType(g, locals, e) == Ok(PlaceOf(g.structs, env, e).value.ty)
  {
    if e.Member? {
      PlaceInferred(g, env, locals, e.base);
    }
  }

  lemma {:induction false} ConstructTyped(fo: FloatOps, structs: Structs, ty: Type, vs: seq<Value>)
    requires ConstructValue(fo, ty, vs).Some?
    ensures HasType(structs, ConstructValue(fo, ty, vs).value, ty)
  {
    if ty.Vector? {
      AssembleTyped(structs, ty.kind, ty.n, if |vs| == 1 then seq(ty.n, _ => vs[0]) else vs);
    } else {
      ConvertedKind(fo, vs[0].e, ty.kind);
    }
  }

  /** Where inference says vector or struct, the value has that type, and vectors are never missed. */
  ghost predicate InferredRight(structs: Structs, t: Type, v: Value) {
    (t.Vector? || t.Struct? ==> HasType(structs, v, t)) && (v.VVec? ==> t.Vector?)
  }

  /** Inferred vector and struct types are the types of the values expressions evaluate to. */
  lemma {:induction false} InferSound(fo: FloatOps, g: Globals, env: Env, locals: seq<Local>, e: Expr)
    requires EvalExpr(fo, g.structs, env, e).Done? && InferType(g, locals, e).Ok?
    requires EnvTyped(g.structs, env) && TypesAgree(env, locals)
    ensures InferredRight(g.structs, InferType(g, locals, e).value, EvalExpr(fo, g.structs, env, e).value.0)
    decreases e, 1
  {
    hide EnvTyped, TypesAgree, ConstructValue, CallValue, SwizzleValue, BinaryValue, CompoundValue, ConvertTo;
    match e
    case Lit(_) =>
    case Ident(_) =>
      PlaceInferred(g, env, locals, e);
      ReadTyped(g.structs, env, PlaceOf(g.structs, env, e).value);
    case Construct(ty, args) => ConstructTyped(fo, g.structs, ty, EvalArgs(fo, g.structs, env, args).value.0);
    case Cast(_, _) =>
    case Member(base, member) =>
      if PlaceOf(g.structs, env, e).Some? {
        PlaceInferred(g, env, locals, e);
        ReadTyped(g.structs, env, PlaceOf(g.structs, env, e).value);
      } else {
        InferSound(fo, g, env, locals, base);
        SwizzleInferred(g, InferType(g, locals, base).value, EvalExpr(fo, g.structs, env, base).value.0, member);
      }
    case Call(name, args) => InferCallSound(fo, g, env, locals, e);
    case Unary(op, x) =>
      InferSound(fo, g, env, locals, x);
      UnaryInferred(fo, g.structs, op, InferType(g, locals, x).value, EvalExpr(fo, g.structs, env, x).value.0);
    case Binary(op, _, _) =>
      if op == Assign || IsCompound(op) {
        InferUpdateSound(fo, g, env, locals, e);
      } else {
        InferOperatorSound(fo, g, env, locals, e);
      }
  }

  lemma {:induction false} SwizzleInferred(g: Globals, t: Type, v: Value, member: string)
    requires InferredRight(g.structs, t, v) && SwizzleValue(v, member).Some? && MemberType(g, t, member).Ok?
    ensures InferredRight(g.structs, MemberType(g, t, member).value, SwizzleValue(v, member).value)
  {
    if t.Vector? {
      SwizzleTyped(g.structs, v, t.kind, t.n, member);
    }
  }

  lemma {:induction false} UnaryInferred(fo: FloatOps, structs: Structs, op: UnaryOp, t: Type, a: Value)
    requires InferredRight(structs, t, a) && Lift2(UnaryFn(fo, op), a, a).Some?
    ensures InferredRight(structs, t, Lift2(UnaryFn(fo, op), a, a).value)
  {
    if t.Vector? {
      var f := UnaryFn(fo, op);
      forall x, y | KindOf(x) == t.kind && f(x, y).Some? ensures KindOf(f(x, y).value) == t.kind {
        UnaryElemKind(fo, op, x);
      }
      hide UnaryFn;
      Lift2Agree(structs, f, f, a, a, t, t, t.kind);
    }
  }

  lemma {:induction false} UnaryElemKind(fo: FloatOps, op: UnaryOp, x: Elem)
    requires UnaryElem(fo, op, x).Some?
    ensures KindOf(UnaryElem(fo, op, x).value) == KindOf(x)
  {
  }

  lemma {:induction false} InferCallSound(fo: FloatOps, g: Globals, env: Env, locals: seq<Local>, e: Expr)
    requires e.Call? && EvalExpr(fo, g.structs, env, e).Done? && InferType(g, locals, e).Ok?
    requires EnvTyped(g.structs, env) && TypesAgree(env, locals)
    ensures InferredRight(g.structs, InferType(g, locals, e).value, EvalExpr(fo, g.structs, env, e).value.0)
    decreases e, 0
  {
    hide EnvTyped, TypesAgree, CallValue, INFERRED_FROM_FIRST;
    var vs := EvalArgs(fo, g.structs, env, e.args).value.0;
    if e.name == "length" {
      LengthIsScalar(fo, vs);
    } else {
      InferSound(fo, g, env, locals, e.args[0]);
      assert vs[0] == EvalExpr(fo, g.structs, env, e.args[0]).value.0;
      CallInferred(fo, g.structs, e.name, vs, InferType(g, locals, e.args[0]).value);
    }
  }

  lemma {:induction false} LengthIsScalar(fo: FloatOps, vs: seq<Value>)
    requires CallValue(fo, "length", vs).Some?
    ensures CallValue(fo, "length", vs).value.VScalar?
  {
  }

  /** Every intrinsic but `dot` and `length` has the type of its first argument when that is a vector. */
  lemma {:induction false} CallInferred(fo: FloatOps, structs: Structs, name: string, vs: seq<Value>, t: Type)
    requires CallValue(fo, name, vs).Some? && |vs| > 0 && !vs[0].VUndef? && InferredRight(structs, t, vs[0])
    requires name != "length"
    ensures InferredRight(structs, if name == "dot" && t.Vector? then Scalar(t.kind) else t, CallValue(fo, name, vs).value)
  {
    hide ApplyFn, HasType;
    if name == "dot" || name == "mul" {
      CallScalar(fo, structs, name, vs, t);
    } else {
      IntrinsicTablesAgree(name);
      var fn := if name == "saturate" then FClamp else FnOfName(name).value;
      var args := if name == "saturate" then [vs[0], Broadcast(vs[0], fo.round(F64_ZERO)), Broadcast(vs[0], fo.round(F64_ONE))] else vs;
      ApplyFnShape(structs, fo, fn, args, t);
    }
  }

  lemma {:induction false} CallScalar(fo: FloatOps, structs: Structs, name: string, vs: seq<Value>, t: Type)
    requires CallValue(fo, name, vs).Some? && |vs| > 0 && InferredRight(structs, t, vs[0]) && !vs[0].VUndef?
    requires name in {"dot", "mul"}
    ensures CallValue(fo, name, vs).value.VScalar? && !t.Struct? && (name == "mul" ==> !t.Vector?)
  {
  }

  lemma {:induction false} ApplyFnShape(structs: Structs, fo: FloatOps, fn: Fn, vs: seq<Value>, t: Type)
    requires ApplyFn(fo, fn, vs).Some? && |vs| > 0 && InferredRight(structs, t, vs[0]) && fn != Length && !vs[0].VUndef?
    ensures InferredRight(structs, t, ApplyFn(fo, fn, vs).value)
  {
    assert Floats(vs[0]).Some?;
    if t.Vector? {
      ApplyFnTyped(structs, fo, fn, vs, 0, t);
    }
  }

  lemma {:induction false} InferUpdateSound(fo: FloatOps, g: Globals, env: Env, locals: seq<Local>, e: Expr)
    requires e.Binary? && (e.op == Assign || IsCompound(e.op))
    requires EvalExpr(fo, g.structs, env, e).Done? && InferType(g, locals, e).Ok?
    requires EnvTyped(g.structs, env) && TypesAgree(env, locals)
    ensures InferredRight(g.structs, InferType(g, locals, e).value, EvalExpr(fo, g.structs, env, e).value.0)
    decreases e, 0
  {
    hide EnvTyped, TypesAgree, CompoundValue, ConvertTo, PathType;
    var p := PlaceOf(g.structs, env, e.lhs).value;
    PlaceInferred(g, env, locals, e.lhs);
    var a := EvalExpr(fo, g.structs, env, e.rhs).value.0;
    if !p.ty.IsComposite() {
      InferSound(fo, g, env, locals, e.rhs);
    }
    if e.op == Assign {
      ConvertToTyped(fo, g.structs, a, p.ty);
      ConvertToShape(fo, g.structs, a, p.ty);
    } else {
      CompoundTyped(fo, g.structs, CoreOp(e.op), p.ty, ReadPlace(env, p).value, a);
      CompoundShape(fo, g.structs, CoreOp(e.op), p.ty, ReadPlace(env, p).value, a);
    }
  }

  /** Only scalars change their type in an assignment. */
  lemma {:induction false} ConvertToShape(fo: FloatOps, structs: Structs, a: Value, ty: Type)
    requires ConvertTo(fo, structs, a, ty).Some? && !a.VUndef?
    ensures a.VScalar? || ConvertTo(fo, structs, a, ty) == Some(a)
    ensures a.VScalar? ==> ty.Scalar? && ConvertTo(fo, structs, a, ty).value.VScalar?
  {
  }

  lemma {:induction false} CompoundShape(fo: FloatOps, structs: Structs, op: BinaryOp, ty: Type, a: Value, b: Value)
    requires CompoundValue(fo, op, ty, a, b).Some?
    ensures SameShape(a, b) && (a.VVec? <==> ty.Vector?) && (CompoundValue(fo, op, ty, a, b).value.VVec? <==> ty.Vector?)
  {
    hide HlslArith;
  }

  lemma {:induction false} InferOperatorSound(fo: FloatOps, g: Globals, env: Env, locals: seq<Local>, e: Expr)
    requires e.Binary? && e.op != Assign && !IsCompound(e.op)
    requires EvalExpr(fo, g.structs, env, e).Done? && InferType(g, locals, e).Ok?
    requires EnvTyped(g.structs, env) && TypesAgree(env, locals)
    ensures InferredRight(g.structs, InferType(g, locals, e).value, EvalExpr(fo, g.structs, env, e).value.0)
    decreases e, 0
  {
    hide EnvTyped, TypesAgree, BinaryValue, HasType;
    var (a, env1) := EvalExpr(fo, g.structs, env, e.lhs).value;
    var b := EvalExpr(fo, g.structs, env1, e.rhs).value.0;
    if e.op in {And, Or} {
      LogicalShape(fo, e.op, a, b);
    } else {
      InferSound(fo, g, env, locals, e.lhs);
      var lt := InferType(g, locals, e.lhs).value;
      if IsComparison(e.op) {
        CompareShape(fo, g.structs, e.op, a, b, lt);
      } else {
        if !lt.IsComposite() {
          EvalKeeps(fo, g.structs, env, e.lhs);
          TypesAgreeSameNames(env, env1, locals);
          InferSound(fo, g, env1, locals, e.rhs);
        }
        ArithShape(fo, g.structs, e.op, a, b, lt, InferType(g, locals, e).value);
      }
    }
  }

  lemma {:induction false} LogicalShape(fo: FloatOps, op: BinaryOp, a: Value, b: Value)
    requires op in {And, Or} && BinaryValue(fo, op, a, b).Some?
    ensures BinaryValue(fo, op, a, b).value.VScalar?
  {
  }

  lemma {:induction false} CompareShape(fo: FloatOps, structs: Structs, op: BinaryOp, a: Value, b: Value, lt: Type)
    requires IsComparison(op) && InferredRight(structs, lt, a) && BinaryValue(fo, op, a, b).Some?
    ensures InferredRight(structs, if lt.Vector? then Vector(Bool, lt.n) else Scalar(Bool), BinaryValue(fo, op, a, b).value)
  {
    hide CoveredCompare;
    var f := CompareFn(fo, op);
    if a.VVec? {
      var r := ZipMap(f, a.c, b.c).value;
      forall i | 0 <= i < |r| ensures KindOf(r[i]) == Bool {
        assert f(a.c[i], b.c[i]) == Some(r[i]);
        CoveredIsBool(fo, op, a.c[i], b.c[i]);
      }
    }
  }

  lemma {:induction false} CoveredIsBool(fo: FloatOps, op: BinaryOp, x: Elem, y: Elem)
    requires CoveredCompare(fo, op, x, y).Some?
    ensures CoveredCompare(fo, op, x, y).value.EBool?
  {
  }

  lemma {:induction false} ScalarResult(structs: Structs, r: Value, a: Value, b: Value, t: Type, lt: Type)
    requires r.VScalar? && a.VScalar? && b.VScalar? && InferredRight(structs, lt, a)
    requires if lt.IsComposite() then t == lt else InferredRight(structs, t, b)
    ensures InferredRight(structs, t, r)
  {
  }

  lemma {:induction false} VectorArithResult(op: BinaryOp, ta: Type, tb: Type)
    requires ta.Vector? && ArithResult(op, ta, tb).Some?
    ensures ArithResult(op, ta, tb) == Some(ta)
  {
  }

  /** A vector result has the inferred type of the first operand. */
  lemma {:induction false} ArithShape(
    fo: FloatOps, structs: Structs, op: BinaryOp, a: Value, b: Value, lt: Type, t: Type)
    requires !IsComparison(op) && op !in {And, Or} && BinaryValue(fo, op, a, b).Some?
    requires InferredRight(structs, lt, a) && !a.VUndef? && !b.VUndef?
    requires if lt.IsComposite() then t == lt else InferredRight(structs, t, b)
    ensures InferredRight(structs, t, BinaryValue(fo, op, a, b).value)
  {
    hide HlslArith, ArithFn, HasType, ArithResult, FlatType;
    assert BinaryValue(fo, op, a, b) == ArithValue(fo, op, a, b);
    ArithTyped(fo, structs, op, a, b);
    if a.VVec? {
      FlatTyped(structs, a, lt);
      VectorArithResult(op, lt, FlatType(b).value);
    } else {
      ScalarResult(structs, ArithValue(fo, op, a, b).value, a, b, t, lt);
    }
  }
}
