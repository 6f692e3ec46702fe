/** Compound assignments against the operators in their names. */
module CompoundAssignment {
  import opened Wrappers
  import opened Ast
  import opened Values
  import opened HlslMeaning
  import opened HlslSemantics
  import opened SpirvMachine
  import opened EmitterSpec
  import opened EmitterFacts
  import opened OperatorAgreement
  import opened ExprPreservation
  import opened Coverage

  /** Operator symbols of the language: `x op= y` and `x op y`. */
  predicate Abbreviates(compound: BinaryOp, op: BinaryOp) {
    (compound, op) in {(AddAssign, Add), (SubAssign, Sub), (MulAssign, Mul), (DivAssign, Div)}
  }

  lemma {:induction false} ReadEval(fo: FloatOps, structs: Structs, env: Env, x: Expr)
    requires PlaceOf(structs, env, x).Some?
    ensures var r := EvalExpr(fo, structs, env, x); match ReadPlace(env, PlaceOf(structs, env, x).value)
      case Some(v) => r == Done((v, env))
      case None => r == Fault(ReadsUnwritten)
  {
    hide ReadPlace;
  }

  lemma {:induction false} OperatorEval(fo: FloatOps, structs: Structs, env: Env, op: BinaryOp, x: Expr, e: Expr)
    requires op in {Add, Sub, Mul, Div} && EvalExpr(fo, structs, env, Binary(op, x, e)).Done?
    ensures EvalExpr(fo, structs, env, x).Done?
    ensures var (a, env1) := EvalExpr(fo, structs, env, x).value;
      && EvalExpr(fo, structs, env1, e).Done?
      && var (b, env2) := EvalExpr(fo, structs, env1, e).value;
         ArithValue(fo, op, a, b).Some? && EvalExpr(fo, structs, env, Binary(op, x, e)) == Done((ArithValue(fo, op, a, b).value, env2))
  {
    hide ArithValue;
  }

  /** Evaluation of `x = x op e` step by step. */
  lemma {:induction false} SpelledOutParts(fo: FloatOps, structs: Structs, env: Env, op: BinaryOp, x: Expr, e: Expr)
    requires op in {Add, Sub, Mul, Div} && EvalExpr(fo, structs, env, Binary(Assign, x, Binary(op, x, e))).Done?
    ensures PlaceOf(structs, env, x).Some? && EvalExpr(fo, structs, env, e).Done?
    ensures var p := PlaceOf(structs, env, x).value; var (b, env1) := EvalExpr(fo, structs, env, e).value;
      && ReadPlace(env, p).Some? && ArithValue(fo, op, ReadPlace(env, p).value, b).Some?
      && var r := ArithValue(fo, op, ReadPlace(env, p).value, b).value;
         && ConvertTo(fo, structs, r, p.ty).Some?
         && var v := ConvertTo(fo, structs, r, p.ty).value;
            EvalExpr(fo, structs, env, Binary(Assign, x, Binary(op, x, e))) == Done((v, WritePlace(env1, p, v)))
  {
    hide ArithValue, ConvertTo, ReadPlace;
    AssignEval(fo, structs, env, x, Binary(op, x, e));
    hide EvalExpr;
    OperatorEval(fo, structs, env, op, x, e);
    ReadEval(fo, structs, env, x);
  }

  lemma {:induction false} AssignEval(fo: FloatOps, structs: Structs, env: Env, x: Expr, e: Expr)
    requires EvalExpr(fo, structs, env, Binary(Assign, x, e)).Done?
    ensures PlaceOf(structs, env, x).Some? && EvalExpr(fo, structs, env, e).Done?
    ensures var p := PlaceOf(structs, env, x).value; var (r, env1) := EvalExpr(fo, structs, env, e).value;
      && ConvertTo(fo, structs, r, p.ty).Some?
      && var v := ConvertTo(fo, structs, r, p.ty).value;
         EvalExpr(fo, structs, env, Binary(Assign, x, e)) == Done((v, WritePlace(env1, p, v)))
  {
    hide ConvertTo;
  }

  /** Evaluation of `x op= e`. */
  lemma {:induction false} CompoundEval(
    fo: FloatOps, structs: Structs, env: Env, compound: BinaryOp, op: BinaryOp, x: Expr, e: Expr)
    requires Abbreviates(compound, op) && PlaceOf(structs, env, x).Some? && EvalExpr(fo, structs, env, e).Done?
    requires ReadPlace(env, PlaceOf(structs, env, x).value).Some?
    ensures var p := PlaceOf(structs, env, x).value; var (b, env1) := EvalExpr(fo, structs, env, e).value;
      var w := CompoundValue(fo, op, p.ty, ReadPlace(env, p).value, b); var r := EvalExpr(fo, structs, env, Binary(compound, x, e));
      (r.Done? <==> w.Some?) && (w.Some? ==> r == Done((w.value, WritePlace(env1, p, w.value))))
  {
    hide CompoundValue, ReadPlace, WritePlace, PlaceOf, ArithTrap;
  }

  /** `x op= e` means `x = x op e`: wherever the latter has a value, the former has the same value and leaves the same
      variables. */
  lemma {:induction false} Desugars(
    fo: FloatOps, structs: Structs, env: Env, compound: BinaryOp, op: BinaryOp, x: Expr, e: Expr)
    requires Abbreviates(compound, op) && EnvTyped(structs, env)
    requires EvalExpr(fo, structs, env, Binary(Assign, x, Binary(op, x, e))).Done?
    ensures EvalExpr(fo, structs, env, Binary(compound, x, e)) == EvalExpr(fo, structs, env, Binary(Assign, x, Binary(op, x, e)))
  {
    hide EvalExpr, EnvTyped, ArithValue, ConvertTo, CompoundValue;
    SpelledOutParts(fo, structs, env, op, x, e);
    CompoundEval(fo, structs, env, compound, op, x, e);
    var p := PlaceOf(structs, env, x).value;
    ReadTyped(structs, env, p);
    SameValue(fo, structs, op, p.ty, ReadPlace(env, p).value, EvalExpr(fo, structs, env, e).value.0);
  }

  lemma {:induction false} SameValue(fo: FloatOps, structs: Structs, op: BinaryOp, ty: Type, a: Value, b: Value)
    requires HasType(structs, a, ty) && !a.VUndef? && ArithValue(fo, op, a, b).Some?
    requires ConvertTo(fo, structs, ArithValue(fo, op, a, b).value, ty).Some?
    ensures CompoundValue(fo, op, ty, a, b) == ConvertTo(fo, structs, ArithValue(fo, op, a, b).value, ty)
  {
    hide HasType, HlslArith, ConvertFlat;
    var ta, tb := FlatType(a).value, FlatType(b).value;
    var r := HlslArith(fo, op, a, b).value;
    FlatTyped(structs, a, ty);
    ArithTyped(fo, structs, op, a, b);
    if ArithResult(op, ta, tb) == Some(ta) {
      SameConversion(fo, structs, r, ty);
    } else {
      assert HasType(structs, r, Scalar(Uint)) && ty == Scalar(Int);
      UintStays(fo, structs, r);
    }
  }

  lemma {:induction false} SameConversion(fo: FloatOps, structs: Structs, r: Value, ty: Type)
    requires HasType(structs, r, ty) && (ty.Scalar? || ty.Vector?) && !r.VUndef?
    ensures ConvertFlat(fo, r, ty) == ConvertTo(fo, structs, r, ty) == Some(r)
  {
    assert ConvertFlat(fo, r, ty).Some?;
    ConvertFlatTyped(fo, structs, r, ty);
  }

  lemma {:induction false} UintStays(fo: FloatOps, structs: Structs, r: Value)
    requires HasType(structs, r, Scalar(Uint)) && !r.VUndef?
    ensures ConvertTo(fo, structs, r, Scalar(Int)).None?
  {
  }

  /** Whatever `x op= e` stores is what HLSL makes of the old value and `e`, converted to the type of `x`. */
  lemma {:induction false} CompoundMeansHlsl(
    fo: FloatOps, structs: Structs, env: Env, compound: BinaryOp, op: BinaryOp, x: Expr, e: Expr)
    requires Abbreviates(compound, op) && EvalExpr(fo, structs, env, Binary(compound, x, e)).Done?
    ensures PlaceOf(structs, env, x).Some? && EvalExpr(fo, structs, env, e).Done?
    ensures var p := PlaceOf(structs, env, x).value; var (b, env1) := EvalExpr(fo, structs, env, e).value;
      && ReadPlace(env, p).Some? && HlslArith(fo, op, ReadPlace(env, p).value, b).Some?
      && var meant := ConvertFlat(fo, HlslArith(fo, op, ReadPlace(env, p).value, b).value, p.ty);
         meant.Some? && EvalExpr(fo, structs, env, Binary(compound, x, e)) == Done((meant.value, WritePlace(env1, p, meant.value)))
  {
    hide CompoundValue, ReadPlace;
    assert PlaceOf(structs, env, x).Some? && EvalExpr(fo, structs, env, e).Done?;
    assert ReadPlace(env, PlaceOf(structs, env, x).value).Some?;
    CompoundEval(fo, structs, env, compound, op, x, e);
    hide EvalExpr;
    ConvertedResult(fo, op, PlaceOf(structs, env, x).value.ty, ReadPlace(env, PlaceOf(structs, env, x).value).value,
                    EvalExpr(fo, structs, env, e).value.0);
  }

  lemma {:induction false} ConvertedResult(fo: FloatOps, op: BinaryOp, ty: Type, a: Value, b: Value)
    requires CompoundValue(fo, op, ty, a, b).Some?
    ensures HlslArith(fo, op, a, b).Some? && CompoundValue(fo, op, ty, a, b) == ConvertFlat(fo, HlslArith(fo, op, a, b).value, ty)
  {
    hide HlslArith, ConvertFlat;
  }

  // --- emission ---

  /** The SPIR-V opcodes of the four operators on floats, ints and uints. */
  function OpcodeOf(compound: BinaryOp, kind: ScalarKind): Option<BinOpcode> {
    match (compound, kind)
    case (AddAssign, Float) => Some(FAdd)
    case (SubAssign, Float) => Some(FSub)
    case (MulAssign, Float) => Some(FMul)
    case (DivAssign, Float) => Some(FDiv)
    case (AddAssign, Int) => Some(IAdd)
    case (SubAssign, Int) => Some(ISub)
    case (MulAssign, Int) => Some(IMul)
    case (DivAssign, Int) => Some(SDiv)
    case (AddAssign, Uint) => Some(IAdd)
    case (SubAssign, Uint) => Some(ISub)
    case (MulAssign, Uint) => Some(IMul)
    case (DivAssign, Uint) => Some(UDiv)
    case _ => None
  }

  /** Behind the code of place, old value and right-hand side a compound assignment emits the opcode of its operator on
      the two values, in this order, and a store into the place; it is always accepted then. */
  lemma {:induction false} CompoundEmits(
    g: Globals, st: St, compound: BinaryOp, x: Expr, e: Expr, st1: St, p: Val, st2: St, cur: Val, st3: St, v: Val)
    requires EmitPlace(g, st, x) == Ok((st1, p)) && EmitLoad(g, st1, p) == Ok((st2, cur)) && EmitExpr(g, st2, e) == Ok((st3, v))
    requires st3.open.Some? && compound in {AddAssign, SubAssign, MulAssign, DivAssign}
    requires var ty := if cur.ty.IsComposite() then cur.ty else v.ty; (ty.Scalar? || ty.Vector?) && ty.kind != Bool
    ensures var ty := if cur.ty.IsComposite() then cur.ty else v.ty; var r := EmitExpr(g, st, Binary(compound, x, e));
      && OpcodeOf(compound, ty.kind).Some? && r.Ok? && r.value.1 == Val(st3.nextId, ty)
      && r.value.0.open.Some?
      && r.value.0.open.value.instrs == st3.open.value.instrs
           + [OpBin(st3.nextId, OpcodeOf(compound, ty.kind).value, ty, cur.id, v.id), OpStore(p.id, st3.nextId)]
  {
    var ty := if cur.ty.IsComposite() then cur.ty else v.ty;
    var i := OpBin(st3.nextId, OpcodeOf(compound, ty.kind).value, ty, cur.id, v.id);
    ArithEmits(g, st3, compound, cur, v);
    CompoundUnfolds(g, st, compound, x, e, st1, p, st2, cur, st3, v, PushNew(st3, i).value.0, Val(st3.nextId, ty));
    assert st3.open.value.instrs + [i] + [OpStore(p.id, st3.nextId)] == st3.open.value.instrs + [i, OpStore(p.id, st3.nextId)];
  }

  lemma {:induction false} ArithEmits(g: Globals, st: St, compound: BinaryOp, a: Val, b: Val)
    requires st.open.Some? && compound in {AddAssign, SubAssign, MulAssign, DivAssign}
    requires var ty := if a.ty.IsComposite() then a.ty else b.ty; (ty.Scalar? || ty.Vector?) && ty.kind != Bool
    ensures var ty := if a.ty.IsComposite() then a.ty else b.ty;
      && OpcodeOf(compound, ty.kind).Some? && IsCompound(compound)
      && var i := OpBin(st.nextId, OpcodeOf(compound, ty.kind).value, ty, a.id, b.id);
         EmitArith(g, st, CoreOp(compound), a, b) == Ok((PushNew(st, i).value.0, Val(st.nextId, ty)))
  {
  }

  lemma {:induction false} CompoundUnfolds(
    g: Globals, st: St, compound: BinaryOp, x: Expr, e: Expr, st1: St, p: Val, st2: St, cur: Val, st3: St, v: Val, st4: St, r: Val)
    requires EmitPlace(g, st, x) == Ok((st1, p)) && EmitLoad(g, st1, p) == Ok((st2, cur)) && EmitExpr(g, st2, e) == Ok((st3, v))
    requires IsCompound(compound) && EmitArith(g, st3, CoreOp(compound), cur, v) == Ok((st4, r)) && st4.open.Some?
    ensures Push(st4, OpStore(p.id, r.id)).Ok?
    ensures EmitExpr(g, st, Binary(compound, x, e)) == Ok((Push(st4, OpStore(p.id, r.id)).value, r))
  {
    hide EmitArith, EmitLoad;
  }
}
