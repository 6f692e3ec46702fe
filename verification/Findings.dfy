/** Programs on which emitted code departs from HLSL; `Coverage` has the exact conditions for operators. */
module Findings {
  import opened Wrappers
  import opened Ast
  import opened Values
  import opened HlslMeaning
  import opened HlslSemantics
  import opened SpirvMachine
  import opened EmitterSpec
  import opened EmitterFacts
  import opened Scoping
  import opened ExprPreservation
  import opened StmtPreservation
  import opened BodyPreservation
  import opened Coverage
  import opened StatementRuns

  // --- operands treated wrongly ---

  /** `1 + w` with a float `w`: HLSL adds floats, the emitted opcode cannot take the int. */
  lemma {:induction false} MixedSumWrong(fo: FloatOps, w: Word)
    ensures var (a, b) := (VScalar(EInt(1)), VScalar(EFloat(w)));
      && HlslArith(fo, Add, a, b) == Some(VScalar(EFloat(fo.add(fo.sToF(1), w))))
      && ArithOpcode(Add, Scalar(Float)) == Some(FAdd) && Lift2(BinFn(fo, FAdd, Float), a, b) == None
  {
  }

  /** `v * w` with a float vector `v` and a float `w`: HLSL scales, the emitted opcode needs two vectors. */
  lemma {:induction false} ScaledVectorWrong(fo: FloatOps, x: Word, y: Word, w: Word)
    ensures var (a, b) := (VVec([EFloat(x), EFloat(y)]), VScalar(EFloat(w)));
      && HlslArith(fo, Mul, a, b) == Some(VVec([EFloat(fo.mul(x, w)), EFloat(fo.mul(y, w))]))
      && ArithOpcode(Mul, Vector(Float, 2)) == Some(FMul) && Lift2(BinFn(fo, FMul, Float), a, b) == None
  {
    var c, d := [EFloat(x), EFloat(y)], [EFloat(w), EFloat(w)];
    assert Reshape(VScalar(EFloat(w)), VVec(c)) == VVec(d);
    ZipMapExact(ArithFn(fo, Mul), c, d, [EFloat(fo.mul(x, w)), EFloat(fo.mul(y, w))]);
  }

  /** `!0`: HLSL has true, the emitted opcode flips the bits of the int. */
  lemma {:induction false} NotZeroWrong(fo: FloatOps)
    ensures HlslUnary(fo, Not, VScalar(EInt(0))) == Some(VScalar(EBool(true)))
    ensures UnaryOpcode(Not, Scalar(Int)) == Some(BitwiseNot)
    ensures Lift2(UnFn(fo, BitwiseNot, Int), VScalar(EInt(0)), VScalar(EInt(0))) == Some(VScalar(EInt(0xFFFF_FFFF)))
  {
  }

  /** `0u < 0x80000000u` is emitted as a signed comparison and yields false. */
  lemma {:induction false} UintComparisonWrong(fo: FloatOps)
    ensures HlslCompare(fo, Lt, VScalar(EUint(0)), VScalar(EUint(0x8000_0000))) == Some(VScalar(EBool(true)))
    ensures CompareOpcode(Lt, false) == Some(SLessThan)
    ensures Lift2(BinFn(fo, SLessThan, Bool), VScalar(EUint(0)), VScalar(EUint(0x8000_0000))) == Some(VScalar(EBool(false)))
  {
  }

  /** `v && v` on bool vectors: HLSL has a vector, the emitted instruction names a scalar as its result. */
  lemma {:induction false} VectorAndWrong(fo: FloatOps, structs: Structs, p: bool, q: bool)
    ensures var v := VVec([EBool(p), EBool(q)]);
      && HlslLogical(fo, And, v, v) == Some(v)
      && Lift2(BinFn(fo, LogicalAnd, Bool), v, v) == Some(v) && !HasType(structs, v, Scalar(Bool))
  {
    var c := [EBool(p), EBool(q)];
    ZipMapExact(HlslLogicalFn(fo, And), c, c, c);
    ZipMapExact(BinFn(fo, LogicalAnd, Bool), c, c, c);
  }

  /** `float2(w, 1)`: HLSL converts the int, the emitted vector keeps it and is not a float vector. */
  lemma {:induction false} MixedConstructorWrong(fo: FloatOps, structs: Structs, w: Word)
    ensures var vs := [VScalar(EFloat(w)), VScalar(EInt(1))];
      && HlslConstruct(fo, Vector(Float, 2), vs) == Some(VVec([EFloat(w), EFloat(fo.sToF(1))]))
      && Flatten(vs) == Some([EFloat(w), EInt(1)]) && !HasType(structs, VVec([EFloat(w), EInt(1)]), Vector(Float, 2))
  {
    var vs := [VScalar(EFloat(w)), VScalar(EInt(1))];
    var c := [EFloat(w), EInt(1)];
    assert vs[1..] == [VScalar(EInt(1))] && vs[1..][1..] == [];
    assert Flatten(vs[1..][1..]) == Some([]) && [EInt(1)] + [] == [EInt(1)] && [EFloat(w)] + [EInt(1)] == c;
    assert Flatten(vs[1..]) == Some([EInt(1)]) && Flatten(vs) == Some(c);
    assert ConvertFlat(fo, VVec(c), Vector(Float, 2)).value.c == [EFloat(w), EFloat(fo.sToF(1))];
    assert KindOf(c[1]) != Float;
  }

  /** `abs(-1)`: HLSL has the int 1, the emitted instruction takes floats only. */
  lemma {:induction false} IntegerAbsWrong(fo: FloatOps)
    ensures var vs := [VScalar(EInt(0xFFFF_FFFF))];
      HlslFn(fo, FAbs, vs) == Some(VScalar(EInt(1))) && ApplyFn(fo, FAbs, vs) == None
  {
    var vs := [VScalar(EInt(0xFFFF_FFFF))];
    assert Floats(vs[0]).None? && AllFloats(vs).None?;
  }

  /** `mul(v, w)` of two float vectors: HLSL has their dot product, the emitted code their componentwise product. */
  lemma {:induction false} VectorProductWrong(fo: FloatOps, x: Word, y: Word, z: Word, w: Word)
    ensures var (a, b) := (VVec([EFloat(x), EFloat(y)]), VVec([EFloat(z), EFloat(w)]));
      && HlslMul(fo, a, b) == Some(VScalar(EFloat(fo.dot([x, y], [z, w]))))
      && ArithOpcode(Mul, Vector(Float, 2)) == Some(FMul)
      && Lift2(BinFn(fo, FMul, Float), a, b) == Some(VVec([EFloat(fo.mul(x, z)), EFloat(fo.mul(y, w))]))
  {
    var c, d := [EFloat(x), EFloat(y)], [EFloat(z), EFloat(w)];
    ZipMapExact(BinFn(fo, FMul, Float), c, d, [EFloat(fo.mul(x, z)), EFloat(fo.mul(y, w))]);
    assert seq(2, i requires 0 <= i < |c| => ConvertElem(fo, c[i], Float).w) == [x, y];
    assert seq(2, i requires 0 <= i < |d| => ConvertElem(fo, d[i], Float).w) == [z, w];
    assert HlslDot(fo, VVec(c), VVec(d)) == Some(VScalar(EFloat(fo.dot([x, y], [z, w]))));
  }

  // --- the same, compiled and run ---

  lemma {:induction false} FlatTypeOf(structs: Structs, v: Value, t: Type)
    requires HasType(structs, v, t) && (v.VScalar? || (v.VVec? && |v.c| > 0))
    ensures t == if v.VScalar? then Scalar(KindOf(v.e)) else Vector(KindOf(v.c[0]), |v.c|)
  {
  }

  /** Constructors of two literals. */
  function Float2(p: F64, q: F64): Expr { Construct(Vector(Float, 2), [Lit(FloatLit(p)), Lit(FloatLit(q))]) }

  function Bool2(p: bool, q: bool): Expr { Construct(Vector(Bool, 2), [Lit(BoolLit(p)), Lit(BoolLit(q))]) }

  ghost function Float2Value(fo: FloatOps, p: F64, q: F64): Value { VVec([EFloat(fo.round(p)), EFloat(fo.round(q))]) }

  lemma {:induction false} PairEval(fo: FloatOps, structs: Structs, k: ScalarKind, p: Literal, q: Literal)
    requires KindOf(LitValue(fo, p).e) == k && KindOf(LitValue(fo, q).e) == k
    ensures EvalExpr(fo, structs, [], Construct(Vector(k, 2), [Lit(p), Lit(q)]))
         == Done((VVec([LitValue(fo, p).e, LitValue(fo, q).e]), []))
  {
    var args := [Lit(p), Lit(q)];
    var vs := [LitValue(fo, p), LitValue(fo, q)];
    hide ConstructValue;
    TwoArguments(fo, structs, Lit(p), Lit(q), vs[0], vs[1]);
    PairConstructs(fo, k, LitValue(fo, p).e, LitValue(fo, q).e);
    assert vs == [VScalar(LitValue(fo, p).e), VScalar(LitValue(fo, q).e)];
  }

  lemma {:induction false} PairConstructs(fo: FloatOps, k: ScalarKind, p: Elem, q: Elem)
    requires KindOf(p) == k && KindOf(q) == k
    ensures ConstructValue(fo, Vector(k, 2), [VScalar(p), VScalar(q)]) == Some(VVec([p, q]))
  {
    var vs := [VScalar(p), VScalar(q)];
    PairFlattens(p, q);
    assert Flatten(vs) == Some([p, q]);
  }

  lemma {:induction false} PairFlattens(p: Elem, q: Elem)
    ensures Flatten([VScalar(p), VScalar(q)]) == Some([p, q])
  {
    var vs := [VScalar(p), VScalar(q)];
    assert vs[1..] == [VScalar(q)] && vs[1..][1..] == [];
    assert Flatten(vs[1..][1..]) == Some([]) && [q] + [] == [q] && [p] + [q] == [p, q];
    assert Flatten(vs[1..]) == Some([q]);
  }

  lemma {:induction false} TwoArguments(fo: FloatOps, structs: Structs, a: Expr, b: Expr, x: Value, y: Value)
    requires EvalExpr(fo, structs, [], a) == Done((x, [])) && EvalExpr(fo, structs, [], b) == Done((y, []))
    ensures EvalArgs(fo, structs, [], [a, b]) == Done(([x, y], []))
  {
    var args := [a, b];
    assert args[1..] == [b] && args[1..][1..] == [];
    assert EvalArgs(fo, structs, [], args[1..][1..]) == Done(([], []));
    assert [y] + [] == [y] && [x] + [y] == [x, y];
    assert EvalArgs(fo, structs, [], args[1..]) == Done(([y], []));
  }

  /** `{ 1 + f; }` with a float literal `f` breaks the machine. */
  lemma {:induction false} MixedSumBreaks(cx: Cx, g: Globals, entry: Id, f: F64, m: Mach) returns (k: nat)
    requires Setting(cx, g, entry, [], Lone(Binary(Add, Lit(IntLit(1)), Lit(FloatLit(f)))), [], m)
    ensures Leaves(cx, g, entry, Binary(Add, Lit(IntLit(1)), Lit(FloatLit(f))), m, k, None)
  {
    hide Setting, Leaves, HasType, BinFn;
    var x, y := VScalar(EInt(1)), VScalar(EFloat(cx.fo.round(f)));
    var ta, tb;
    k, ta, tb := OperatorLeaves(cx, g, entry, Add, Lit(IntLit(1)), Lit(FloatLit(f)), m, x, y);
    FlatTypeOf(cx.structs, x, ta);
    FlatTypeOf(cx.structs, y, tb);
    MixedSumWrong(cx.fo, cx.fo.round(f));
  }

  /** `{ float2(p, q) * f; }` breaks it. */
  lemma {:induction false} ScaledVectorBreaks(cx: Cx, g: Globals, entry: Id, p: F64, q: F64, f: F64, m: Mach) returns (k: nat)
    requires Setting(cx, g, entry, [], Lone(Binary(Mul, Float2(p, q), Lit(FloatLit(f)))), [], m)
    ensures Leaves(cx, g, entry, Binary(Mul, Float2(p, q), Lit(FloatLit(f))), m, k, None)
  {
    hide Setting, Leaves, HasType, BinFn;
    PairEval(cx.fo, cx.structs, Float, FloatLit(p), FloatLit(q));
    var x, y := Float2Value(cx.fo, p, q), VScalar(EFloat(cx.fo.round(f)));
    var ta, tb;
    k, ta, tb := OperatorLeaves(cx, g, entry, Mul, Float2(p, q), Lit(FloatLit(f)), m, x, y);
    FlatTypeOf(cx.structs, x, ta);
    ScaledVectorWrong(cx.fo, cx.fo.round(p), cx.fo.round(q), cx.fo.round(f));
  }

  /** `{ !0; }` leaves 0xFFFFFFFF. */
  lemma {:induction false} NotZeroLeaves(cx: Cx, g: Globals, entry: Id, m: Mach) returns (k: nat)
    requires Setting(cx, g, entry, [], Lone(Unary(Not, Lit(IntLit(0)))), [], m)
    ensures Leaves(cx, g, entry, Unary(Not, Lit(IntLit(0))), m, k, Some(VScalar(EInt(0xFFFF_FFFF))))
  {
    hide Setting, Leaves, UnFn;
    var x := VScalar(EInt(0));
    var ty;
    k, ty := UnaryLeaves(cx, g, entry, Not, Lit(IntLit(0)), m, x);
    FlatTypeOf(cx.structs, x, ty);
    NotZeroWrong(cx.fo);
  }

  /** `{ 0u < 0x80000000u; }` leaves false. */
  lemma {:induction false} UintComparisonLeaves(cx: Cx, g: Globals, entry: Id, m: Mach) returns (k: nat)
    requires Setting(cx, g, entry, [], Lone(Binary(Lt, Lit(UintLit(0)), Lit(UintLit(0x8000_0000)))), [], m)
    ensures Leaves(cx, g, entry, Binary(Lt, Lit(UintLit(0)), Lit(UintLit(0x8000_0000))), m, k, Some(VScalar(EBool(false))))
  {
    hide Setting, Leaves, BinFn;
    var x, y := VScalar(EUint(0)), VScalar(EUint(0x8000_0000));
    var ta, tb;
    k, ta, tb := OperatorLeaves(cx, g, entry, Lt, Lit(UintLit(0)), Lit(UintLit(0x8000_0000)), m, x, y);
    FlatTypeOf(cx.structs, x, ta);
    UintComparisonWrong(cx.fo);
  }

  /** `{ bool2(p, q) && bool2(p, q); }` breaks the machine. */
  lemma {:induction false} VectorAndBreaks(cx: Cx, g: Globals, entry: Id, p: bool, q: bool, m: Mach) returns (k: nat)
    requires Setting(cx, g, entry, [], Lone(Binary(And, Bool2(p, q), Bool2(p, q))), [], m)
    ensures Leaves(cx, g, entry, Binary(And, Bool2(p, q), Bool2(p, q)), m, k, None)
  {
    hide Setting, Leaves, HasType, BinFn;
    PairEval(cx.fo, cx.structs, Bool, BoolLit(p), BoolLit(q));
    var x := VVec([EBool(p), EBool(q)]);
    var ta, tb;
    k, ta, tb := OperatorLeaves(cx, g, entry, And, Bool2(p, q), Bool2(p, q), m, x, x);
    VectorAndWrong(cx.fo, cx.structs, p, q);
  }

  /** `{ float2(f, 1); }` breaks it. */
  lemma {:induction false} MixedConstructorBreaks(cx: Cx, g: Globals, entry: Id, f: F64, m: Mach) returns (k: nat)
    requires Setting(cx, g, entry, [], Lone(Construct(Vector(Float, 2), [Lit(FloatLit(f)), Lit(IntLit(1))])), [], m)
    ensures Leaves(cx, g, entry, Construct(Vector(Float, 2), [Lit(FloatLit(f)), Lit(IntLit(1))]), m, k, None)
  {
    hide Setting, Leaves, HasType, Finished, Within, Flatten, Ids, EmitExpr;
    var w := cx.fo.round(f);
    var vs := [VScalar(EFloat(w)), VScalar(EInt(1))];
    var e := Construct(Vector(Float, 2), [Lit(FloatLit(f)), Lit(IntLit(1))]);
    TwoArguments(cx.fo, cx.structs, Lit(FloatLit(f)), Lit(IntLit(1)), vs[0], vs[1]);
    var n, fin, st, vals, m1 := ArgumentsRun(cx, g, entry, e, m, vs);
    MixedConstructorWrong(cx.fo, cx.structs, w);
    k := LastStep(cx, g, entry, e, m, fin, n, st, m1, OpCompositeConstruct(st.nextId, e.ty, Ids(vals)), None);
  }

  lemma {:induction false} MinusOne(fo: FloatOps, structs: Structs)
    ensures EvalArgs(fo, structs, [], [Unary(Neg, Lit(IntLit(1)))]) == Done(([VScalar(EInt(0xFFFF_FFFF))], []))
  {
    var args := [Unary(Neg, Lit(IntLit(1)))];
    var v := VScalar(EInt(0xFFFF_FFFF));
    assert EvalExpr(fo, structs, [], args[0]) == Done((v, []));
    assert args[1..] == [] && [v] + [] == [v];
  }

  /** `{ abs(-1); }` breaks it. */
  lemma {:induction false} IntegerAbsBreaks(cx: Cx, g: Globals, entry: Id, m: Mach) returns (k: nat)
    requires Setting(cx, g, entry, [], Lone(Call("abs", [Unary(Neg, Lit(IntLit(1)))])), [], m)
    ensures Leaves(cx, g, entry, Call("abs", [Unary(Neg, Lit(IntLit(1)))]), m, k, None)
  {
    hide Setting, Leaves, HasType, Finished, Within, Ids, EmitExpr, EvalExpr, ApplyFn;
    var e := Call("abs", [Unary(Neg, Lit(IntLit(1)))]);
    var vs := [VScalar(EInt(0xFFFF_FFFF))];
    MinusOne(cx.fo, cx.structs);
    var n, fin, st, vals, m1 := ArgumentsRun(cx, g, entry, e, m, vs);
    IntegerAbsWrong(cx.fo);
    k := LastStep(cx, g, entry, e, m, fin, n, st, m1, OpExtInst(st.nextId, vals[0].ty, 4, Ids(vals)), None);
  }

  lemma {:induction false} ProductInstr(g: Globals, st: St, vals: seq<Val>)
    requires FinishCall(g, st, "mul", vals).Ok? && |vals| == 2 && vals[0].ty == vals[1].ty == Vector(Float, 2)
    ensures var i := OpBin(st.nextId, FMul, Vector(Float, 2), vals[0].id, vals[1].id);
      PushNew(st, i).Ok? && FinishCall(g, st, "mul", vals) == Ok((PushNew(st, i).value.0, Val(st.nextId, Vector(Float, 2))))
  {
    hide FinishCall, EmitArith, PushNew;
    MulParts(g, st, vals);
    OperatorInstr(g, st, Mul, vals[0], vals[1]);
  }

  lemma {:induction false} ProductMade(cx: Cx, p: F64, q: F64, r: F64, s: F64)
    ensures Made(cx, (FMul, Vector(Float, 2)), Float2Value(cx.fo, p, q), Float2Value(cx.fo, r, s))
         == Some(VVec([EFloat(cx.fo.mul(cx.fo.round(p), cx.fo.round(r))), EFloat(cx.fo.mul(cx.fo.round(q), cx.fo.round(s)))]))
  {
    hide BinFn;
    VectorProductWrong(cx.fo, cx.fo.round(p), cx.fo.round(q), cx.fo.round(r), cx.fo.round(s));
  }

  /** `{ mul(float2(p, q), float2(r, s)); }` leaves the componentwise product. */
  lemma {:induction false} VectorProductLeaves(cx: Cx, g: Globals, entry: Id, p: F64, q: F64, r: F64, s: F64, m: Mach)
    returns (k: nat)
    requires Setting(cx, g, entry, [], Lone(Call("mul", [Float2(p, q), Float2(r, s)])), [], m)
    ensures Leaves(cx, g, entry, Call("mul", [Float2(p, q), Float2(r, s)]), m, k,
                   Some(VVec([EFloat(cx.fo.mul(cx.fo.round(p), cx.fo.round(r))), EFloat(cx.fo.mul(cx.fo.round(q), cx.fo.round(s)))])))
  {
    hide Setting, Leaves, Finished, Within, Ids, EmitExpr, EvalExpr, EmitArith, Made, HasType;
    var e := Call("mul", [Float2(p, q), Float2(r, s)]);
    PairEval(cx.fo, cx.structs, Float, FloatLit(p), FloatLit(q));
    PairEval(cx.fo, cx.structs, Float, FloatLit(r), FloatLit(s));
    var x, y := Float2Value(cx.fo, p, q), Float2Value(cx.fo, r, s);
    TwoArguments(cx.fo, cx.structs, e.args[0], e.args[1], x, y);
    var n, fin, st, vals, m1 := ArgumentsRun(cx, g, entry, e, m, [x, y]);
    assert vals[0].ty == Vector(Float, 2) && vals[1].ty == Vector(Float, 2) by {
      FlatTypeOf(cx.structs, x, vals[0].ty);
      FlatTypeOf(cx.structs, y, vals[1].ty);
    }
    hide Float2Value, EvalArgs;
    ProductMade(cx, p, q, r, s);
    ProductInstr(g, st, vals);
    var code := (FMul, Vector(Float, 2));
    OperatorMakes(cx, st.nextId, code, vals[0], vals[1], m1, x, y);
    k := LastStep(cx, g, entry, e, m, fin, n, st, m1, OpBin(st.nextId, FMul, code.1, vals[0].id, vals[1].id), Made(cx, code, x, y));
  }

  lemma {:induction false} LoneAccepted(g: Globals, entry: Id, e: Expr)
    requires g.inputs == [] && EmitExpr(g, EntrySt(entry), e).Ok?
    ensures EmitBody(g, entry, [], Lone(e)).Ok?
  {
    hide EmitExpr;
    var st0 := EntrySt(entry);
    var st1 := EmitExpr(g, st0, e).value.0;
    assert Lone(e).stmts[1..] == [] && EmitStmt(g, st0, Lone(e).stmts[0]) == Ok(st1);
    assert st1.open.Some? ==> EmitStmts(g, st1, []) == Ok(st1);
    assert EmitStmts(g, st0, Lone(e).stmts) == Ok(st1);
  }

  lemma {:induction false} PairEmitted(g: Globals, st: St, k: ScalarKind, p: Literal, q: Literal)
    requires st.open.Some?
    ensures var r := EmitExpr(g, st, Construct(Vector(k, 2), [Lit(p), Lit(q)]));
      r.Ok? && r.value.0.open.Some? && r.value.1.ty == Vector(k, 2)
    ensures var r := EmitArgs(g, st, [Lit(p), Lit(q)]); r.Ok? && r.value.0.open.Some?
  {
    var args := [Lit(p), Lit(q)];
    assert args[1..] == [Lit(q)] && args[1..][1..] == [];
    var (st1, a) := EmitLit(st, p);
    var (st2, b) := EmitLit(st1, q);
    assert EmitArgs(g, st2, args[1..][1..]) == Ok((st2, []));
    assert EmitArgs(g, st1, args[1..]) == Ok((st2, [b] + []));
    assert EmitArgs(g, st, args).Ok?;
  }

  /** All of them compile. */
  lemma {:induction false} StatementsAccepted(g: Globals, entry: Id, f: F64, p: F64, q: F64, r: F64, s: F64, b: bool, c: bool)
    requires g.inputs == []
    ensures EmitBody(g, entry, [], Lone(Binary(Add, Lit(IntLit(1)), Lit(FloatLit(f))))).Ok?
    ensures EmitBody(g, entry, [], Lone(Binary(Mul, Float2(p, q), Lit(FloatLit(f))))).Ok?
    ensures EmitBody(g, entry, [], Lone(Unary(Not, Lit(IntLit(0))))).Ok?
    ensures EmitBody(g, entry, [], Lone(Binary(Lt, Lit(UintLit(0)), Lit(UintLit(0x8000_0000))))).Ok?
    ensures EmitBody(g, entry, [], Lone(Binary(And, Bool2(b, c), Bool2(b, c)))).Ok?
    ensures EmitBody(g, entry, [], Lone(Construct(Vector(Float, 2), [Lit(FloatLit(f)), Lit(IntLit(1))]))).Ok?
    ensures EmitBody(g, entry, [], Lone(Call("abs", [Unary(Neg, Lit(IntLit(1)))]))).Ok?
    ensures EmitBody(g, entry, [], Lone(Call("mul", [Float2(p, q), Float2(r, s)]))).Ok?
  {
    hide EmitBody, Lone;
    var st0 := EntrySt(entry);
    ScalarsEmitted(g, st0, f);
    LoneAccepted(g, entry, Binary(Add, Lit(IntLit(1)), Lit(FloatLit(f))));
    LoneAccepted(g, entry, Unary(Not, Lit(IntLit(0))));
    LoneAccepted(g, entry, Binary(Lt, Lit(UintLit(0)), Lit(UintLit(0x8000_0000))));
    VectorsEmitted(g, st0, f, p, q, b, c);
    LoneAccepted(g, entry, Binary(Mul, Float2(p, q), Lit(FloatLit(f))));
    LoneAccepted(g, entry, Binary(And, Bool2(b, c), Bool2(b, c)));
    CallsEmitted(g, st0, f, p, q, r, s);
    LoneAccepted(g, entry, Construct(Vector(Float, 2), [Lit(FloatLit(f)), Lit(IntLit(1))]));
    LoneAccepted(g, entry, Call("abs", [Unary(Neg, Lit(IntLit(1)))]));
    LoneAccepted(g, entry, Call("mul", [Float2(p, q), Float2(r, s)]));
  }

  lemma {:induction false} OperatorEmitted(g: Globals, st: St, op: BinaryOp, lhs: Expr, rhs: Expr, st1: St, a: Val, st2: St, b: Val)
    requires op != Assign && !IsCompound(op)
    requires EmitExpr(g, st, lhs) == Ok((st1, a)) && EmitExpr(g, st1, rhs) == Ok((st2, b))
    ensures EmitExpr(g, st, Binary(op, lhs, rhs)) == FinishOperator(g, st2, op, a, b)
  {
  }

  lemma {:induction false} LiteralEmitted(g: Globals, st: St, lit: Literal)
    ensures EmitExpr(g, st, Lit(lit)) == Ok(EmitLit(st, lit)) && EmitLit(st, lit).0.open == st.open
  {
  }

  lemma {:induction false} ScalarsEmitted(g: Globals, st: St, f: F64)
    requires st.open.Some?
    ensures EmitExpr(g, st, Binary(Add, Lit(IntLit(1)), Lit(FloatLit(f)))).Ok?
    ensures EmitExpr(g, st, Unary(Not, Lit(IntLit(0)))).Ok?
    ensures EmitExpr(g, st, Binary(Lt, Lit(UintLit(0)), Lit(UintLit(0x8000_0000)))).Ok?
  {
    LiteralsEmitted(g, st, Add, IntLit(1), FloatLit(f));
    LiteralsEmitted(g, st, Lt, UintLit(0), UintLit(0x8000_0000));
    assert EmitExpr(g, st, Unary(Not, Lit(IntLit(0)))).Ok? by {
      LiteralEmitted(g, st, IntLit(0));
    }
  }

  lemma {:induction false} LiteralsEmitted(g: Globals, st: St, op: BinaryOp, p: Literal, q: Literal)
    requires st.open.Some? && op in {Add, Lt} && (op == Add ==> p.IntLit? && q.FloatLit?)
    ensures EmitExpr(g, st, Binary(op, Lit(p), Lit(q))).Ok?
  {
    hide EmitExpr;
    LiteralEmitted(g, st, p);
    var (st1, a) := EmitLit(st, p);
    LiteralEmitted(g, st1, q);
    var (st2, b) := EmitLit(st1, q);
    OperatorEmitted(g, st, op, Lit(p), Lit(q), st1, a, st2, b);
  }

  lemma {:induction false} VectorsEmitted(g: Globals, st: St, f: F64, p: F64, q: F64, b: bool, c: bool)
    requires st.open.Some?
    ensures EmitExpr(g, st, Binary(Mul, Float2(p, q), Lit(FloatLit(f)))).Ok?
    ensures EmitExpr(g, st, Binary(And, Bool2(b, c), Bool2(b, c))).Ok?
  {
    hide EmitExpr;
    PairEmitted(g, st, Float, FloatLit(p), FloatLit(q));
    var (st1, u) := EmitExpr(g, st, Float2(p, q)).value;
    LiteralEmitted(g, st1, FloatLit(f));
    var (st2, v) := EmitLit(st1, FloatLit(f));
    OperatorEmitted(g, st, Mul, Float2(p, q), Lit(FloatLit(f)), st1, u, st2, v);
    PairEmitted(g, st, Bool, BoolLit(b), BoolLit(c));
    var (st3, x) := EmitExpr(g, st, Bool2(b, c)).value;
    PairEmitted(g, st3, Bool, BoolLit(b), BoolLit(c));
    var (st4, y) := EmitExpr(g, st3, Bool2(b, c)).value;
    OperatorEmitted(g, st, And, Bool2(b, c), Bool2(b, c), st3, x, st4, y);
  }

  lemma {:induction false} CallsEmitted(g: Globals, st: St, f: F64, p: F64, q: F64, r: F64, s: F64)
    requires st.open.Some?
    ensures EmitExpr(g, st, Construct(Vector(Float, 2), [Lit(FloatLit(f)), Lit(IntLit(1))])).Ok?
    ensures EmitExpr(g, st, Call("abs", [Unary(Neg, Lit(IntLit(1)))])).Ok?
    ensures EmitExpr(g, st, Call("mul", [Float2(p, q), Float2(r, s)])).Ok?
  {
    PairEmitted(g, st, Float, FloatLit(f), IntLit(1));
    AbsEmitted(g, st);
    PairEmitted(g, st, Float, FloatLit(p), FloatLit(q));
    var (st1, a) := EmitExpr(g, st, Float2(p, q)).value;
    PairEmitted(g, st1, Float, FloatLit(r), FloatLit(s));
    var (st2, b) := EmitExpr(g, st1, Float2(r, s)).value;
    hide EmitExpr;
    var args := [Float2(p, q), Float2(r, s)];
    assert args[1..] == [Float2(r, s)] && args[1..][1..] == [];
    assert EmitArgs(g, st2, args[1..][1..]) == Ok((st2, []));
    assert EmitArgs(g, st1, args[1..]) == Ok((st2, [b] + []));
    assert EmitArgs(g, st, args) == Ok((st2, [a] + ([b] + [])));
    CallEmitted(g, st, "mul", args);
  }

  lemma {:induction false} CallEmitted(g: Globals, st: St, name: string, args: seq<Expr>)
    requires EmitArgs(g, st, args).Ok?
    ensures var (st1, vals) := EmitArgs(g, st, args).value; EmitExpr(g, st, Call(name, args)) == FinishCall(g, st1, name, vals)
  {
    hide FinishCall;
  }

  lemma {:induction false} AbsEmitted(g: Globals, st: St)
    requires st.open.Some?
    ensures EmitExpr(g, st, Call("abs", [Unary(Neg, Lit(IntLit(1)))])).Ok?
  {
    var args := [Unary(Neg, Lit(IntLit(1)))];
    assert args[1..] == [];
    var (st1, a) := EmitExpr(g, st, args[0]).value;
    assert EmitArgs(g, st, args) == Ok((st1, [a] + []));
    hide EmitArgs;
    CallEmitted(g, st, "abs", args);
  }

  // --- initialisers ---

  /** The function `{ float x = 1; }`. */
  const FLOAT_FROM_INT: Block := Block([Decl(VarDecl(Scalar(Float), "x", Some(Lit(IntLit(1))), None))])

  /** It compiles, and HLSL converts the 1. */
  lemma {:induction false} InitialiserAccepted(g: Globals, entry: Id, fo: FloatOps)
    requires g.inputs == []
    ensures EmitBody(g, entry, [], FLOAT_FROM_INT).Ok?
    ensures HlslConvert(fo, g.structs, LitValue(fo, IntLit(1)), Scalar(Float)) == Some(VScalar(EFloat(fo.sToF(1))))
  {
    assert FLOAT_FROM_INT.stmts[1..] == [];
  }

  /** The machine breaks on it, whatever surrounds it: the initial value is stored unconverted. */
  lemma {:induction false} InitialiserUnconverted(cx: Cx, g: Globals, entry: Id, m: Mach) returns (k: nat)
    requires Setting(cx, g, entry, [], FLOAT_FROM_INT, [], m)
    ensures Steps(cx, Start(m), k) == Broken
  {
    hide Good, Ready, Agree, EnvTyped, ProgramOf, HasType, Within, At, Steps, Loaded, SeedsTyped, InputsReady;
    var fin := EmitBody(g, entry, [], FLOAT_FROM_INT).value;
    var st1, st2 := BodyGood(g, entry, [], FLOAT_FROM_INT);
    var st0 := EntrySt(entry);
    var s := FLOAT_FROM_INT.stmts[0];
    assert FLOAT_FROM_INT.stmts[1..] == [] && st1 == st0 && EmitStmt(g, st0, s) == Ok(st2);
    assert Finished(cx, g, fin);
    SimVars(cx, g, entry, fin, [], [], m);
    var m0 := AfterVars(cx, fin.vars, m);
    var k1 := InitialiserExact(cx, g, fin, st0, s.decl, [], m0);
    IntIsNotFloat(cx.fo, cx.structs);
    StepsAdd(cx, Start(m), |fin.vars|, k1);
    k := |fin.vars| + k1;
  }

  /** The function `{ return 1; }`. */
  const INT_RETURNED: Block := Block([Return(Some(Lit(IntLit(1))))])

  /** With a float output the machine breaks on it. */
  lemma {:induction false} ReturnUnconverted(cx: Cx, g: Globals, entry: Id, m: Mach) returns (k: nat)
    requires g.outVar.Some? && g.outTy == Scalar(Float) && Setting(cx, g, entry, [], INT_RETURNED, [], m)
    ensures Steps(cx, Start(m), k) == Broken
  {
    hide Good, Ready, Agree, EnvTyped, ProgramOf, HasType, Within, At, Steps, Loaded, SeedsTyped, InputsReady;
    var fin := EmitBody(g, entry, [], INT_RETURNED).value;
    var st1, st2 := BodyGood(g, entry, [], INT_RETURNED);
    var st0 := EntrySt(entry);
    assert INT_RETURNED.stmts[1..] == [] && st1 == st0 && EmitStmt(g, st0, INT_RETURNED.stmts[0]) == Ok(st2);
    assert Finished(cx, g, fin);
    SimVars(cx, g, entry, fin, [], [], m);
    var m0 := AfterVars(cx, fin.vars, m);
    var k1 := ReturnExact(cx, g, fin, st0, Lit(IntLit(1)), [], m0);
    IntIsNotFloat(cx.fo, cx.structs);
    StepsAdd(cx, Start(m), |fin.vars|, k1);
    k := |fin.vars| + k1;
  }

  lemma {:induction false} ReturnAccepted(g: Globals, entry: Id)
    requires g.inputs == []
    ensures EmitBody(g, entry, [], INT_RETURNED).Ok?
  {
    assert INT_RETURNED.stmts[1..] == [];
  }

  lemma {:induction false} IntIsNotFloat(fo: FloatOps, structs: Structs)
    ensures !HasType(structs, LitValue(fo, IntLit(1)), Scalar(Float))
  {
  }

  // --- the flat table of locals ---

  /** A visible name still means the same local exactly when no entry added since re-uses it. */
  lemma {:induction false} TableStableExact(locals: seq<Local>, locals': seq<Local>, names: set<string>, x: string)
    requires Adds(locals, locals', names) && LookupLocal(locals, x).Some?
    ensures LookupLocal(locals', x) == LookupLocal(locals, x) <==> x !in names
  {
    var i := LookupLocal(locals, x).value;
    var added := locals'[|locals|..];
    assert locals'[i] == locals[i];
    if x in names {
      var k :| 0 <= k < |added| && added[k].name == x;
      assert locals'[|locals| + k].name == x;
    } else {
      forall k | |locals| <= k < |locals'| ensures locals'[k].name != x {
        assert added[k - |locals|].name in names;
      }
      AddsNoneLookup(locals, locals', {x}, x);
    }
  }

  /** A name means after a statement the local it meant before exactly when the statement does not declare it, at any
      depth, before the end of a block. In HLSL it always does, unless the statement is itself the declaration. */
  lemma {:induction false} LookupStableExact(g: Globals, st: St, s: Stmt, x: string)
    requires Good(st) && st.open.Some? && EmitStmt(g, st, s).Ok? && LookupLocal(st.locals, x).Some?
    ensures LookupLocal(EmitStmt(g, st, s).value.locals, x) == LookupLocal(st.locals, x) <==> x !in DeclaredWithin(s)
  {
    hide Good, Adds, EmitStmt, DeclaredWithin;
    EmitDeclares(g, st, s);
    TableStableExact(st.locals, EmitStmt(g, st, s).value.locals, DeclaredWithin(s), x);
  }

  /** `{ int x = 2; }` leaks: afterwards `x` denotes the inner variable, while in HLSL it denotes the outer. */
  lemma {:induction false} ScopeLeak(fo: FloatOps, g: Globals, st: St, fuel: nat, env: Env)
    requires Good(st) && st.open.Some? && LookupLocal(st.locals, "x").Some? && LookupEnv(env, "x").Some?
    ensures var s := Nested(Block([Decl(VarDecl(Scalar(Int), "x", Some(Lit(IntLit(2))), None))]));
      && ExecStmt(fo, g.structs, g.outTy, fuel, env, s) == Normal(env)
      && EmitStmt(g, st, s).Ok?
      && EmitPlace(g, EmitStmt(g, st, s).value, Ident("x")).Ok?
      && EmitPlace(g, EmitStmt(g, st, s).value, Ident("x")).value.1.id != EmitPlace(g, st, Ident("x")).value.1.id
      && !Scoped(s, {}, Names(env))
  {
    var d := VarDecl(Scalar(Int), "x", Some(Lit(IntLit(2))), None);
    var body := [Decl(d)];
    var s := Nested(Block(body));
    assert body[1..] == [];
    assert "x" in Names(env) by {
      assert env[LookupEnv(env, "x").value].name == "x";
    }
    assert !Scoped(body[0], {} + Names(env), {});
    var v := VScalar(EInt(Wrap(2)));
    assert ExecStmts(fo, g.structs, g.outTy, fuel, env, body) == Normal(env + [Binding("x", Scalar(Int), v)]) by {
      assert HasType(g.structs, v, Scalar(Int));
      assert ExecStmt(fo, g.structs, g.outTy, fuel, env, body[0]) == Normal(env + [Binding("x", Scalar(Int), v)]);
    }
    assert (env + [Binding("x", Scalar(Int), v)])[..|env|] == env;
    var st1 := EmitStmt(g, st, body[0]).value;
    assert EmitStmts(g, st, body) == Ok(st1);
    assert st1.locals[|st.locals|].name == "x";
    var i := LookupLocal(st.locals, "x").value;
    assert Var(st.locals[i].ptr, st.locals[i].ty) in st.vars;
  }
}
