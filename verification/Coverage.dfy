/** Which operands the emitted code treats as HLSL does: for every operator, conversion, constructor and intrinsic
    the exact condition under which running the emitted instructions leaves the value `HlslMeaning` gives. */
module Coverage {
  import opened Wrappers
  import opened Ast
  import opened Values
  import opened HlslMeaning
  import opened HlslSemantics
  import opened SpirvMachine
  import opened EmitterSpec
  import opened EmitterFacts
  import opened OperatorAgreement
  import opened ExprPreservation
  import opened StmtPreservation
  import opened StmtSimulation

  // --- what one emitted instruction leaves ---

  /** The value an instruction puts in its register; `None` when the machine breaks on it. */
  ghost function Produced(cx: Cx, i: Instr, m: Mach): Option<Value> {
    match Compute(cx, i, m)
    case Some(v) => if HasType(cx.structs, v, ResultType(i)) then Some(v) else None
    case None => None
  }

  /** After `k` steps from `st` the machine has arrived at `st'` with the value `v` in register `id`. */
  ghost predicate Delivers(cx: Cx, fin: St, st: St, m: Mach, k: nat, st': St, id: Id, v: Option<Value>) {
    var c := Steps(cx, At(fin, st, m), k);
    v.Some? && c.Running? && c == At(fin, st', c.m) && ValueOf(c.m, id) == v
  }

  lemma {:induction false} DeliversExact(cx: Cx, g: Globals, fin: St, st: St, i: Instr, m: Mach, v: Option<Value>)
    requires Finished(cx, g, fin) && DefOf(i) == Some(st.nextId) && PushNew(st, i).Ok?
    requires Within(PushNew(st, i).value.0, fin) && !i.OpVariable? && !i.OpAccessChain?
    ensures Delivers(cx, fin, st, m, 1, PushNew(st, i).value.0, st.nextId, v) <==> v.Some? && Produced(cx, i, m) == v
    ensures Steps(cx, At(fin, st, m), 1) == match Produced(cx, i, m) {
      case Some(w) => At(fin, PushNew(st, i).value.0, m.(regs := m.regs[st.nextId := RV(w)]))
      case None => Broken
    }
  {
    hide Good, ProgramOf, HasType, Compute, Within;
    var st' := PushNew(st, i).value.0;
    Fetch(cx, g, fin, st, st', i);
    StepsOne(cx, At(fin, st, m));
  }

  /** Register `a` holds `x`, which has the type the emitter thinks it has. */
  ghost predicate Operand(cx: Cx, m: Mach, a: Val, x: Value) {
    ValueOf(m, a.id) == Some(x) && HasType(cx.structs, x, a.ty)
  }

  /** Two equal results of component operations agree on the first component. */
  lemma {:induction false} FirstAgree(f: (Elem, Elem) -> Option<Elem>, h: (Elem, Elem) -> Option<Elem>, a: Value, b: Value)
    returns (x: Elem, y: Elem)
    requires Lift2(h, a, b).Some? && Lift2(f, a, b) == Lift2(h, a, b)
    requires a.VVec? ==> |a.c| > 0
    ensures SameShape(a, b) && h(x, y).Some? && f(x, y) == h(x, y)
    ensures if a.VScalar? then x == a.e && y == b.e else x == a.c[0] && y == b.c[0]
    ensures Lift2(h, a, b).value == VScalar(h(x, y).value) || (a.VVec? && Lift2(h, a, b).value.c[0] == h(x, y).value)
  {
    if a.VScalar? {
      x, y := a.e, b.e;
    } else {
      x, y := a.c[0], b.c[0];
      var r := ZipMap(h, a.c, b.c).value;
      assert h(a.c[0], b.c[0]) == Some(r[0]) && f(a.c[0], b.c[0]) == Some(r[0]);
    }
  }

  // --- arithmetic ---

  /** An arithmetic opcode leaves the HLSL result exactly when the operands have one type, or an int meets a uint on
      the side that makes the result uint. */
  lemma {:induction false} ArithCoverageIsExact(
    cx: Cx, g: Globals, fin: St, st: St, op: BinaryOp, a: Val, b: Val, m: Mach, x: Value, y: Value)
    requires Finished(cx, g, fin) && EmitArith(g, st, op, a, b).Ok? && Within(EmitArith(g, st, op, a, b).value.0, fin)
    requires Operand(cx, m, a, x) && Operand(cx, m, b, y)
    ensures var (st', val) := EmitArith(g, st, op, a, b).value; var meant := HlslArith(cx.fo, op, x, y);
      Delivers(cx, fin, st, m, 1, st', val.id, meant) <==> meant.Some? && ArithResult(op, a.ty, b.ty).Some?
  {
    hide Good, Within, ProgramOf, HasType, HlslArith, BinFn, ArithFn, ArithResult, ArithOpcode;
    var ty := if a.ty.IsComposite() then a.ty else b.ty;
    var i := OpBin(st.nextId, ArithOpcode(op, ty).value, ty, a.id, b.id);
    var meant := HlslArith(cx.fo, op, x, y);
    DeliversExact(cx, g, fin, st, i, m, meant);
    ArithProduced(cx, op, a.ty, b.ty, x, y);
  }

  /** The same on values: what the opcode makes of the operands against what HLSL makes of them. */
  lemma {:induction false} ArithProduced(cx: Cx, op: BinaryOp, ta: Type, tb: Type, x: Value, y: Value)
    requires HasType(cx.structs, x, ta) && HasType(cx.structs, y, tb)
    requires ArithOpcode(op, if ta.IsComposite() then ta else tb).Some?
    ensures var ty := if ta.IsComposite() then ta else tb; ty.Scalar? || ty.Vector?
    ensures var ty := if ta.IsComposite() then ta else tb; var meant := HlslArith(cx.fo, op, x, y);
      var made := Lift2(BinFn(cx.fo, ArithOpcode(op, ty).value, ty.kind), x, y);
      (meant.Some? && made == meant && HasType(cx.structs, made.value, ty)) <==> (meant.Some? && ArithResult(op, ta, tb).Some?)
  {
    var ty := if ta.IsComposite() then ta else tb;
    var meant := HlslArith(cx.fo, op, x, y);
    if meant.Some? && !x.VUndef? && !y.VUndef? {
      FlatTyped(cx.structs, x, ta);
      FlatTyped(cx.structs, y, tb);
      if ArithResult(op, ta, tb).Some? {
        ArithAgrees(cx.fo, cx.structs, op, ta, tb, x, y);
      } else {
        var h := BinFn(cx.fo, ArithOpcode(op, ty).value, ty.kind);
        if Lift2(h, x, y) == meant && HasType(cx.structs, meant.value, ty) {
          ArithOnlyCovered(cx, op, ta, tb, x, y);
        }
      }
    }
  }

  lemma {:induction false} ArithOnlyCovered(cx: Cx, op: BinaryOp, ta: Type, tb: Type, x: Value, y: Value)
    requires HasType(cx.structs, x, ta) && HasType(cx.structs, y, tb) && !x.VUndef? && !y.VUndef?
    requires var ty := if ta.IsComposite() then ta else tb;
      && ArithOpcode(op, ty).Some? && HlslArith(cx.fo, op, x, y).Some?
      && Lift2(BinFn(cx.fo, ArithOpcode(op, ty).value, ty.kind), x, y) == HlslArith(cx.fo, op, x, y)
      && HasType(cx.structs, HlslArith(cx.fo, op, x, y).value, ty)
    ensures ArithResult(op, ta, tb).Some?
  {
    var ty := if ta.IsComposite() then ta else tb;
    hide BinFn, ArithFn, ArithOpcode, ArithResult;
    var p, q := FirstAgree(ArithFn(cx.fo, op), BinFn(cx.fo, ArithOpcode(op, ty).value, ty.kind), x, y);
    assert KindOf(p) == ta.kind && KindOf(q) == tb.kind;
    ArithElemKind(cx.fo, op, p, q);
    ArithElemOnlyCovered(cx.fo, op, ta, tb, p, q);
  }

  lemma {:induction false} ArithElemOnlyCovered(fo: FloatOps, op: BinaryOp, ta: Type, tb: Type, x: Elem, y: Elem)
    requires (ta.Scalar? && tb.Scalar?) || (ta.Vector? && tb.Vector? && ta.n == tb.n)
    requires KindOf(x) == ta.kind && KindOf(y) == tb.kind
    requires var ty := if ta.IsComposite() then ta else tb;
      && ArithOpcode(op, ty).Some? && BinFn(fo, ArithOpcode(op, ty).value, ty.kind)(x, y).Some?
      && CommonKind(ta.kind, tb.kind) == ty.kind
    ensures ArithResult(op, ta, tb).Some?
  {
    assert op in {Add, Sub, Mul, Div};
  }

  // --- compound assignment ---

  /** What a compound assignment is about to store is the HLSL result converted back exactly for the covered
      operand types and, when an int vector is divided by a uint vector, where both divisions agree. */
  lemma {:induction false} CompoundCoverageIsExact(
    cx: Cx, g: Globals, fin: St, st: St, op: BinaryOp, a: Val, b: Val, m: Mach, x: Value, y: Value)
    requires Finished(cx, g, fin) && EmitArith(g, st, op, a, b).Ok? && Within(EmitArith(g, st, op, a, b).value.0, fin)
    requires Operand(cx, m, a, x) && Operand(cx, m, b, y)
    ensures var (st', val) := EmitArith(g, st, op, a, b).value; var meant := HlslCompound(cx.fo, op, a.ty, x, y);
      Delivers(cx, fin, st, m, 1, st', val.id, meant)
      <==> meant.Some? && (CompoundCovered(op, a.ty, b.ty) || AllQuotientsAgree(op, a.ty, b.ty, x, y))
  {
    hide Good, Within, ProgramOf, HasType, HlslCompound, BinFn, ArithFn, CompoundCovered, ArithOpcode, AllQuotientsAgree;
    var ty := if a.ty.IsComposite() then a.ty else b.ty;
    var i := OpBin(st.nextId, ArithOpcode(op, ty).value, ty, a.id, b.id);
    var meant := HlslCompound(cx.fo, op, a.ty, x, y);
    DeliversExact(cx, g, fin, st, i, m, meant);
    CompoundProduced(cx, op, a.ty, b.ty, x, y);
  }

  lemma {:induction false} CompoundProduced(cx: Cx, op: BinaryOp, ta: Type, tb: Type, x: Value, y: Value)
    requires HasType(cx.structs, x, ta) && HasType(cx.structs, y, tb)
    requires ArithOpcode(op, if ta.IsComposite() then ta else tb).Some?
    ensures var ty := if ta.IsComposite() then ta else tb; ty.Scalar? || ty.Vector?
    ensures var ty := if ta.IsComposite() then ta else tb; var meant := HlslCompound(cx.fo, op, ta, x, y);
      var made := Lift2(BinFn(cx.fo, ArithOpcode(op, ty).value, ty.kind), x, y);
      (meant.Some? && made == meant && HasType(cx.structs, made.value, ty))
      <==> (meant.Some? && (CompoundCovered(op, ta, tb) || AllQuotientsAgree(op, ta, tb, x, y)))
  {
    assert x.VUndef? || y.VUndef? ==> HlslArith(cx.fo, op, x, y).None?;
    hide HlslArith, BinFn, ArithOpcode, AllQuotientsAgree;
    var ty := if ta.IsComposite() then ta else tb;
    assert ty.Scalar? || ty.Vector? by { OpcodeFlat(op, ty); }
    var meant := HlslCompound(cx.fo, op, ta, x, y);
    if meant.Some? && !x.VUndef? && !y.VUndef? {
      FlatTyped(cx.structs, x, ta);
      FlatTyped(cx.structs, y, tb);
      ConvertFlatTyped(cx.fo, cx.structs, HlslArith(cx.fo, op, x, y).value, ta);
      if CompoundCovered(op, ta, tb) {
        CompoundAgrees(cx.fo, cx.structs, op, ta, tb, x, y);
      } else {
        CompoundQuotient(cx, op, ta, tb, x, y);
      }
    }
  }

  lemma {:induction false} OpcodeFlat(op: BinaryOp, ty: Type)
    requires ArithOpcode(op, ty).Some?
    ensures (ty.Scalar? || ty.Vector?) && op in {Add, Sub, Mul, Div}
  {
  }

  lemma {:induction false} CompoundQuotient(cx: Cx, op: BinaryOp, ta: Type, tb: Type, x: Value, y: Value)
    requires HasType(cx.structs, x, ta) && HasType(cx.structs, y, tb) && !x.VUndef? && !y.VUndef?
    requires ArithOpcode(op, if ta.IsComposite() then ta else tb).Some? && !CompoundCovered(op, ta, tb)
    requires HlslCompound(cx.fo, op, ta, x, y).Some?
    requires HasType(cx.structs, HlslCompound(cx.fo, op, ta, x, y).value, ta)
    ensures var ty := if ta.IsComposite() then ta else tb; ty.Scalar? || ty.Vector?
    ensures var ty := if ta.IsComposite() then ta else tb; var meant := HlslCompound(cx.fo, op, ta, x, y);
      (Lift2(BinFn(cx.fo, ArithOpcode(op, ty).value, ty.kind), x, y) == meant && HasType(cx.structs, meant.value, ty))
      <==> AllQuotientsAgree(op, ta, tb, x, y)
  {
    var ty := if ta.IsComposite() then ta else tb;
    OpcodeFlat(op, ty);
    var meant := HlslCompound(cx.fo, op, ta, x, y);
    if ta.Vector? {
      if Lift2(BinFn(cx.fo, ArithOpcode(op, ty).value, ty.kind), x, y).Some? {
        OnlyQuotient(cx, op, ta, tb, x, y);
        QuotientVectors(cx.fo, cx.structs, ta.n, x, y);
      } else if AllQuotientsAgree(op, ta, tb, x, y) {
        QuotientVectors(cx.fo, cx.structs, ta.n, x, y);
      }
    } else {
      ScalarCovered(op, ta, tb, meant.value, cx.structs);
    }
  }

  lemma {:induction false} ScalarCovered(op: BinaryOp, ta: Type, tb: Type, v: Value, structs: Structs)
    requires !ta.IsComposite() && ArithOpcode(op, tb).Some? && !CompoundCovered(op, ta, tb)
    requires HasType(structs, v, ta) && !v.VUndef?
    ensures !HasType(structs, v, tb)
  {
  }

  lemma {:induction false} OnlyQuotient(cx: Cx, op: BinaryOp, ta: Type, tb: Type, x: Value, y: Value)
    requires HasType(cx.structs, x, ta) && HasType(cx.structs, y, tb) && !y.VUndef? && !x.VUndef?
    requires ta.Vector? && ArithOpcode(op, ta).Some? && !CompoundCovered(op, ta, tb)
    requires Lift2(BinFn(cx.fo, ArithOpcode(op, ta).value, ta.kind), x, y).Some?
    ensures op == Div && ta.kind == Int && tb == Vector(Uint, ta.n)
  {
    var h := BinFn(cx.fo, ArithOpcode(op, ta).value, ta.kind);
    var p, q := FirstAgree(h, h, x, y);
    assert KindOf(p) == ta.kind && KindOf(q) == tb.kind && tb.Vector? && tb.n == ta.n;
    OnlyQuotientElem(cx.fo, op, ta, tb, p, q);
  }

  lemma {:induction false} OnlyQuotientElem(fo: FloatOps, op: BinaryOp, ta: Type, tb: Type, p: Elem, q: Elem)
    requires ta.Vector? && tb.Vector? && tb.n == ta.n && KindOf(p) == ta.kind && KindOf(q) == tb.kind
    requires ArithOpcode(op, ta).Some? && !CompoundCovered(op, ta, tb)
    requires BinElem(fo, ArithOpcode(op, ta).value, ta.kind, p, q).Some?
    ensures op == Div && ta.kind == Int && tb == Vector(Uint, ta.n)
  {
  }

  // --- comparisons ---

  /** On components: the opcode gives the HLSL answer exactly for covered operands. Signed order is used for uint,
      ordered inequality for floats, and no opcode takes bools or a float with an integer. */
  lemma {:induction false} ComparisonCoverageIsExact(fo: FloatOps, op: BinaryOp, a: Elem, b: Elem)
    requires IsComparison(op)
    ensures HlslCompareElem(fo, op, a, b).Some?
    ensures BinElem(fo, CompareOpcode(op, KindOf(a) == Float).value, Bool, a, b) == Some(EBool(HlslCompareElem(fo, op, a, b).value))
       <==> CompareCovered(fo, op, a, b)
  {
    CompareDefined(fo, op, a, b);
    if CompareCovered(fo, op, a, b) {
      hide HlslCompareElem, BinElem, CompareCovered;
      CompareElemAgrees(fo, op, a, b);
    } else if a.EFloat? || b.EFloat? || a.EBool? || b.EBool? {
      FloatOrBoolWrong(fo, op, a, b);
    } else {
      IntegerOrderWrong(fo, op, a, b);
    }
  }

  lemma {:induction false} CompareDefined(fo: FloatOps, op: BinaryOp, a: Elem, b: Elem)
    requires IsComparison(op)
    ensures HlslCompareElem(fo, op, a, b).Some? && CompareOpcode(op, KindOf(a) == Float).Some?
  {
  }

  lemma {:induction false} FloatOrBoolWrong(fo: FloatOps, op: BinaryOp, a: Elem, b: Elem)
    requires IsComparison(op) && !CompareCovered(fo, op, a, b) && (a.EFloat? || b.EFloat? || a.EBool? || b.EBool?)
    requires HlslCompareElem(fo, op, a, b).Some? && CompareOpcode(op, KindOf(a) == Float).Some?
    ensures BinElem(fo, CompareOpcode(op, KindOf(a) == Float).value, Bool, a, b) != Some(EBool(HlslCompareElem(fo, op, a, b).value))
  {
    if a.EFloat? && b.EFloat? {
      assert op == Ne;
    }
  }

  lemma {:induction false} IntegerOrderWrong(fo: FloatOps, op: BinaryOp, a: Elem, b: Elem)
    requires IsComparison(op) && !CompareCovered(fo, op, a, b) && !a.EFloat? && !b.EFloat? && !a.EBool? && !b.EBool?
    requires HlslCompareElem(fo, op, a, b).Some? && CompareOpcode(op, false).Some?
    ensures BinElem(fo, CompareOpcode(op, false).value, Bool, a, b) != Some(EBool(HlslCompareElem(fo, op, a, b).value))
  {
    assert HlslCompareElem(fo, op, a, b) == OrderOf(op, a.w, b.w);
    assert op !in {Eq, Ne};
    assert CompareOpcode(op, false).value !in {LogicalAnd, LogicalOr} && !IsFloatOpcode(CompareOpcode(op, false).value);
  }

  ghost predicate ComparisonCovered(fo: FloatOps, op: BinaryOp, x: Value, y: Value) {
    match (x, y)
    case (VScalar(p), VScalar(q)) => CompareCovered(fo, op, p, q)
    case (VVec(c), VVec(d)) => |c| == |d| && forall i :: 0 <= i < |c| ==> CompareCovered(fo, op, c[i], d[i])
    case _ => false
  }

  /** An emitted comparison leaves the HLSL answer exactly when every pair of components is covered. */
  lemma {:induction false} ComparisonExact(
    cx: Cx, g: Globals, fin: St, st: St, op: BinaryOp, a: Val, b: Val, m: Mach, x: Value, y: Value)
    requires Finished(cx, g, fin) && IsComparison(op) && EmitComparison(st, op, a, b).Ok?
    requires Within(EmitComparison(st, op, a, b).value.0, fin)
    requires Operand(cx, m, a, x) && Operand(cx, m, b, y)
    ensures var (st', val) := EmitComparison(st, op, a, b).value; var meant := HlslCompare(cx.fo, op, x, y);
      Delivers(cx, fin, st, m, 1, st', val.id, meant) <==> meant.Some? && ComparisonCovered(cx.fo, op, x, y)
  {
    hide Good, Within, ProgramOf, HasType, HlslCompare, BinFn, ComparisonCovered, CompareOpcode;
    var isFloat := (a.ty.Scalar? || a.ty.Vector?) && a.ty.kind == Float;
    var ty := if a.ty.Vector? then Vector(Bool, a.ty.n) else Scalar(Bool);
    var i := OpBin(st.nextId, CompareOpcode(op, isFloat).value, ty, a.id, b.id);
    DeliversExact(cx, g, fin, st, i, m, HlslCompare(cx.fo, op, x, y));
    CompareProduced(cx, op, a.ty, b.ty, x, y);
  }

  /** `h` agrees with `k` exactly where `f` is defined, which carries over to values. */
  lemma {:induction false} LiftExact(
    f: (Elem, Elem) -> Option<Elem>, h: (Elem, Elem) -> Option<Elem>, k: (Elem, Elem) -> Option<Elem>, x: Value, y: Value)
    requires SameShape(x, y)
    requires x.VScalar? ==> ExactAt(f, h, k, x.e, y.e)
    requires x.VVec? ==> forall i :: 0 <= i < |x.c| ==> ExactAt(f, h, k, x.c[i], y.c[i])
    ensures Lift2(k, x, y).Some? && (Lift2(h, x, y) == Lift2(k, x, y) <==> Lift2(f, x, y).Some?)
    ensures Lift2(f, x, y).Some? ==> Lift2(f, x, y) == Lift2(k, x, y)
  {
    if x.VVec? {
      assert ZipMap(k, x.c, y.c).Some?;
      var r := ZipMap(k, x.c, y.c).value;
      ZipMapExact(h, x.c, y.c, r);
      if ZipMap(f, x.c, y.c).Some? {
        ZipMapExact(f, x.c, y.c, r);
      }
    }
  }

  predicate ExactAt(
    f: (Elem, Elem) -> Option<Elem>, h: (Elem, Elem) -> Option<Elem>, k: (Elem, Elem) -> Option<Elem>, p: Elem, q: Elem)
  {
    k(p, q).Some? && (h(p, q) == k(p, q) <==> f(p, q).Some?) && (f(p, q).Some? ==> f(p, q) == k(p, q))
  }

  lemma {:induction false} CompareExactAt(fo: FloatOps, op: BinaryOp, isFloat: bool, p: Elem, q: Elem)
    requires IsComparison(op) && (KindOf(p) == Float <==> isFloat)
    ensures CompareOpcode(op, isFloat).Some?
    ensures ExactAt(CompareFn(fo, op), BinFn(fo, CompareOpcode(op, isFloat).value, Bool), HlslCompareFn(fo, op), p, q)
    ensures CompareFn(fo, op)(p, q).Some? <==> CompareCovered(fo, op, p, q)
  {
    ComparisonCoverageIsExact(fo, op, p, q);
    hide CompareCovered, CompareElem, BinElem, CompareOpcode;
  }

  lemma {:induction false} ComparisonCoveredLifts(fo: FloatOps, op: BinaryOp, x: Value, y: Value)
    requires IsComparison(op)
    ensures ComparisonCovered(fo, op, x, y) <==> Lift2(CompareFn(fo, op), x, y).Some?
  {
    forall p, q ensures CompareFn(fo, op)(p, q).Some? <==> CompareCovered(fo, op, p, q) {
      CompareExactAt(fo, op, KindOf(p) == Float, p, q);
    }
    hide CompareFn, CompareCovered;
  }

  lemma {:induction false} CompareProduced(cx: Cx, op: BinaryOp, ta: Type, tb: Type, x: Value, y: Value)
    requires IsComparison(op) && HasType(cx.structs, x, ta) && HasType(cx.structs, y, tb)
    ensures CompareOpcode(op, (ta.Scalar? || ta.Vector?) && ta.kind == Float).Some?
    ensures var ty := if ta.Vector? then Vector(Bool, ta.n) else Scalar(Bool); var meant := HlslCompare(cx.fo, op, x, y);
      var made := Lift2(BinFn(cx.fo, CompareOpcode(op, (ta.Scalar? || ta.Vector?) && ta.kind == Float).value, Bool), x, y);
      (meant.Some? && made == meant && HasType(cx.structs, made.value, ty)) <==> (meant.Some? && ComparisonCovered(cx.fo, op, x, y))
  {
    var isFloat := (ta.Scalar? || ta.Vector?) && ta.kind == Float;
    assert CompareOpcode(op, isFloat).Some?;
    ComparisonCoveredLifts(cx.fo, op, x, y);
    hide CompareFn, BinFn, HlslCompareFn, CompareOpcode, ComparisonCovered, ExactAt;
    if SameShape(x, y) {
      var f, h, k := CompareFn(cx.fo, op), BinFn(cx.fo, CompareOpcode(op, isFloat).value, Bool), HlslCompareFn(cx.fo, op);
      if x.VScalar? {
        CompareExactAt(cx.fo, op, isFloat, x.e, y.e);
      } else {
        forall i | 0 <= i < |x.c| ensures ExactAt(f, h, k, x.c[i], y.c[i]) {
          assert KindOf(x.c[i]) == ta.kind;
          CompareExactAt(cx.fo, op, isFloat, x.c[i], y.c[i]);
        }
      }
      LiftExact(f, h, k, x, y);
      if Lift2(f, x, y).Some? {
        CompareAgrees(cx.fo, cx.structs, op, ta, tb, x, y);
      }
    }
  }

  /** Two component operations that agree give the same lifted result. */
  lemma {:induction false} SameLift(f: (Elem, Elem) -> Option<Elem>, k: (Elem, Elem) -> Option<Elem>, x: Value, y: Value)
    requires Lift2(f, x, y).Some?
    requires x.VScalar? ==> f(x.e, y.e) == k(x.e, y.e)
    requires x.VVec? ==> forall i :: 0 <= i < |x.c| ==> f(x.c[i], y.c[i]) == k(x.c[i], y.c[i])
    ensures Lift2(k, x, y) == Lift2(f, x, y)
  {
    if x.VVec? {
      ZipMapExact(k, x.c, y.c, ZipMap(f, x.c, y.c).value);
    }
  }

  // --- logical and unary operators ---

  /** `&&` and `||` are right exactly on two bools. */
  lemma {:induction false} LogicalCoverageIsExact(
    cx: Cx, g: Globals, fin: St, st: St, op: BinaryOp, a: Val, b: Val, m: Mach, x: Value, y: Value)
    requires Finished(cx, g, fin) && op in {And, Or} && FinishOperator(g, st, op, a, b).Ok?
    requires Within(FinishOperator(g, st, op, a, b).value.0, fin)
    requires Operand(cx, m, a, x) && Operand(cx, m, b, y)
    ensures var (st', val) := FinishOperator(g, st, op, a, b).value; var meant := HlslLogical(cx.fo, op, x, y);
      Delivers(cx, fin, st, m, 1, st', val.id, meant) <==> meant.Some? && a.ty == Scalar(Bool) && b.ty == Scalar(Bool)
  {
    hide Good, Within, ProgramOf, HasType, HlslLogical, BinFn;
    var opc := if op == And then LogicalAnd else LogicalOr;
    var i := OpBin(st.nextId, opc, Scalar(Bool), a.id, b.id);
    DeliversExact(cx, g, fin, st, i, m, HlslLogical(cx.fo, op, x, y));
    LogicalProduced(cx, op, opc, a.ty, b.ty, x, y);
  }

  lemma {:induction false} LogicalProduced(cx: Cx, op: BinaryOp, opc: BinOpcode, ta: Type, tb: Type, x: Value, y: Value)
    requires op in {And, Or} && opc == (if op == And then LogicalAnd else LogicalOr)
    requires HasType(cx.structs, x, ta) && HasType(cx.structs, y, tb)
    ensures var meant := HlslLogical(cx.fo, op, x, y); var made := Lift2(BinFn(cx.fo, opc, Bool), x, y);
      (meant.Some? && made == meant && HasType(cx.structs, made.value, Scalar(Bool)))
      <==> (meant.Some? && ta == Scalar(Bool) && tb == Scalar(Bool))
  {
    if x.VScalar? && y.VScalar? {
      assert HlslLogical(cx.fo, op, x, y) == Lift2(HlslLogicalFn(cx.fo, op), x, y);
    }
  }

  /** `-`, `!` and `~`: the code emitted for the whole expression leaves the HLSL value exactly for `-` on numbers,
      `!` on bools and `~` on integers. */
  lemma {:induction false} UnaryCoverageIsExact(cx: Cx, g: Globals, fin: St, st: St, op: UnaryOp, e: Expr, env: Env, m: Mach)
    returns (k: nat)
    requires Finished(cx, g, fin) && Good(st) && st.open.Some? && EmitExpr(g, st, Unary(op, e)).Ok?
    requires Within(EmitExpr(g, st, Unary(op, e)).value.0, fin) && Inv(cx, g, fin, env, st, m)
    requires EvalExpr(cx.fo, cx.structs, env, e).Done?
    ensures EmitExpr(g, st, e).Ok?
    ensures var (st', val) := EmitExpr(g, st, Unary(op, e)).value; var ty := EmitExpr(g, st, e).value.1.ty;
      var meant := HlslUnary(cx.fo, op, EvalExpr(cx.fo, cx.structs, env, e).value.0);
      Delivers(cx, fin, st, m, k, st', val.id, meant) <==> meant.Some? && (ty.Scalar? || ty.Vector?) && UnaryCovered(op, ty.kind)
  {
    hide Finished, Good, Within, Inv, EmitExpr, EvalExpr, Computes, Operand, Delivers, PushNew, Steps, HlslUnary, UnaryOpcode,
      UnaryCovered, HasType, At;
    var k1, st1, a, m1, env1, x := UnaryRuns(cx, g, fin, st, op, e, env, m);
    ComputedOperand(cx, g, fin, st, m, k1, st1, env1, m1, a, x);
    UnaryDelivered(cx, g, fin, st1, op, a, m1, x);
    DeliversLater(cx, g, fin, st, m, k1, st1, env1, m1, a, x,
                  PushNew(st1, OpUn(st1.nextId, UnaryOpcode(op, a.ty).value, a.ty, a.id)).value.0, st1.nextId, HlslUnary(cx.fo, op, x));
    k := k1 + 1;
  }

  /** Running the operand of a unary operator. */
  lemma {:induction false} UnaryRuns(cx: Cx, g: Globals, fin: St, st: St, op: UnaryOp, e: Expr, env: Env, m: Mach)
    returns (k: nat, st1: St, a: Val, m1: Mach, env1: Env, x: Value)
    requires Finished(cx, g, fin) && Good(st) && st.open.Some? && EmitExpr(g, st, Unary(op, e)).Ok?
    requires Within(EmitExpr(g, st, Unary(op, e)).value.0, fin) && Inv(cx, g, fin, env, st, m)
    requires EvalExpr(cx.fo, cx.structs, env, e).Done?
    ensures EmitExpr(g, st, e) == Ok((st1, a)) && EvalExpr(cx.fo, cx.structs, env, e) == Done((x, env1)) && !x.VUndef?
    ensures Computes(cx, g, fin, st, m, k, st1, env1, m1, a, x)
    ensures UnaryOpcode(op, a.ty).Some?
    ensures var i := OpUn(st1.nextId, UnaryOpcode(op, a.ty).value, a.ty, a.id);
      PushNew(st1, i).Ok? && EmitExpr(g, st, Unary(op, e)) == Ok((PushNew(st1, i).value.0, Val(st1.nextId, a.ty)))
  {
    hide Finished, Good, Within, HasType, Inv, UnaryOpcode, EmitExpr, EvalExpr, Computes;
    UnaryParts(g, st, Unary(op, e));
    st1, a := EmitExpr(g, st, e).value.0, EmitExpr(g, st, e).value.1;
    EmitExprGood(g, st, e);
    x, env1 := EvalExpr(cx.fo, cx.structs, env, e).value.0, EvalExpr(cx.fo, cx.structs, env, e).value.1;
    var i := OpUn(st1.nextId, UnaryOpcode(op, a.ty).value, a.ty, a.id);
    PushNewGood(st1, i);
    WithinExtends(st1, PushNew(st1, i).value.0, fin);
    k, m1 := SimExpr(cx, g, fin, st, e, env, m);
  }

  lemma {:induction false} ComputedOperand(
    cx: Cx, g: Globals, fin: St, st: St, m: Mach, k: nat, st': St, env': Env, m': Mach, val: Val, v: Value)
    requires Computes(cx, g, fin, st, m, k, st', env', m', val, v)
    ensures Operand(cx, m', val, v)
  {
  }

  /** Steps taken before. */
  lemma {:induction false} DeliversLater(
    cx: Cx, g: Globals, fin: St, st: St, m: Mach, k: nat, st1: St, env1: Env, m1: Mach, val: Val, x: Value,
    st2: St, id: Id, v: Option<Value>)
    requires Computes(cx, g, fin, st, m, k, st1, env1, m1, val, x)
    ensures Delivers(cx, fin, st, m, k + 1, st2, id, v) <==> Delivers(cx, fin, st1, m1, 1, st2, id, v)
  {
    hide Inv, Kept, HasType;
    StepsAdd(cx, At(fin, st, m), k, 1);
  }

  lemma {:induction false} UnaryDelivered(cx: Cx, g: Globals, fin: St, st: St, op: UnaryOp, a: Val, m: Mach, x: Value)
    requires Finished(cx, g, fin) && UnaryOpcode(op, a.ty).Some? && Operand(cx, m, a, x) && !x.VUndef?
    requires var i := OpUn(st.nextId, UnaryOpcode(op, a.ty).value, a.ty, a.id);
      PushNew(st, i).Ok? && Within(PushNew(st, i).value.0, fin)
    ensures var i := OpUn(st.nextId, UnaryOpcode(op, a.ty).value, a.ty, a.id); var meant := HlslUnary(cx.fo, op, x);
      Delivers(cx, fin, st, m, 1, PushNew(st, i).value.0, st.nextId, meant)
      <==> meant.Some? && (a.ty.Scalar? || a.ty.Vector?) && UnaryCovered(op, a.ty.kind)
  {
    hide Finished, Within, HasType, UnaryOpcode, UnFn, HlslUnary, UnaryCovered, PushNew, Delivers, Steps;
    UnaryProduced(cx, op, a.ty, x);
    DeliversExact(cx, g, fin, st, OpUn(st.nextId, UnaryOpcode(op, a.ty).value, a.ty, a.id), m, HlslUnary(cx.fo, op, x));
  }

  lemma {:induction false} UnaryProduced(cx: Cx, op: UnaryOp, ty: Type, x: Value)
    requires HasType(cx.structs, x, ty) && UnaryOpcode(op, ty).Some? && !x.VUndef?
    ensures var meant := HlslUnary(cx.fo, op, x);
      (meant.Some? && (ty.Scalar? || ty.Vector?) && Lift2(UnFn(cx.fo, UnaryOpcode(op, ty).value, ty.kind), x, x) == meant
       && HasType(cx.structs, meant.value, ty))
      <==> (meant.Some? && (ty.Scalar? || ty.Vector?) && UnaryCovered(op, ty.kind))
  {
    if ty.Scalar? || ty.Vector? {
      var f, h := UnaryFn(cx.fo, op), UnFn(cx.fo, UnaryOpcode(op, ty).value, ty.kind);
      var k := HlslUnaryFn(cx.fo, op);
      if UnaryCovered(op, ty.kind) {
        assert forall p | KindOf(p) == ty.kind :: f(p, p) == k(p, p);
        UnaryDefined(cx, op, ty, x);
        UnaryAgrees(cx.fo, cx.structs, op, ty, x);
        hide UnaryFn, HlslUnaryFn;
        SameLift(f, k, x, x);
      } else if Lift2(h, x, x).Some? && Lift2(h, x, x) == Lift2(k, x, x) {
        hide UnFn, HlslUnaryFn, UnaryOpcode;
        var p, q := FirstAgree(k, h, x, x);
        assert KindOf(p) == ty.kind;
        UnaryElemExact(cx.fo, op, ty, p);
      }
    }
  }

  lemma {:induction false} UnaryDefined(cx: Cx, op: UnaryOp, ty: Type, x: Value)
    requires HasType(cx.structs, x, ty) && (ty.Scalar? || ty.Vector?) && UnaryCovered(op, ty.kind) && !x.VUndef?
    ensures Lift2(UnaryFn(cx.fo, op), x, x).Some?
  {
    var f := UnaryFn(cx.fo, op);
    assert forall p | KindOf(p) == ty.kind :: f(p, p).Some?;
    hide UnaryFn;
  }

  lemma {:induction false} UnaryElemExact(fo: FloatOps, op: UnaryOp, ty: Type, p: Elem)
    requires (ty.Scalar? || ty.Vector?) && KindOf(p) == ty.kind && UnaryOpcode(op, ty).Some?
    requires UnElem(fo, UnaryOpcode(op, ty).value, ty.kind, p).Some?
    requires UnElem(fo, UnaryOpcode(op, ty).value, ty.kind, p) == HlslUnaryElem(fo, op, p)
    ensures UnaryCovered(op, ty.kind)
  {
  }

  // --- conversions ---

  /** Number of instructions an implicit scalar conversion is emitted as. */
  function CoerceSteps(ty: Type, kind: ScalarKind): nat {
    if ty == Scalar(kind) || !ty.Scalar? || CoerceOpcode(ty.kind, kind).None? then 0 else 1
  }

  /** The conversion in `int(x)`, `uint(x)` and `bool(x)` is right exactly for the covered kinds. */
  lemma {:induction false} CoercionCoverageIsExact(
    cx: Cx, g: Globals, fin: St, st: St, a: Val, kind: ScalarKind, m: Mach, x: Value)
    requires Finished(cx, g, fin) && st.open.Some? && CoerceScalar(st, a, kind).Ok?
    requires Within(CoerceScalar(st, a, kind).value.0, fin) && Operand(cx, m, a, x)
    ensures var (st', val) := CoerceScalar(st, a, kind).value; var meant := ConvertFlat(cx.fo, x, Scalar(kind));
      Delivers(cx, fin, st, m, CoerceSteps(a.ty, kind), st', val.id, meant)
      <==> meant.Some? && a.ty.Scalar? && CoerceCovered(a.ty.kind, kind)
  {
    hide Good, Within, ProgramOf, ConvertElem, UnElem;
    var meant := ConvertFlat(cx.fo, x, Scalar(kind));
    if CoerceSteps(a.ty, kind) == 0 {
      assert Steps(cx, At(fin, st, m), 0) == At(fin, st, m);
      if x.VScalar? {
        ConvertedKind(cx.fo, x.e, kind);
      }
    } else {
      var i := OpUn(st.nextId, CoerceOpcode(a.ty.kind, kind).value, Scalar(kind), a.id);
      DeliversExact(cx, g, fin, st, i, m, meant);
      if x.VScalar? {
        CoerceElemExact(cx.fo, x.e, kind);
      }
    }
  }

  lemma {:induction false} CoerceElemExact(fo: FloatOps, e: Elem, to: ScalarKind)
    requires KindOf(e) != to && CoerceOpcode(KindOf(e), to).Some?
    ensures UnElem(fo, CoerceOpcode(KindOf(e), to).value, to, e) == Some(ConvertElem(fo, e, to)) <==> CoerceCovered(KindOf(e), to)
    ensures KindOf(ConvertElem(fo, e, to)) == to
  {
  }

  /** The conversion of an assigned value is right exactly when there is nothing to convert or a covered scalar
      conversion; vectors and structs pass unchanged. */
  lemma {:induction false} AssignCoverageIsExact(
    cx: Cx, g: Globals, fin: St, st: St, a: Val, ty: Type, m: Mach, x: Value)
    requires Finished(cx, g, fin) && st.open.Some? && Coerce(st, a, ty).Ok?
    requires Within(Coerce(st, a, ty).value.0, fin) && Operand(cx, m, a, x) && !x.VUndef?
    ensures var (st', val) := Coerce(st, a, ty).value; var meant := HlslConvert(cx.fo, cx.structs, x, ty);
      Delivers(cx, fin, st, m, if ty.Scalar? then CoerceSteps(a.ty, ty.kind) else 0, st', val.id, meant)
      <==> meant.Some? && (HasType(cx.structs, x, ty) || (a.ty.Scalar? && ty.Scalar? && CoerceCovered(a.ty.kind, ty.kind)))
  {
    hide Good, Within, ProgramOf, ConvertFlat, CoerceCovered;
    if a.ty.Scalar? && ty.Scalar? && a.ty != ty {
      CoercionCoverageIsExact(cx, g, fin, st, a, ty.kind, m, x);
    } else {
      assert Steps(cx, At(fin, st, m), 0) == At(fin, st, m);
      if !HasType(cx.structs, x, ty) && HlslConvert(cx.fo, cx.structs, x, ty).Some? {
        ConvertFlatTyped(cx.fo, cx.structs, x, ty);
      }
    }
  }

  // --- vector constructors ---

  /** A vector constructor is right exactly when every argument has the component kind of the vector. */
  lemma {:induction false} ConstructorCoverageIsExact(
    cx: Cx, g: Globals, fin: St, st: St, ty: Type, vals: seq<Val>, m: Mach, vs: seq<Value>)
    requires Finished(cx, g, fin) && ty.Vector? && Assemble(st, ty, vals).Ok? && Within(Assemble(st, ty, vals).value.0, fin)
    requires |vals| == |vs| && forall i :: 0 <= i < |vs| ==> Operand(cx, m, vals[i], vs[i]) && !vs[i].VUndef?
    ensures var (st', val) := Assemble(st, ty, vals).value; var meant := HlslConstruct(cx.fo, ty, vs);
      Delivers(cx, fin, st, m, 1, st', val.id, meant)
      <==> meant.Some? && forall i :: 0 <= i < |vals| ==> OfKind(vals[i].ty, ty.kind)
  {
    hide Good, Within, ProgramOf, HasType, HlslConstruct;
    var parts := if |vals| == 1 then seq(ty.n, _ => vals[0].id) else Ids(vals);
    var values := if |vs| == 1 then seq(ty.n, _ => vs[0]) else vs;
    ValuesOfAt(m, parts, values);
    var i := OpCompositeConstruct(st.nextId, ty, parts);
    DeliversExact(cx, g, fin, st, i, m, HlslConstruct(cx.fo, ty, vs));
    ConstructProduced(cx, ty, vals, vs);
  }

  /** A scalar or vector type with components of kind `k`. */
  predicate OfKind(ty: Type, k: ScalarKind) {
    (ty.Scalar? || ty.Vector?) && ty.kind == k
  }

  lemma {:induction false} ConstructProduced(cx: Cx, ty: Type, vals: seq<Val>, vs: seq<Value>)
    requires ty.Vector? && |vals| == |vs| && (|vals| == 1 ==> vals[0].ty.Scalar?)
    requires forall i :: 0 <= i < |vs| ==> HasType(cx.structs, vs[i], vals[i].ty) && !vs[i].VUndef?
    ensures var meant := HlslConstruct(cx.fo, ty, vs); var parts := if |vs| == 1 then seq(ty.n, _ => vs[0]) else vs;
      (meant.Some? && Flatten(parts).Some? && meant == Some(VVec(Flatten(parts).value)) && HasType(cx.structs, meant.value, ty))
      <==> (meant.Some? && forall i :: 0 <= i < |vals| ==> OfKind(vals[i].ty, ty.kind))
  {
    var meant := HlslConstruct(cx.fo, ty, vs);
    if meant.Some? {
      if |vs| == 1 {
        FlattenCopies(vs[0].e, ty.n);
        ConvertFlatTyped(cx.fo, cx.structs, vs[0], ty);
        assert seq(ty.n, _ => vs[0]) == seq(ty.n, _ => VScalar(vs[0].e));
        var k := ConvertElem(cx.fo, vs[0].e, ty.kind);
        ConvertedKind(cx.fo, vs[0].e, ty.kind);
        assert meant.value.c[0] == k && seq(ty.n, _ => vs[0].e)[0] == vs[0].e;
        assert k == vs[0].e ==> meant.value.c == seq(ty.n, _ => vs[0].e);
      } else {
        var c := Flatten(vs).value;
        ConvertFlatTyped(cx.fo, cx.structs, VVec(c), ty);
        FlattenKinds(cx.structs, vals, vs, ty.kind);
        assert HasType(cx.structs, VVec(c), ty) <==> AllKind(c, ty.kind);
      }
    }
  }

  /** All components have kind `k` exactly when all parts do. */
  lemma {:induction false} FlattenKinds(structs: Structs, vals: seq<Val>, vs: seq<Value>, k: ScalarKind)
    requires |vals| == |vs| && Flatten(vs).Some?
    requires forall i :: 0 <= i < |vs| ==> HasType(structs, vs[i], vals[i].ty) && !vs[i].VUndef?
    ensures AllKind(Flatten(vs).value, k)
       <==> forall i :: 0 <= i < |vals| ==> OfKind(vals[i].ty, k)
  {
    if vs != [] {
      FlattenKinds(structs, vals[1..], vs[1..], k);
      var first := if vs[0].VScalar? then [vs[0].e] else vs[0].c;
      var rest := Flatten(vs[1..]).value;
      assert Flatten(vs).value == first + rest;
      assert AllKind(first + rest, k) <==> AllKind(first, k) && AllKind(rest, k) by {
        AllKindAppend(first, rest, k);
      }
      assert AllKind(first, k) <==> OfKind(vals[0].ty, k) by {
        assert KindOf(first[0]) == vals[0].ty.kind;
      }
      assert forall i :: 0 <= i < |vals[1..]| ==> vals[1..][i] == vals[i + 1];
      if forall i :: 0 <= i < |vals| ==> OfKind(vals[i].ty, k) {
        assert forall i :: 0 <= i < |vals[1..]| ==> OfKind(vals[1..][i].ty, k);
      }
      if OfKind(vals[0].ty, k) && forall i :: 0 <= i < |vals[1..]| ==> OfKind(vals[1..][i].ty, k) {
        forall i | 0 <= i < |vals| ensures OfKind(vals[i].ty, k) {
          if i > 0 {
            assert vals[i] == vals[1..][i - 1];
          }
        }
      }
    }
  }

  lemma {:induction false} AllKindAppend(a: seq<Elem>, b: seq<Elem>, k: ScalarKind)
    ensures AllKind(a + b, k) <==> AllKind(a, k) && AllKind(b, k)
  {
    if AllKind(a + b, k) {
      assert forall i :: 0 <= i < |a| ==> (a + b)[i] == a[i];
      assert forall i :: 0 <= i < |b| ==> (a + b)[|a| + i] == b[i];
    }
  }

  // --- intrinsics ---

  /** Argument types an intrinsic is translated for. */
  predicate CallCovered(name: string, ts: seq<Type>) {
    if name == "mul" then
      |ts| == 2 && ts[0].Scalar? && ts[1].Scalar? && ArithResult(Mul, ts[0], ts[1]).Some?
    else if name == "dot" then
      |ts| == 2 && ts[0].Vector? && ts[0].kind == Float && ts[1] == ts[0]
    else
      forall i :: 0 <= i < |ts| ==> OfKind(ts[i], Float) && ts[i] == ts[0]
  }

  function TypesOf(vals: seq<Val>): (r: seq<Type>)
    ensures |r| == |vals|
  {
    seq(|vals|, i requires 0 <= i < |vals| => vals[i].ty)
  }

  /** Every register holds its argument. */
  ghost predicate Operands(cx: Cx, m: Mach, vals: seq<Val>, vs: seq<Value>) {
    |vals| == |vs| && forall i :: 0 <= i < |vals| ==> Operand(cx, m, vals[i], vs[i]) && !vs[i].VUndef?
  }

  /** `mul` is right exactly on two scalars: of two vectors the emitted code leaves the componentwise product where
      HLSL has the dot product, and a scalar with a vector it does not handle at all. */
  lemma {:induction false} MulCoverageIsExact(
    cx: Cx, g: Globals, fin: St, st: St, vals: seq<Val>, m: Mach, vs: seq<Value>)
    requires Finished(cx, g, fin) && FinishCall(g, st, "mul", vals).Ok? && Within(FinishCall(g, st, "mul", vals).value.0, fin)
    requires Operands(cx, m, vals, vs)
    ensures |vs| == 2
    ensures var (st', val) := FinishCall(g, st, "mul", vals).value; var meant := HlslMul(cx.fo, vs[0], vs[1]);
      Delivers(cx, fin, st, m, 1, st', val.id, meant) <==> meant.Some? && CallCovered("mul", TypesOf(vals))
  {
    hide Good, Within, ProgramOf, HlslArith, FinishCall, EmitArith, ArithOpcode, CallCovered, Delivers, HlslMul, ArithResult;
    MulParts(g, st, vals);
    var (a, b, x, y) := (vals[0], vals[1], vs[0], vs[1]);
    if x.VVec? && y.VVec? {
      VectorMulExact(cx, g, fin, st, a, b, m, x, y);
    } else {
      MulOfScalar(cx.fo, cx.structs, x, y, a.ty, b.ty);
      ArithCoverageIsExact(cx, g, fin, st, Mul, a, b, m, x, y);
    }
  }

  lemma {:induction false} MulParts(g: Globals, st: St, vals: seq<Val>)
    requires FinishCall(g, st, "mul", vals).Ok?
    ensures |vals| == 2 && EmitArith(g, st, Mul, vals[0], vals[1]).Ok?
    ensures FinishCall(g, st, "mul", vals) == EmitArith(g, st, Mul, vals[0], vals[1])
    ensures CallCovered("mul", TypesOf(vals)) <==>
      vals[0].ty.Scalar? && vals[1].ty.Scalar? && ArithResult(Mul, vals[0].ty, vals[1].ty).Some?
  {
    hide EmitArith, ArithResult;
  }

  /** With a scalar operand `mul` is the product, and the product is covered for two scalars at most. */
  lemma {:induction false} MulOfScalar(fo: FloatOps, structs: Structs, x: Value, y: Value, ta: Type, tb: Type)
    requires !(x.VVec? && y.VVec?) && HasType(structs, x, ta) && HasType(structs, y, tb) && !x.VUndef? && !y.VUndef?
    ensures HlslMul(fo, x, y) == HlslArith(fo, Mul, x, y)
    ensures ArithResult(Mul, ta, tb).Some? ==> ta.Scalar? && tb.Scalar?
  {
  }

  /** Of two vectors the emitted product is a vector and the meant one a scalar. */
  lemma {:induction false} VectorMulExact(cx: Cx, g: Globals, fin: St, st: St, a: Val, b: Val, m: Mach, x: Value, y: Value)
    requires Finished(cx, g, fin) && EmitArith(g, st, Mul, a, b).Ok? && Within(EmitArith(g, st, Mul, a, b).value.0, fin)
    requires Operand(cx, m, a, x) && Operand(cx, m, b, y) && x.VVec? && y.VVec?
    ensures var (st', val) := EmitArith(g, st, Mul, a, b).value;
      !Delivers(cx, fin, st, m, 1, st', val.id, HlslMul(cx.fo, x, y)) && a.ty.Vector?
  {
    hide Good, Within, ProgramOf, HasType, HlslDot, BinFn;
    assert a.ty.Vector? by {
      VectorTyped(cx.structs, x, a.ty);
    }
    var i := OpBin(st.nextId, ArithOpcode(Mul, a.ty).value, a.ty, a.id, b.id);
    DeliversExact(cx, g, fin, st, i, m, HlslMul(cx.fo, x, y));
    if HlslDot(cx.fo, x, y).Some? {
      DotIsScalar(cx.fo, x, y);
    }
  }

  lemma {:induction false} VectorTyped(structs: Structs, x: Value, t: Type)
    requires HasType(structs, x, t) && x.VVec?
    ensures t.Vector?
  {
  }

  lemma {:induction false} DotIsScalar(fo: FloatOps, x: Value, y: Value)
    requires HlslDot(fo, x, y).Some?
    ensures HlslDot(fo, x, y).value.VScalar?
  {
  }

  lemma {:induction false} DotCoverageIsExact(
    cx: Cx, g: Globals, fin: St, st: St, vals: seq<Val>, m: Mach, vs: seq<Value>)
    requires Finished(cx, g, fin) && |vs| == 2 && FinishCall(g, st, "dot", vals).Ok?
    requires Within(FinishCall(g, st, "dot", vals).value.0, fin) && Operands(cx, m, vals, vs)
    ensures var (st', val) := FinishCall(g, st, "dot", vals).value; var meant := HlslDot(cx.fo, vs[0], vs[1]);
      Delivers(cx, fin, st, m, 1, st', val.id, meant) <==> meant.Some? && CallCovered("dot", TypesOf(vals))
  {
    hide Finished, Within, HlslDot, FinishCall, CallCovered, PushNew, Delivers, DotValue, HasType;
    var i := DotParts(cx.fo, g, st, vals, vs);
    DotProduced(cx, vals[0].ty, vals[1].ty, vs[0], vs[1]);
    if DotValue(cx.fo, vs[0], vs[1]).Some? {
      DotIsFloat(cx, vs[0], vs[1]);
    }
    DeliversExact(cx, g, fin, st, i, m, HlslDot(cx.fo, vs[0], vs[1]));
  }

  lemma {:induction false} DotIsFloat(cx: Cx, x: Value, y: Value)
    requires DotValue(cx.fo, x, y).Some?
    ensures HasType(cx.structs, DotValue(cx.fo, x, y).value, Scalar(Float))
  {
  }

  lemma {:induction false} DotParts(fo: FloatOps, g: Globals, st: St, vals: seq<Val>, vs: seq<Value>) returns (i: Instr)
    requires |vals| == |vs| == 2 && FinishCall(g, st, "dot", vals).Ok?
    ensures i == OpDot(st.nextId, if vals[0].ty.Vector? then Scalar(vals[0].ty.kind) else vals[0].ty, vals[0].id, vals[1].id)
    ensures PushNew(st, i).Ok? && FinishCall(g, st, "dot", vals) == Ok((PushNew(st, i).value.0, Val(st.nextId, i.ty)))
    ensures CallCovered("dot", TypesOf(vals)) <==> vals[0].ty.Vector? && vals[0].ty.kind == Float && vals[1].ty == vals[0].ty
  {
    i := OpDot(st.nextId, if vals[0].ty.Vector? then Scalar(vals[0].ty.kind) else vals[0].ty, vals[0].id, vals[1].id);
    assert TypesOf(vals)[0] == vals[0].ty && TypesOf(vals)[1] == vals[1].ty;
  }

  lemma {:induction false} DotProduced(cx: Cx, ta: Type, tb: Type, x: Value, y: Value)
    requires HasType(cx.structs, x, ta) && HasType(cx.structs, y, tb) && !x.VUndef? && !y.VUndef?
    ensures DotValue(cx.fo, x, y).Some? <==> ta.Vector? && ta.kind == Float && tb == ta
    ensures DotValue(cx.fo, x, y).Some? ==> HlslDot(cx.fo, x, y) == DotValue(cx.fo, x, y)
  {
    if ta.Vector? && ta.kind == Float && tb == ta {
      assert forall i :: 0 <= i < |x.c| ==> KindOf(x.c[i]) == Float && KindOf(y.c[i]) == Float;
      assert AllFloat(x.c) && AllFloat(y.c);
      var p, q := Floats(x).value, Floats(y).value;
      assert p == seq(|x.c|, i requires 0 <= i < |x.c| => ConvertElem(cx.fo, x.c[i], Float).w);
      assert q == seq(|y.c|, i requires 0 <= i < |y.c| => ConvertElem(cx.fo, y.c[i], Float).w);
    } else if DotValue(cx.fo, x, y).Some? {
      FloatsTyped(cx.structs, x, ta);
      FloatsTyped(cx.structs, y, tb);
    }
  }

  /** Float arguments of one shape need no conversion. */
  lemma {:induction false} FloatArguments(cx: Cx, t: Type, vs: seq<Value>)
    requires OfKind(t, Float) && |vs| > 0
    requires forall i :: 0 <= i < |vs| ==> HasType(cx.structs, vs[i], t) && !vs[i].VUndef?
    ensures CommonShape(vs) == Some(t) && ConvertAll(cx.fo, vs, t) == Some(vs)
  {
    ConvertFlatTyped(cx.fo, cx.structs, vs[0], t);
    if |vs| > 1 {
      FloatArguments(cx, t, vs[1..]);
    } else {
      assert vs[1..] == [];
    }
    assert vs == [vs[0]] + vs[1..];
  }

  /** An extended instruction computes something exactly on float arguments of one shape, and then what HLSL does. */
  lemma {:induction false} FnProduced(cx: Cx, fn: Fn, ts: seq<Type>, vs: seq<Value>)
    requires |ts| == |vs| == Arity(fn)
    requires forall i :: 0 <= i < |vs| ==> HasType(cx.structs, vs[i], ts[i]) && !vs[i].VUndef?
    ensures ApplyFn(cx.fo, fn, vs).Some? ==> forall i :: 0 <= i < |ts| ==> OfKind(ts[i], Float) && ts[i] == ts[0]
    ensures (forall i :: 0 <= i < |ts| ==> OfKind(ts[i], Float) && ts[i] == ts[0]) ==> HlslFn(cx.fo, fn, vs) == ApplyFn(cx.fo, fn, vs)
  {
    if ApplyFn(cx.fo, fn, vs).Some? {
      forall i | 0 <= i < |ts| ensures OfKind(ts[i], Float) && ts[i] == ts[0] {
        assert SameShape(vs[0], vs[i]) && Floats(vs[i]).Some? && Floats(vs[0]).Some?;
        FloatsTyped(cx.structs, vs[i], ts[i]);
        FloatsTyped(cx.structs, vs[0], ts[0]);
      }
    }
    if forall i :: 0 <= i < |ts| ==> OfKind(ts[i], Float) && ts[i] == ts[0] {
      FloatArguments(cx, ts[0], vs);
      assert !Integral(vs[0]) by {
        if vs[0].VVec? {
          assert KindOf(vs[0].c[0]) == Float;
        }
      }
    }
  }

  /** How the other intrinsics are emitted, and what they mean. */
  lemma {:induction false} FnCallParts(fo: FloatOps, g: Globals, st: St, name: string, vals: seq<Val>, vs: seq<Value>)
    returns (fn: Fn, number: nat, i: Instr)
    requires name !in {"saturate", "dot", "mul"} && FinishCall(g, st, name, vals).Ok?
    ensures FnOfName(name) == Some(fn) && |vals| == Arity(fn) > 0
    ensures i == OpExtInst(st.nextId, if fn == Length then Scalar(Float) else vals[|vals| - 1].ty, number, Ids(vals))
    ensures FnOfNumber(number) == Some(fn)
    ensures PushNew(st, i).Ok? && FinishCall(g, st, name, vals) == Ok((PushNew(st, i).value.0, Val(st.nextId, i.ty)))
    ensures HlslCall(fo, name, vs) == HlslFn(fo, fn, vs)
    ensures CallCovered(name, TypesOf(vals)) <==> forall i :: 0 <= i < |vals| ==> OfKind(vals[i].ty, Float) && vals[i].ty == vals[0].ty
  {
    hide HlslFn, FnOfNumber;
    IntrinsicTablesAgree(name);
    fn := FnOfName(name).value;
    hide FnOfName, ExtInstOf;
    number := ExtInstOf(name).value.0;
    i := OpExtInst(st.nextId, if name == "length" then Scalar(Float) else vals[|vals| - 1].ty, number, Ids(vals));
    assert TypesOf(vals)[0] == vals[0].ty;
    assert forall j :: 0 <= j < |vals| ==> TypesOf(vals)[j] == vals[j].ty;
  }

  lemma {:induction false} FnDelivered(
    cx: Cx, g: Globals, fin: St, st: St, fn: Fn, number: nat, vals: seq<Val>, m: Mach, vs: seq<Value>)
    requires |vals| == Arity(fn) > 0 && FnOfNumber(number) == Some(fn) && Finished(cx, g, fin) && Operands(cx, m, vals, vs)
    requires var i := OpExtInst(st.nextId, if fn == Length then Scalar(Float) else vals[|vals| - 1].ty, number, Ids(vals));
      PushNew(st, i).Ok? && Within(PushNew(st, i).value.0, fin)
    ensures var i := OpExtInst(st.nextId, if fn == Length then Scalar(Float) else vals[|vals| - 1].ty, number, Ids(vals));
      Delivers(cx, fin, st, m, 1, PushNew(st, i).value.0, st.nextId, HlslFn(cx.fo, fn, vs))
      <==> HlslFn(cx.fo, fn, vs).Some? && forall i :: 0 <= i < |vals| ==> OfKind(vals[i].ty, Float) && vals[i].ty == vals[0].ty
  {
    hide Finished, Within, HlslFn, ApplyFn, HasType, FnOfNumber, PushNew, Delivers, Steps, OfKind;
    var ty := if fn == Length then Scalar(Float) else vals[|vals| - 1].ty;
    var i := OpExtInst(st.nextId, ty, number, Ids(vals));
    ValuesOfAt(m, Ids(vals), vs);
    var ts := TypesOf(vals);
    FnProduced(cx, fn, ts, vs);
    SameCondition(vals, ts);
    if ApplyFn(cx.fo, fn, vs).Some? {
      ApplyFnTyped(cx.structs, cx.fo, fn, vs, |vs| - 1, vals[|vs| - 1].ty);
    }
    assert Compute(cx, i, m) == ApplyFn(cx.fo, fn, vs);
    hide Ids, TypesOf, Operands;
    DeliversExact(cx, g, fin, st, i, m, HlslFn(cx.fo, fn, vs));
  }

  lemma {:induction false} SameCondition(vals: seq<Val>, ts: seq<Type>)
    requires ts == TypesOf(vals)
    ensures (forall j :: 0 <= j < |ts| ==> OfKind(ts[j], Float) && ts[j] == ts[0])
       <==> forall j :: 0 <= j < |vals| ==> OfKind(vals[j].ty, Float) && vals[j].ty == vals[0].ty
  {
    hide OfKind;
    assert forall j :: 0 <= j < |vals| ==> ts[j] == vals[j].ty;
    if forall j :: 0 <= j < |ts| ==> OfKind(ts[j], Float) && ts[j] == ts[0] {
      forall j | 0 <= j < |vals| ensures OfKind(vals[j].ty, Float) && vals[j].ty == vals[0].ty {
        assert ts[j] == vals[j].ty && ts[0] == vals[0].ty;
      }
    }
  }

  /** All other intrinsics but `saturate` are right exactly on float arguments of one shape. */
  lemma {:induction false} FnCoverageIsExact(
    cx: Cx, g: Globals, fin: St, st: St, name: string, vals: seq<Val>, m: Mach, vs: seq<Value>)
    requires Finished(cx, g, fin) && name !in {"saturate", "dot", "mul"} && FinishCall(g, st, name, vals).Ok?
    requires Within(FinishCall(g, st, name, vals).value.0, fin) && Operands(cx, m, vals, vs)
    ensures var (st', val) := FinishCall(g, st, name, vals).value; var meant := HlslCall(cx.fo, name, vs);
      Delivers(cx, fin, st, m, 1, st', val.id, meant) <==> meant.Some? && CallCovered(name, TypesOf(vals))
  {
    hide Finished, Within, HlslFn, FinishCall, HlslCall, CallCovered, FnOfNumber, FnOfName, PushNew, Delivers, Operands;
    var fn, number, i := FnCallParts(cx.fo, g, st, name, vals, vs);
    FnDelivered(cx, g, fin, st, fn, number, vals, m, vs);
  }

  /** `saturate` is right exactly on a float scalar or vector. */
  lemma {:induction false} SaturateCoverageIsExact(cx: Cx, g: Globals, fin: St, st: St, a: Val, env: Env, m: Mach, x: Value)
    returns (k: nat)
    requires Finished(cx, g, fin) && Good(st) && EmitSaturate(g, st, a).Ok? && Within(EmitSaturate(g, st, a).value.0, fin)
    requires Inv(cx, g, fin, env, st, m) && Operand(cx, m, a, x) && a.id < st.nextId && !x.VUndef?
    ensures var (st', val) := EmitSaturate(g, st, a).value; var meant := HlslCall(cx.fo, "saturate", [x]);
      Delivers(cx, fin, st, m, k, st', val.id, meant) <==> meant.Some? && CallCovered("saturate", [a.ty])
  {
    hide Good, Within, ProgramOf, Steps, At, EmitSaturate, HlslFloatFn, SaturateValue, Inv, HasType, Kept;
    assert [a.ty][0] == a.ty;
    assert CallCovered("saturate", [a.ty]) <==> OfKind(a.ty, Float);
    hide CallCovered;
    if OfKind(a.ty, Float) {
      SaturateMeans(cx, a.ty, x);
      var m';
      k, m' := SimSaturate(cx, g, fin, st, a, env, m, x);
      AtRunning(fin, EmitSaturate(g, st, a).value.0, m');
    } else {
      k := SaturateBreaks(cx, g, fin, st, a, m, x);
    }
  }

  lemma {:induction false} AtRunning(fin: St, st: St, m: Mach)
    ensures At(fin, st, m).Running? && At(fin, st, m).m == m
  {
  }

  lemma {:induction false} SaturateMeans(cx: Cx, t: Type, x: Value)
    requires HasType(cx.structs, x, t) && OfKind(t, Float) && !x.VUndef?
    ensures SaturateValue(cx.fo, x).Some? && HlslCall(cx.fo, "saturate", [x]) == SaturateValue(cx.fo, x)
  {
    var zero, one := cx.fo.round(F64_ZERO), cx.fo.round(F64_ONE);
    var (y, z) := (VScalar(EFloat(zero)), VScalar(EFloat(one)));
    var (p, q) := (Broadcast(x, zero), Broadcast(x, one));
    ConvertFlatTyped(cx.fo, cx.structs, x, t);
    SplatFloat(cx.fo, t, x, zero, cx.structs);
    SplatFloat(cx.fo, t, x, one, cx.structs);
    FloatsDefined(cx.structs, t, x);
    hide ConvertFlat, Broadcast, HasType, ApplyFn, Floats;
    ArgumentCons(cx.fo, t, z, q, [], []);
    assert [z] + [] == [z] && [q] + [] == [q];
    ArgumentCons(cx.fo, t, y, p, [z], [q]);
    assert [y] + [z] == [y, z] && [p] + [q] == [p, q];
    ArgumentCons(cx.fo, t, x, x, [y, z], [p, q]);
    assert [x] + [y, z] == [x, y, z] && [x] + [p, q] == [x, p, q];
    ClampDefined(cx.fo, x, p, q);
  }

  lemma {:induction false} ArgumentCons(
    fo: FloatOps, t: Type, v: Value, w: Value, vs: seq<Value>, ws: seq<Value>)
    requires OfKind(t, Float) && CommonShape(vs) == Some(Scalar(Float)) && ConvertAll(fo, vs, t) == Some(ws)
    requires ConvertFlat(fo, v, t) == Some(w)
    ensures ConvertAll(fo, [v] + vs, t) == Some([w] + ws)
    ensures v.VScalar? ==> CommonShape([v] + vs) == Some(Scalar(Float))
    ensures v.VVec? ==> CommonShape([v] + vs) == Some(Vector(Float, |v.c|))
  {
    assert ([v] + vs)[0] == v && ([v] + vs)[1..] == vs;
  }

  lemma {:induction false} ClampDefined(fo: FloatOps, x: Value, y: Value, z: Value)
    requires Floats(x).Some? && Floats(y).Some? && Floats(z).Some? && SameShape(x, y) && SameShape(x, z)
    ensures ApplyFn(fo, FClamp, [x, y, z]).Some?
  {
    hide Floats;
    var vs := [x, y, z];
    assert vs[1..] == [y, z] && vs[1..][1..] == [z] && vs[1..][1..][1..] == [];
    assert AllFloats(vs[1..][1..]).Some? && AllFloats(vs[1..]).Some? && AllFloats(vs).Some?;
  }

  lemma {:induction false} FloatsDefined(structs: Structs, t: Type, x: Value)
    requires HasType(structs, x, t) && OfKind(t, Float) && !x.VUndef?
    ensures Floats(x).Some?
  {
    if x.VVec? {
      assert forall i :: 0 <= i < |x.c| ==> KindOf(x.c[i]) == Float;
    }
  }

  lemma {:induction false} SplatFloat(fo: FloatOps, t: Type, x: Value, w: Word, structs: Structs)
    requires HasType(structs, x, t) && OfKind(t, Float) && !x.VUndef?
    ensures ConvertFlat(fo, VScalar(EFloat(w)), t) == Some(Broadcast(x, w))
    ensures Floats(Broadcast(x, w)).Some? && SameShape(x, Broadcast(x, w))
  {
    if t.Vector? {
      assert ConvertFlat(fo, VScalar(EFloat(w)), t).value.c == Broadcast(x, w).c;
    }
  }

  /** Clamping what is not a float breaks the machine. */
  lemma {:induction false} SaturateBreaks(cx: Cx, g: Globals, fin: St, st: St, a: Val, m: Mach, x: Value)
    returns (k: nat)
    requires Finished(cx, g, fin) && Good(st) && EmitSaturate(g, st, a).Ok? && Within(EmitSaturate(g, st, a).value.0, fin)
    requires Operand(cx, m, a, x) && a.id < st.nextId && !x.VUndef? && !OfKind(a.ty, Float)
    ensures Steps(cx, At(fin, st, m), k) == Broken
  {
    hide Good, Within, ProgramOf, At, EmitSaturate, HasType, PlainFrom, Finished, Extends, BroadcastConst, PushNew, Steps, Operand;
    var st2, st3, lo', st4, hi' := SaturateParts(g, fin, st, a);
    AtSame(fin, st, st2, m);
    SplatFlat(st2, st.nextId, a.ty);
    SplatFlat(st3, st.nextId + 1, a.ty);
    if a.ty.Scalar? {
      ClampBreaks(cx, g, fin, st4, a, lo', hi', m, x);
      k := 1;
    } else {
      SplatsThenBreaks(cx, g, fin, st2, a, st.nextId, st.nextId + 1, st3, lo', st4, hi', m, x);
      k := 3;
    }
  }

  lemma {:induction false} SplatFlat(st: St, c: Id, ty: Type)
    requires BroadcastConst(st, c, ty).Ok?
    ensures (ty.Scalar? && BroadcastConst(st, c, ty) == Ok((st, c))) || ty.Vector?
  {
  }

  lemma {:induction false} SplatsThenBreaks(
    cx: Cx, g: Globals, fin: St, st2: St, a: Val, lo: Id, hi: Id, st3: St, lo': Id, st4: St, hi': Id, m: Mach, x: Value)
    requires Finished(cx, g, fin) && Good(st2) && Within(st4, fin) && a.ty.Vector? && a.id < st2.nextId
    requires BroadcastConst(st2, lo, a.ty) == Ok((st3, lo')) && BroadcastConst(st3, hi, a.ty) == Ok((st4, hi'))
    requires PushNew(st4, OpExtInst(st4.nextId, a.ty, FCLAMP, [a.id, lo', hi'])).Ok?
    requires Within(PushNew(st4, OpExtInst(st4.nextId, a.ty, FCLAMP, [a.id, lo', hi'])).value.0, fin)
    requires Operand(cx, m, a, x) && !x.VUndef? && !OfKind(a.ty, Float)
    ensures Steps(cx, At(fin, st2, m), 3) == Broken
  {
    hide Good, Within, ProgramOf, At, HasType, PlainFrom, Produced, Delivers, Finished;
    var i3 := OpCompositeConstruct(st2.nextId, Vector(Float, a.ty.n), seq(a.ty.n, _ => lo));
    assert PushNew(st2, i3) == Ok((st3, lo'));
    PushNewGood(st2, i3);
    var i4 := OpCompositeConstruct(st3.nextId, Vector(Float, a.ty.n), seq(a.ty.n, _ => hi));
    assert PushNew(st3, i4) == Ok((st4, hi'));
    PushNewGood(st3, i4);
    WithinExtends(st3, st4, fin);
    DeliversExact(cx, g, fin, st2, i3, m, None);
    StepsAdd(cx, At(fin, st2, m), 1, 2);
    if Produced(cx, i3, m).None? {
      StoppedStays(cx, Broken, 2);
    } else {
      var m1 := m.(regs := m.regs[st2.nextId := RV(Produced(cx, i3, m).value)]);
      assert Operand(cx, m1, a, x);
      DeliversExact(cx, g, fin, st3, i4, m1, None);
      StepsAdd(cx, At(fin, st3, m1), 1, 1);
      if Produced(cx, i4, m1).None? {
        StoppedStays(cx, Broken, 1);
      } else {
        var m2 := m1.(regs := m1.regs[st3.nextId := RV(Produced(cx, i4, m1).value)]);
        assert Operand(cx, m2, a, x);
        ClampBreaks(cx, g, fin, st4, a, lo', hi', m2, x);
      }
    }
  }

  lemma {:induction false} ClampBreaks(cx: Cx, g: Globals, fin: St, st: St, a: Val, lo: Id, hi: Id, m: Mach, x: Value)
    requires Finished(cx, g, fin) && PushNew(st, OpExtInst(st.nextId, a.ty, FCLAMP, [a.id, lo, hi])).Ok?
    requires Within(PushNew(st, OpExtInst(st.nextId, a.ty, FCLAMP, [a.id, lo, hi])).value.0, fin)
    requires Operand(cx, m, a, x) && !x.VUndef? && !OfKind(a.ty, Float)
    ensures Steps(cx, At(fin, st, m), 1) == Broken
  {
    var i := OpExtInst(st.nextId, a.ty, FCLAMP, [a.id, lo, hi]);
    if Floats(x).Some? {
      FloatsTyped(cx.structs, x, a.ty);
    }
    assert Compute(cx, i, m).None? by {
      if ValuesOf(m, i.args).Some? {
        assert ValuesOf(m, i.args).value[0] == x;
      }
    }
    hide Within, ProgramOf, At, HasType, Compute;
    DeliversExact(cx, g, fin, st, i, m, None);
  }

  /** `float(e)` leaves the HLSL conversion exactly when `e` is a float already: the emitter performs none. */
  lemma {:induction false} FloatConstructorExact(cx: Cx, g: Globals, fin: St, st: St, e: Expr, env: Env, m: Mach)
    returns (k: nat)
    requires Finished(cx, g, fin) && Good(st) && st.open.Some? && EmitExpr(g, st, Construct(Scalar(Float), [e])).Ok?
    requires Within(EmitExpr(g, st, Construct(Scalar(Float), [e])).value.0, fin) && Inv(cx, g, fin, env, st, m)
    requires EvalExpr(cx.fo, cx.structs, env, e).Done?
    ensures EmitExpr(g, st, e).Ok?
    ensures var (st', val) := EmitExpr(g, st, Construct(Scalar(Float), [e])).value;
      var meant := HlslConstruct(cx.fo, Scalar(Float), [EvalExpr(cx.fo, cx.structs, env, e).value.0]);
      Delivers(cx, fin, st, m, k, st', val.id, meant) <==> meant.Some? && EmitExpr(g, st, e).value.1.ty == Scalar(Float)
  {
    hide Finished, Good, Within, Inv, EmitExpr, EvalExpr, Computes, HasType, HlslConstruct;
    FloatConstructorPasses(g, st, e);
    var (v, env1) := EvalExpr(cx.fo, cx.structs, env, e).value;
    var (st1, val) := EmitExpr(g, st, e).value;
    var m';
    k, m' := SimExpr(cx, g, fin, st, e, env, m);
    var meant := HlslConstruct(cx.fo, Scalar(Float), [v]);
    ComputedDelivers(cx, g, fin, st, m, k, st1, env1, m', val, v, meant);
    FloatOfFloat(cx.fo, cx.structs, v, val.ty);
  }

  lemma {:induction false} FloatConstructorPasses(g: Globals, st: St, e: Expr)
    requires EmitExpr(g, st, Construct(Scalar(Float), [e])).Ok?
    ensures EmitExpr(g, st, Construct(Scalar(Float), [e])) == EmitExpr(g, st, e)
  {
    assert [e][0] == e;
  }

  lemma {:induction false} ComputedDelivers(
    cx: Cx, g: Globals, fin: St, st: St, m: Mach, k: nat, st': St, env': Env, m': Mach, val: Val, v: Value, w: Option<Value>)
    requires Computes(cx, g, fin, st, m, k, st', env', m', val, v)
    ensures HasType(cx.structs, v, val.ty)
    ensures Delivers(cx, fin, st, m, k, st', val.id, w) <==> w == Some(v)
  {
    hide Inv, Kept, HasType, Steps;
  }

  lemma {:induction false} FloatOfFloat(fo: FloatOps, structs: Structs, v: Value, ty: Type)
    requires HasType(structs, v, ty) && !v.VUndef?
    ensures HlslConstruct(fo, Scalar(Float), [v]) == Some(v) <==> ty == Scalar(Float)
  {
  }

  // --- returns and initialisers ---

  /** The code emitted for `return e` leaves the HLSL value in the output variable and halts exactly when `e` already
      has the type of the output; it converts nothing, and otherwise breaks. */
  lemma {:induction false} ReturnExact(cx: Cx, g: Globals, fin: St, st: St, e: Expr, env: Env, m: Mach) returns (k: nat)
    requires Finished(cx, g, fin) && Good(st) && st.open.Some? && g.outVar.Some? && EmitStmt(g, st, Return(Some(e))).Ok?
    requires Within(EmitStmt(g, st, Return(Some(e))).value, fin) && Inv(cx, g, fin, env, st, m)
    requires EvalExpr(cx.fo, cx.structs, env, e).Done?
    ensures var v := EvalExpr(cx.fo, cx.structs, env, e).value.0; var c := Steps(cx, At(fin, st, m), k);
      && (HasType(cx.structs, v, g.outTy) ==>
            c.Halted? && g.outVar.value in c.m.mem && Some(c.m.mem[g.outVar.value]) == HlslConvert(cx.fo, cx.structs, v, g.outTy))
      && (!HasType(cx.structs, v, g.outTy) ==> c == Broken)
  {
    hide Good, Within, ProgramOf, Inv, HasType, EmitExpr, EvalExpr, Kept, At, Steps, Ready;
    var (st1, a) := EmitExpr(g, st, e).value;
    EmitExprGood(g, st, e);
    var v := EvalExpr(cx.fo, cx.structs, env, e).value.0;
    var i := OpStore(g.outVar.value, a.id);
    var st2 := Push(st1, i).value;
    PushGood(st1, i);
    CloseGood(st2, OpReturn);
    WithinBefore(st2, Close(st2, OpReturn).value, fin, {});
    WithinExtends(st1, st2, fin);
    var k1, m1 := SimExpr(cx, g, fin, st, e, env, m);
    InvReady(cx, g, fin, EvalExpr(cx.fo, cx.structs, env, e).value.1, st1, m1);
    StepsAdd(cx, At(fin, st, m), k1, 1);
    if HasType(cx.structs, v, g.outTy) {
      var m2 := RunStoreOut(cx, g, fin, st1, i, m1, v);
      RunReturn(cx, g, fin, st2, m2);
      StepsAdd(cx, At(fin, st, m), k1 + 1, 1);
      k := k1 + 2;
    } else {
      StoreBreaks(cx, g, fin, st1, i, m1, Pointer(g.outVar.value, [], g.outTy), v);
      k := k1 + 1;
    }
  }

  lemma {:induction false} InvReady(cx: Cx, g: Globals, fin: St, env: Env, st: St, m: Mach)
    requires Inv(cx, g, fin, env, st, m)
    ensures Ready(cx, g, fin, m)
    ensures g.outVar.Some? ==> PointerOf(m, g.outVar.value) == Some(Pointer(g.outVar.value, [], g.outTy))
    ensures forall v :: v in fin.vars ==> PointerOf(m, v.id) == Some(Pointer(v.id, [], v.ty))
  {
  }

  /** Storing a value of another type breaks the machine. */
  lemma {:induction false} StoreBreaks(cx: Cx, g: Globals, fin: St, st: St, i: Instr, m: Mach, p: Pointer, v: Value)
    requires Finished(cx, g, fin) && i.OpStore? && Push(st, i).Ok? && Within(Push(st, i).value, fin)
    requires PointerOf(m, i.ptr) == Some(p) && ValueOf(m, i.val) == Some(v) && !HasType(cx.structs, v, p.ty)
    ensures Steps(cx, At(fin, st, m), 1) == Broken
  {
    hide Good, Within, ProgramOf, HasType;
    Fetch(cx, g, fin, st, Push(st, i).value, i);
    StepsOne(cx, At(fin, st, m));
  }

  /** The code emitted for `ty x = e;` leaves the HLSL value in the new variable exactly when `e` already has type
      `ty`; it converts nothing, and otherwise breaks. */
  lemma {:induction false} InitialiserExact(cx: Cx, g: Globals, fin: St, st: St, d: VarDecl, env: Env, m: Mach) returns (k: nat)
    requires Finished(cx, g, fin) && Good(st) && st.open.Some? && d.init.Some? && EmitStmt(g, st, Decl(d)).Ok?
    requires Within(EmitStmt(g, st, Decl(d)).value, fin) && Inv(cx, g, fin, env, st, m)
    requires EvalExpr(cx.fo, cx.structs, env, d.init.value).Done?
    ensures var v := EvalExpr(cx.fo, cx.structs, env, d.init.value).value.0; var st' := EmitStmt(g, st, Decl(d)).value;
      var c := Steps(cx, At(fin, st, m), k);
      && (HasType(cx.structs, v, d.ty) ==>
            c.Running? && c == At(fin, st', c.m) && st.nextId in c.m.mem
            && Some(c.m.mem[st.nextId]) == HlslConvert(cx.fo, cx.structs, v, d.ty))
      && (!HasType(cx.structs, v, d.ty) ==> c == Broken)
  {
    hide Good, ProgramOf, Inv, HasType, EmitExpr, EvalExpr, Kept, At, Steps, Ready, PlainFrom;
    var e := d.init.value;
    var (st1, ptr) := AllocLocal(g, st, d.ty).value;
    AllocGood(g, st, d.ty);
    var (st2, a) := EmitExpr(g, st1, e).value;
    EmitExprGood(g, st1, e);
    var i := OpStore(ptr, a.id);
    var st3 := Push(st2, i).value;
    PushGood(st2, i);
    assert Within(st3, fin);
    WithinExtends(st2, st3, fin);
    assert Var(ptr, d.ty) in st3.vars by {
      ExtendsVars(st1, st2);
    }
    InvSameLocals(cx, g, fin, env, st, st1, m);
    AtSame(fin, st, st1, m);
    AtSame(fin, st3, EmitStmt(g, st, Decl(d)).value, m);
    var (v, env1) := EvalExpr(cx.fo, cx.structs, env, e).value;
    var k1, m1 := SimExpr(cx, g, fin, st1, e, env, m);
    InvReady(cx, g, fin, env1, st2, m1);
    StepsAdd(cx, At(fin, st1, m), k1, 1);
    k := k1 + 1;
    if HasType(cx.structs, v, d.ty) {
      FreshPointer(st, st1, st2, ptr);
      var m2 := RunStoreFresh(cx, g, fin, st2, i, env1, Var(ptr, d.ty), m1, v);
      AtSame(fin, st3, EmitStmt(g, st, Decl(d)).value, m2);
      AtRunning(fin, st3, m2);
    } else {
      StoreBreaks(cx, g, fin, st2, i, m1, Pointer(ptr, [], d.ty), v);
    }
  }

  lemma {:induction false} ExtendsVars(st: St, st': St)
    requires Extends(st, st')
    ensures st'.vars == st.vars && st'.locals == st.locals
  {
  }

  /** No local points to a variable allocated since. */
  lemma {:induction false} FreshPointer(st: St, st1: St, st2: St, ptr: Id)
    requires Good(st) && ptr == st.nextId && st1.locals == st.locals && Extends(st1, st2)
    ensures forall j :: 0 <= j < |st2.locals| ==> st2.locals[j].ptr != ptr
  {
    forall j | 0 <= j < |st.locals| ensures st.locals[j].ptr != ptr {
      assert Var(st.locals[j].ptr, st.locals[j].ty) in st.vars;
    }
  }

  // --- the interpreter says what HLSL means ---

  function HlslBinary(fo: FloatOps, op: BinaryOp, a: Value, b: Value): Option<Value> {
    if IsComparison(op) then HlslCompare(fo, op, a, b)
    else if op in {And, Or} then HlslLogical(fo, op, a, b)
    else HlslArith(fo, op, a, b)
  }

  /** Where the interpreter gives an operator a value, it is the one HLSL gives it. */
  lemma {:induction false} BinaryMeansHlsl(fo: FloatOps, op: BinaryOp, a: Value, b: Value)
    requires BinaryValue(fo, op, a, b).Some?
    ensures BinaryValue(fo, op, a, b) == HlslBinary(fo, op, a, b)
  {
    hide ArithValue;
    if IsComparison(op) {
      var f, k := CompareFn(fo, op), HlslCompareFn(fo, op);
      assert forall x, y :: f(x, y).Some? ==> f(x, y) == k(x, y);
      hide CompareFn, HlslCompareFn;
      SameLift(f, k, a, b);
    } else if op !in {And, Or} {
      ArithMeansHlsl(fo, op, a, b);
    }
  }

  lemma {:induction false} ArithMeansHlsl(fo: FloatOps, op: BinaryOp, a: Value, b: Value)
    requires ArithValue(fo, op, a, b).Some?
    ensures ArithValue(fo, op, a, b) == HlslArith(fo, op, a, b)
  {
  }

  lemma {:induction false} UnaryMeansHlsl(fo: FloatOps, op: UnaryOp, a: Value)
    requires Lift2(UnaryFn(fo, op), a, a).Some?
    ensures Lift2(UnaryFn(fo, op), a, a) == HlslUnary(fo, op, a)
  {
    var f, k := UnaryFn(fo, op), HlslUnaryFn(fo, op);
    assert forall x, y :: f(x, y).Some? ==> f(x, y) == k(x, y);
    hide UnaryFn, HlslUnaryFn;
    SameLift(f, k, a, a);
  }

  lemma {:induction false} ConvertMeansHlsl(fo: FloatOps, structs: Structs, v: Value, ty: Type)
    requires ConvertTo(fo, structs, v, ty).Some?
    ensures ConvertTo(fo, structs, v, ty) == HlslConvert(fo, structs, v, ty)
  {
  }

  lemma {:induction false} ConstructMeansHlsl(fo: FloatOps, ty: Type, vs: seq<Value>)
    requires ConstructValue(fo, ty, vs).Some?
    ensures ConstructValue(fo, ty, vs) == HlslConstruct(fo, ty, vs)
  {
    if ty.Scalar? {
      ConvertedKind(fo, vs[0].e, ty.kind);
    } else {
      var parts := if |vs| == 1 then seq(ty.n, _ => vs[0]) else vs;
      var c := Flatten(parts).value;
      AssembleTyped(map[], ty.kind, ty.n, parts);
      ConvertFlatTyped(fo, map[], VVec(c), ty);
      if |vs| == 1 {
        FlattenCopies(vs[0].e, ty.n);
        assert parts == seq(ty.n, _ => VScalar(vs[0].e));
        assert c[0] == vs[0].e;
        ConvertedKind(fo, vs[0].e, ty.kind);
        assert ConvertFlat(fo, vs[0], ty).value.c == c;
      }
    }
  }

  lemma {:induction false} CallMeansHlsl(cx: Cx, name: string, ts: seq<Type>, vs: seq<Value>)
    requires |vs| == |ts| && forall i :: 0 <= i < |vs| ==> HasType(cx.structs, vs[i], ts[i]) && !vs[i].VUndef?
    requires CallValue(cx.fo, name, vs).Some?
    ensures CallValue(cx.fo, name, vs) == HlslCall(cx.fo, name, vs)
  {
    hide ApplyFn, HlslFn, HlslFloatFn, DotValue, HlslDot, HasType, ArithValue;
    if name == "saturate" {
      SaturateFloats(cx.fo, vs[0]);
      FloatsTyped(cx.structs, vs[0], ts[0]);
      SaturateMeans(cx, ts[0], vs[0]);
      assert vs == [vs[0]];
    } else if name == "dot" {
      DotProduced(cx, ts[0], ts[1], vs[0], vs[1]);
    } else if name == "mul" {
      ArithMeansHlsl(cx.fo, Mul, vs[0], vs[1]);
    } else {
      FnArity(cx.fo, FnOfName(name).value, vs);
      FnProduced(cx, FnOfName(name).value, ts, vs);
    }
  }

  lemma {:induction false} FnArity(fo: FloatOps, fn: Fn, vs: seq<Value>)
    requires ApplyFn(fo, fn, vs).Some?
    ensures |vs| == Arity(fn)
  {
  }
}
