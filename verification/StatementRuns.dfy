/** One expression statement as a whole function: what the program compiled from it leaves when it runs. */
module StatementRuns {
  import opened Wrappers
  import opened Ast
  import opened Values
  import opened HlslSemantics
  import opened SpirvMachine
  import opened EmitterSpec
  import opened EmitterFacts
  import opened ExprPreservation
  import opened StmtPreservation
  import opened StmtSimulation
  import opened BodyPreservation
  import opened Coverage

  /** After `k` steps of the program compiled from `{ e; }`, the register of `e` holds `r`; or the machine is broken. */
  ghost predicate Leaves(cx: Cx, g: Globals, entry: Id, e: Expr, m: Mach, k: nat, r: Option<Value>) {
    && EmitExpr(g, EntrySt(entry), e).Ok?
    && var c := Steps(cx, Start(m), k);
       match r
       case Some(v) => c.Running? && ValueOf(c.m, EmitExpr(g, EntrySt(entry), e).value.1.id) == Some(v)
       case None => c == Broken
  }

  function Lone(e: Expr): Block { Block([ExprStmt(e)]) }

  /** The run of `{ e; }` reaches the code of `e`. */
  lemma {:induction false} LoneStatement(cx: Cx, g: Globals, entry: Id, e: Expr, m: Mach) returns (fin: St, m0: Mach)
    requires Setting(cx, g, entry, [], Lone(e), [], m)
    ensures var st0 := EntrySt(entry); Good(st0) && st0.open.Some? && Finished(cx, g, fin) && EmitExpr(g, st0, e).Ok?
    ensures Within(EmitExpr(g, EntrySt(entry), e).value.0, fin) && Inv(cx, g, fin, [], EntrySt(entry), m0)
    ensures Steps(cx, Start(m), |fin.vars|) == At(fin, EntrySt(entry), m0)
  {
    hide Good, Ready, Agree, EnvTyped, ProgramOf, HasType, Within, Steps, Loaded, SeedsTyped, InputsReady, EmitExpr;
    fin := EmitBody(g, entry, [], Lone(e)).value;
    var st1, st2 := BodyGood(g, entry, [], Lone(e));
    var st0 := EntrySt(entry);
    EntryGood(entry);
    LoneParts(g, st0, e);
    assert st1 == st0;
    assert Finished(cx, g, fin);
    SimVars(cx, g, entry, fin, [], [], m);
    m0 := AfterVars(cx, fin.vars, m);
  }

  lemma {:induction false} LoneParts(g: Globals, st: St, e: Expr)
    requires st.open.Some? && EmitStmts(g, st, Lone(e).stmts).Ok?
    ensures EmitExpr(g, st, e).Ok? && EmitStmts(g, st, Lone(e).stmts) == Ok(EmitExpr(g, st, e).value.0)
  {
    hide EmitExpr;
    assert EmitStmt(g, st, Lone(e).stmts[0]).Ok?;
    var st1 := EmitStmt(g, st, Lone(e).stmts[0]).value;
    assert Lone(e).stmts[1..] == [];
    assert st1.open.Some? ==> EmitStmts(g, st1, []) == Ok(st1);
  }

  /** From the operands in registers to the outcome of the one instruction behind them. */
  lemma {:induction false} LastStep(
    cx: Cx, g: Globals, entry: Id, e: Expr, m: Mach, fin: St, k: nat, st: St, m': Mach, i: Instr, made: Option<Value>)
    returns (n: nat)
    requires Finished(cx, g, fin) && EmitExpr(g, EntrySt(entry), e).Ok? && Within(EmitExpr(g, EntrySt(entry), e).value.0, fin)
    requires Steps(cx, Start(m), k) == At(fin, st, m')
    requires DefOf(i) == Some(st.nextId) && PushNew(st, i).Ok? && !i.OpVariable? && !i.OpAccessChain?
    requires EmitExpr(g, EntrySt(entry), e).value.0 == PushNew(st, i).value.0
    requires EmitExpr(g, EntrySt(entry), e).value.1.id == st.nextId
    requires Produced(cx, i, m') == made
    ensures Leaves(cx, g, entry, e, m, n, made)
  {
    hide Finished, Within, EmitExpr, Steps, PushNew, Produced;
    DeliversExact(cx, g, fin, st, i, m', made);
    StepsAdd(cx, Start(m), k, 1);
    n := k + 1;
  }

  /** Opcode and result type the emitter chooses for a binary operator, by the types of its operands. */
  function OperatorCode(op: BinaryOp, ta: Type, tb: Type): Option<(BinOpcode, Type)> {
    if IsComparison(op) then
      var opc :- CompareOpcode(op, (ta.Scalar? || ta.Vector?) && ta.kind == Float);
      Some((opc, if ta.Vector? then Vector(Bool, ta.n) else Scalar(Bool)))
    else if op in {And, Or} then Some((if op == And then LogicalAnd else LogicalOr, Scalar(Bool)))
    else
      var ty := if ta.IsComposite() then ta else tb;
      var opc :- ArithOpcode(op, ty);
      Some((opc, ty))
  }

  /** What an instruction with this opcode and result type makes of two values. */
  ghost function Made(cx: Cx, code: (BinOpcode, Type), x: Value, y: Value): Option<Value> {
    if !(code.1.Scalar? || code.1.Vector?) then None else
    var v :- Lift2(BinFn(cx.fo, code.0, code.1.kind), x, y);
    if HasType(cx.structs, v, code.1) then Some(v) else None
  }

  lemma {:induction false} OperatorInstr(g: Globals, st: St, op: BinaryOp, a: Val, b: Val)
    requires FinishOperator(g, st, op, a, b).Ok?
    ensures OperatorCode(op, a.ty, b.ty).Some?
    ensures var (opc, ty) := OperatorCode(op, a.ty, b.ty).value; var i := OpBin(st.nextId, opc, ty, a.id, b.id);
      PushNew(st, i).Ok? && FinishOperator(g, st, op, a, b) == Ok((PushNew(st, i).value.0, Val(st.nextId, ty)))
  {
    hide ArithOpcode, CompareOpcode;
  }

  lemma {:induction false} OperatorMakes(cx: Cx, id: Id, code: (BinOpcode, Type), a: Val, b: Val, m: Mach, x: Value, y: Value)
    requires ValueOf(m, a.id) == Some(x) && ValueOf(m, b.id) == Some(y)
    ensures Produced(cx, OpBin(id, code.0, code.1, a.id, b.id), m) == Made(cx, code, x, y)
  {
    hide HasType, BinFn, Lift2;
  }

  /** Running `{ lhs op rhs; }` whose operands have the values `x` and `y`: their types, and what is left. */
  lemma {:induction false} OperatorLeaves(
    cx: Cx, g: Globals, entry: Id, op: BinaryOp, lhs: Expr, rhs: Expr, m: Mach, x: Value, y: Value)
    returns (k: nat, ta: Type, tb: Type)
    requires Setting(cx, g, entry, [], Lone(Binary(op, lhs, rhs)), [], m) && op != Assign && !IsCompound(op)
    requires EvalExpr(cx.fo, cx.structs, [], lhs) == Done((x, [])) && EvalExpr(cx.fo, cx.structs, [], rhs) == Done((y, []))
    ensures HasType(cx.structs, x, ta) && HasType(cx.structs, y, tb) && OperatorCode(op, ta, tb).Some?
    ensures Leaves(cx, g, entry, Binary(op, lhs, rhs), m, k, Made(cx, OperatorCode(op, ta, tb).value, x, y))
  {
    hide Good, Inv, Kept, Within, ProgramOf, Steps, HasType, At, EmitExpr, EvalExpr, FinishOperator, Finished, Setting, EntrySt,
      OperatorCode, Made, Produced, PushNew, Leaves;
    var e := Binary(op, lhs, rhs);
    var fin, m0 := LoneStatement(cx, g, entry, e, m);
    var st0 := EntrySt(entry);
    OperatorEmission(g, st0, op, lhs, rhs);
    var (st1, a) := EmitExpr(g, st0, lhs).value;
    EmitExprGood(g, st0, lhs);
    var (st2, b) := EmitExpr(g, st1, rhs).value;
    EmitExprGood(g, st1, rhs);
    FinishOperatorGood(g, st2, op, a, b);
    WithinExtends(st2, EmitExpr(g, st0, e).value.0, fin);
    WithinExtends(st1, st2, fin);
    var k1, m1 := SimExpr(cx, g, fin, st0, lhs, [], m0);
    var k2, m2 := SimExpr(cx, g, fin, st1, rhs, [], m1);
    KeptValue(fin, st1.nextId, m1, m2, a.id);
    StepsAdd(cx, Start(m), |fin.vars|, k1);
    StepsAdd(cx, Start(m), |fin.vars| + k1, k2);
    ta, tb := a.ty, b.ty;
    OperatorInstr(g, st2, op, a, b);
    var code := OperatorCode(op, ta, tb).value;
    OperatorMakes(cx, st2.nextId, code, a, b, m2, x, y);
    k := LastStep(cx, g, entry, e, m, fin, |fin.vars| + k1 + k2, st2, m2,
                  OpBin(st2.nextId, code.0, code.1, a.id, b.id), Made(cx, code, x, y));
  }

  lemma {:induction false} OperatorEmission(g: Globals, st: St, op: BinaryOp, lhs: Expr, rhs: Expr)
    requires op != Assign && !IsCompound(op) && EmitExpr(g, st, Binary(op, lhs, rhs)).Ok?
    ensures EmitExpr(g, st, lhs).Ok? && EmitExpr(g, EmitExpr(g, st, lhs).value.0, rhs).Ok?
    ensures var (st1, a) := EmitExpr(g, st, lhs).value; var (st2, b) := EmitExpr(g, st1, rhs).value;
      EmitExpr(g, st, Binary(op, lhs, rhs)) == FinishOperator(g, st2, op, a, b)
  {
  }

  /** Running the arguments in `{ e; }`, where `e` is a call or a constructor. */
  lemma {:induction false} ArgumentsRun(cx: Cx, g: Globals, entry: Id, e: Expr, m: Mach, vs: seq<Value>)
    returns (k: nat, fin: St, st: St, vals: seq<Val>, m': Mach)
    requires (e.Call? || (e.Construct? && e.ty.Vector?)) && Setting(cx, g, entry, [], Lone(e), [], m)
    requires EvalArgs(cx.fo, cx.structs, [], e.args) == Done((vs, []))
    ensures Finished(cx, g, fin) && Steps(cx, Start(m), k) == At(fin, st, m')
    ensures |vals| == |vs|
    ensures forall i :: 0 <= i < |vs| ==> ValueOf(m', vals[i].id) == Some(vs[i]) && HasType(cx.structs, vs[i], vals[i].ty)
    ensures ValuesOf(m', Ids(vals)) == Some(vs)
    ensures EmitExpr(g, EntrySt(entry), e).Ok? && Within(EmitExpr(g, EntrySt(entry), e).value.0, fin)
    ensures EmitExpr(g, EntrySt(entry), e) == (if e.Call? then FinishCall(g, st, e.name, vals) else Assemble(st, e.ty, vals))
  {
    hide Good, Inv, Kept, Within, ProgramOf, Steps, HasType, At, EmitExpr, EvalExpr, Finished, Setting, EntrySt, FinishCall,
      Assemble, EmitArgs, EvalArgs, ValuesOf;
    var m0;
    fin, m0 := LoneStatement(cx, g, entry, e, m);
    var st0 := EntrySt(entry);
    ArgumentsEmission(g, st0, e);
    st, vals := EmitArgs(g, st0, e.args).value.0, EmitArgs(g, st0, e.args).value.1;
    EmitArgsGood(g, st0, e.args);
    if e.Call? {
      FinishCallGood(g, st, e.name, vals);
    } else {
      AssembleGood(st, e.ty, vals);
    }
    WithinExtends(st, EmitExpr(g, st0, e).value.0, fin);
    var k1;
    k1, m' := SimArgs(cx, g, fin, st0, e.args, [], m0);
    StepsAdd(cx, Start(m), |fin.vars|, k1);
    HoldsValues(cx, m', st.nextId, vals, vs);
    k := |fin.vars| + k1;
  }

  lemma {:induction false} ArgumentsEmission(g: Globals, st: St, e: Expr)
    requires (e.Call? || (e.Construct? && e.ty.Vector?)) && EmitExpr(g, st, e).Ok?
    ensures EmitArgs(g, st, e.args).Ok?
    ensures var (st1, vals) := EmitArgs(g, st, e.args).value;
      EmitExpr(g, st, e) == (if e.Call? then FinishCall(g, st1, e.name, vals) else Assemble(st1, e.ty, vals))
  {
  }

  /** What a unary opcode with this result type makes of a value. */
  ghost function UnaryMade(cx: Cx, opc: UnOpcode, ty: Type, x: Value): Option<Value> {
    if !(ty.Scalar? || ty.Vector?) then None else
    var v :- Lift2(UnFn(cx.fo, opc, ty.kind), x, x);
    if HasType(cx.structs, v, ty) then Some(v) else None
  }

  lemma {:induction false} UnaryMakes(cx: Cx, id: Id, opc: UnOpcode, a: Val, m: Mach, x: Value)
    requires ValueOf(m, a.id) == Some(x)
    ensures Produced(cx, OpUn(id, opc, a.ty, a.id), m) == UnaryMade(cx, opc, a.ty, x)
  {
    hide HasType, UnFn, Lift2;
  }

  /** Running `{ op e; }` whose operand has the value `x`: its type, and what is left. */
  lemma {:induction false} UnaryLeaves(cx: Cx, g: Globals, entry: Id, op: UnaryOp, e: Expr, m: Mach, x: Value)
    returns (k: nat, ty: Type)
    requires Setting(cx, g, entry, [], Lone(Unary(op, e)), [], m)
    requires EvalExpr(cx.fo, cx.structs, [], e) == Done((x, []))
    ensures HasType(cx.structs, x, ty) && UnaryOpcode(op, ty).Some?
    ensures Leaves(cx, g, entry, Unary(op, e), m, k, UnaryMade(cx, UnaryOpcode(op, ty).value, ty, x))
  {
    hide Good, Inv, Kept, Within, ProgramOf, Steps, HasType, At, EmitExpr, EvalExpr, Finished, Setting, EntrySt, UnaryOpcode,
      UnaryMade, Produced, PushNew, Leaves;
    var fin, m0 := LoneStatement(cx, g, entry, Unary(op, e), m);
    var k1, st1, a, m1, env1, v := UnaryRuns(cx, g, fin, EntrySt(entry), op, e, [], m0);
    StepsAdd(cx, Start(m), |fin.vars|, k1);
    ty := a.ty;
    var opc := UnaryOpcode(op, ty).value;
    UnaryMakes(cx, st1.nextId, opc, a, m1, x);
    k := LastStep(cx, g, entry, Unary(op, e), m, fin, |fin.vars| + k1, st1, m1, OpUn(st1.nextId, opc, ty, a.id),
                  UnaryMade(cx, opc, ty, x));
  }
}
