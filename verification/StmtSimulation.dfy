/** The simulation theorem for statements: by induction on the syntax, and on fuel for loops. */
module StmtSimulation {
  import opened Wrappers
  import opened Ast
  import opened Values
  import opened HlslSemantics
  import opened SpirvMachine
  import opened EmitterSpec
  import opened EmitterFacts
  import opened ExprPreservation
  import opened StmtPreservation

  // --- conditions ---

  /** A condition ends up as a bool in a register. */
  lemma {:induction false} SimCond(cx: Cx, g: Globals, fin: St, st: St, e: Expr, env: Env, m: Mach)
    returns (k: nat, m': Mach)
    requires Finished(cx, g, fin) && Good(st) && st.open.Some? && EmitExpr(g, st, e).Ok?
    requires CoerceToBool(EmitExpr(g, st, e).value.0, EmitExpr(g, st, e).value.1).Ok?
    requires Within(CoerceToBool(EmitExpr(g, st, e).value.0, EmitExpr(g, st, e).value.1).value.0, fin)
    requires Inv(cx, g, fin, env, st, m) && EvalCond(cx.fo, cx.structs, env, Some(e)).Done?
    ensures var (st1, c) := EmitExpr(g, st, e).value; var (st2, id) := CoerceToBool(st1, c).value;
      var (b, env1) := EvalCond(cx.fo, cx.structs, env, Some(e)).value;
      && Steps(cx, At(fin, st, m), k) == At(fin, st2, m') && Inv(cx, g, fin, env1, st2, m')
      && Kept(fin, st.nextId, m, m') && ValueOf(m', id) == Some(VScalar(EBool(b)))
  {
    hide Good, Ready, Agree, EnvTyped, Within, ProgramOf, StepConfig, EmitExpr, EvalExpr, At;
    var (st1, c) := EmitExpr(g, st, e).value;
    EmitExprGood(g, st, e);
    CoerceToBoolGood(st1, c);
    var (st2, id) := CoerceToBool(st1, c).value;
    WithinExtends(st1, st2, fin);
    var (x, env1) := EvalExpr(cx.fo, cx.structs, env, e).value;
    k, m' := SimExpr(cx, g, fin, st, e, env, m);
    if c.ty != Scalar(Bool) {
      var k1, m1 := k, m';
      assert forall j :: 0 <= j < |x.c| ==> KindOf(x.c[j]) == Bool;
      m' := SimNew(cx, g, fin, st1, OpAny(st1.nextId, c.id), env1, m1, VScalar(EBool(Truth(x).value)));
      k := k1 + 1;
      Then(cx, g, fin, st, m, k1, st1, m1, 1, st2, m');
    }
  }

  /** The head of an `if` jumps to the arm the condition selects. */
  lemma {:induction false} SimIfHead(cx: Cx, g: Globals, fin: St, st: St, cond: Expr, hasElse: bool, env: Env, m: Mach)
    returns (k: nat, m': Mach)
    requires Finished(cx, g, fin) && Good(st) && st.open.Some? && EmitIfHead(g, st, cond, hasElse).Ok?
    requires Within(EmitIfHead(g, st, cond, hasElse).value.0, fin)
    requires Inv(cx, g, fin, env, st, m) && EvalCond(cx.fo, cx.structs, env, Some(cond)).Done?
    ensures var (st', thenL) := EmitIfHead(g, st, cond, hasElse).value;
      var (b, env1) := EvalCond(cx.fo, cx.structs, env, Some(cond)).value;
      && Steps(cx, At(fin, st, m), k) == Jump(cx, if b then thenL else if hasElse then thenL + 2 else thenL + 1, m')
      && Inv(cx, g, fin, env1, st', m') && Kept(fin, st.nextId, m, m') && k >= 1
  {
    hide Good, Ready, Agree, EnvTyped, Within, ProgramOf, StepConfig, EmitExpr, EvalCond, Jump, CoerceToBool, Kept;
    var (st1, c) := EmitExpr(g, st, cond).value;
    EmitExprGood(g, st, cond);
    var (st2, id) := CoerceToBool(st1, c).value;
    CoerceToBoolGood(st1, c);
    var thenL := st2.nextId;
    var st3 := st2.(nextId := if hasElse then thenL + 3 else thenL + 2);
    BumpGood(st2, st3.nextId);
    var mark := OpSelectionMerge(thenL + 1);
    var st4 := Push(st3, mark).value;
    PushMarkGood(st3, mark);
    var br := OpBranchConditional(id, thenL, if hasElse then thenL + 2 else thenL + 1);
    CloseGood(st4, br);
    var st5 := Close(st4, br).value;
    WithinBefore(st4, st5, fin, {});
    WithinBefore(st3, st4, fin, {});
    WithinExtends(st2, st3, fin);
    var (b, _) := EvalCond(cx.fo, cx.structs, env, Some(cond)).value;
    var k1, m1 := SimCond(cx, g, fin, st, cond, env, m);
    m' := m1;
    RunMark(cx, g, fin, st3, mark, m1);
    RunBranchConditional(cx, g, fin, st4, br, m1, b);
    StepsAdd(cx, At(fin, st, m), k1, 1);
    StepsAdd(cx, At(fin, st, m), k1 + 1, 1);
    k := k1 + 1 + 1;
  }

  /** The end of a loop header jumps to the body or to the merge block. */
  lemma {:induction false} SimTest(
    cx: Cx, g: Globals, fin: St, st: St, test: Option<Expr>, bodyL: Id, merge: Id, env: Env, m: Mach)
    returns (k: nat, m': Mach)
    requires Finished(cx, g, fin) && Good(st) && st.open.Some? && EmitTest(g, st, test, bodyL, merge).Ok?
    requires Within(EmitTest(g, st, test, bodyL, merge).value, fin)
    requires Inv(cx, g, fin, env, st, m) && EvalCond(cx.fo, cx.structs, env, test).Done?
    ensures var st' := EmitTest(g, st, test, bodyL, merge).value;
      var (b, env1) := EvalCond(cx.fo, cx.structs, env, test).value;
      && Steps(cx, At(fin, st, m), k) == Jump(cx, if b then bodyL else merge, m')
      && Inv(cx, g, fin, env1, st', m') && Kept(fin, st.nextId, m, m') && k >= 1
  {
    hide Good, Ready, Agree, EnvTyped, Within, ProgramOf, StepConfig, EmitExpr, Jump, CoerceToBool;
    match test
    case None =>
      RunBranch(cx, g, fin, st, bodyL, m);
      k, m' := 1, m;
    case Some(e) =>
      var (st1, c) := EmitExpr(g, st, e).value;
      EmitExprGood(g, st, e);
      var (st2, id) := CoerceToBool(st1, c).value;
      CoerceToBoolGood(st1, c);
      var br := OpBranchConditional(id, bodyL, merge);
      CloseGood(st2, br);
      WithinBefore(st2, Close(st2, br).value, fin, {});
      var k1, m1 := SimCond(cx, g, fin, st, e, env, m);
      RunBranchConditional(cx, g, fin, st2, br, m1, EvalCond(cx.fo, cx.structs, env, test).value.0);
      StepsAdd(cx, At(fin, st, m), k1, 1);
      k, m' := k1 + 1, m1;
  }

  // --- statements without inner blocks ---

  lemma {:induction false} SimReturn(
    cx: Cx, g: Globals, fin: St, st: St, value: Option<Expr>, fuel: nat, env: Env, m: Mach) returns (k: nat, m': Mach)
    requires Finished(cx, g, fin) && Good(st) && st.open.Some? && EmitStmt(g, st, Return(value)).Ok?
    requires Within(EmitStmt(g, st, Return(value)).value, fin) && Inv(cx, g, fin, env, st, m)
    ensures var st' := EmitStmt(g, st, Return(value)).value;
      var o := ExecStmt(cx.fo, cx.structs, g.outTy, fuel, env, Return(value));
      !o.Normal? && Mirrors(cx, g, fin, fuel, At(fin, st, m), st.nextId, m, o, st', k, m')
  {
    hide Good, Agree, EnvTyped, Within, ProgramOf, StepConfig, EmitExpr, EvalExpr, HasType, At;
    match value
    case None =>
      RunReturn(cx, g, fin, st, m);
      k, m' := 1, m;
    case Some(e) =>
      k, m' := 0, m;
      if EvalExpr(cx.fo, cx.structs, env, e).Done? && HasType(cx.structs, EvalExpr(cx.fo, cx.structs, env, e).value.0, g.outTy) {
        var (st1, v) := EmitExpr(g, st, e).value;
        EmitExprGood(g, st, e);
        var (x, env1) := EvalExpr(cx.fo, cx.structs, env, e).value;
        var st2 := if g.outVar.Some? then Push(st1, OpStore(g.outVar.value, v.id)).value else st1;
        if g.outVar.Some? {
          PushGood(st1, OpStore(g.outVar.value, v.id));
        }
        CloseGood(st2, OpReturn);
        WithinBefore(st2, Close(st2, OpReturn).value, fin, {});
        if g.outVar.Some? {
          WithinExtends(st1, st2, fin);
        }
        k, m' := SimExpr(cx, g, fin, st, e, env, m);
        if g.outVar.Some? {
          OutNotVar(cx, g, fin);
          var k1, m1 := k, m';
          m' := RunStoreOut(cx, g, fin, st1, OpStore(g.outVar.value, v.id), m1, x);
          k := k1 + 1;
          StepsAdd(cx, At(fin, st, m), k1, 1);
        }
        RunReturn(cx, g, fin, st2, m');
        StepsAdd(cx, At(fin, st, m), k, 1);
        k := k + 1;
      }
  }

  lemma {:induction false} SimDecl(cx: Cx, g: Globals, fin: St, st: St, d: VarDecl, fuel: nat, env: Env, m: Mach)
    returns (k: nat, m': Mach)
    requires Finished(cx, g, fin) && Good(st) && st.open.Some? && EmitStmt(g, st, Decl(d)).Ok?
    requires Within(EmitStmt(g, st, Decl(d)).value, fin) && Inv(cx, g, fin, env, st, m)
    ensures var st' := EmitStmt(g, st, Decl(d)).value;
      var o := ExecStmt(cx.fo, cx.structs, g.outTy, fuel, env, Decl(d));
      st'.open.Some? && Mirrors(cx, g, fin, fuel, At(fin, st, m), st.nextId, m, o, st', k, m')
  {
    hide Good, Agree, EnvTyped, ProgramOf, StepConfig, EmitExpr, EvalExpr, PlainFrom;
    var (st1, ptr) := AllocLocal(g, st, d.ty).value;
    AllocGood(g, st, d.ty);
    var st2 := EmitInit(g, st1, ptr, d.init).value;
    EmitInitGood(g, st1, ptr, d.init);
    assert Within(st2, fin);
    assert Var(ptr, d.ty) in fin.vars;
    assert At(fin, st, m) == At(fin, st1, m);
    InvSameLocals(cx, g, fin, env, st, st1, m);
    k, m' := 0, m;
    match d.init
    case None =>
      InvDeclare(cx, g, fin, env, st2, Local(d.name, ptr, d.ty), VUndef, m);
    case Some(e) =>
      if EvalExpr(cx.fo, cx.structs, env, e).Done? && HasType(cx.structs, EvalExpr(cx.fo, cx.structs, env, e).value.0, d.ty) {
        k, m' := SimInit(cx, g, fin, st1, ptr, d, e, env, m);
        KeptSmaller(fin, st.nextId, st1.nextId, m, m');
      }
  }

  lemma {:induction false} InvSameLocals(cx: Cx, g: Globals, fin: St, env: Env, st: St, st': St, m: Mach)
    requires Inv(cx, g, fin, env, st, m) && st'.locals == st.locals
    ensures Inv(cx, g, fin, env, st', m)
  {
  }

  lemma {:induction false} SimInit(cx: Cx, g: Globals, fin: St, st: St, ptr: Id, d: VarDecl, e: Expr, env: Env, m: Mach)
    returns (k: nat, m': Mach)
    requires Finished(cx, g, fin) && Good(st) && st.open.Some? && EmitInit(g, st, ptr, Some(e)).Ok?
    requires Within(EmitInit(g, st, ptr, Some(e)).value, fin) && Inv(cx, g, fin, env, st, m)
    requires Var(ptr, d.ty) in fin.vars && forall j :: 0 <= j < |st.locals| ==> st.locals[j].ptr != ptr
    requires EvalExpr(cx.fo, cx.structs, env, e).Done? && HasType(cx.structs, EvalExpr(cx.fo, cx.structs, env, e).value.0, d.ty)
    ensures var st' := EmitInit(g, st, ptr, Some(e)).value; var (v, env1) := EvalExpr(cx.fo, cx.structs, env, e).value;
      && Steps(cx, At(fin, st, m), k) == At(fin, st', m') && Kept(fin, st.nextId, m, m')
      && Inv(cx, g, fin, env1 + [Binding(d.name, d.ty, v)], st'.(locals := st'.locals + [Local(d.name, ptr, d.ty)]), m')
  {
    hide Good, Agree, EnvTyped, ProgramOf, StepConfig, EmitExpr, EvalExpr, HasType, Within, Ready;
    var (st1, x) := EmitExpr(g, st, e).value;
    EmitExprGood(g, st, e);
    var i := OpStore(ptr, x.id);
    var st2 := Push(st1, i).value;
    PushGood(st1, i);
    WithinExtends(st1, st2, fin);
    var (v, env1) := EvalExpr(cx.fo, cx.structs, env, e).value;
    var k1, m1 := SimExpr(cx, g, fin, st, e, env, m);
    m' := RunStoreFresh(cx, g, fin, st1, i, env1, Var(ptr, d.ty), m1, v);
    k := k1 + 1;
    Then(cx, g, fin, st, m, k1, st1, m1, 1, st2, m');
    MatchesSelf(v);
    InvDeclare(cx, g, fin, env1, st2, Local(d.name, ptr, d.ty), v, m');
  }

  lemma {:induction false} SimUpdate(
    cx: Cx, g: Globals, fin: St, st: St, update: Expr, env: Env, m: Mach, header: Id)
    returns (k: nat, m': Mach)
    requires Finished(cx, g, fin) && Good(st) && st.open.Some? && EmitUpdate(g, st, Some(update)).Ok?
    requires Close(EmitUpdate(g, st, Some(update)).value, OpBranch(header)).Ok?
    requires Within(Close(EmitUpdate(g, st, Some(update)).value, OpBranch(header)).value, fin)
    requires Inv(cx, g, fin, env, st, m) && EvalExpr(cx.fo, cx.structs, env, update).Done?
    ensures var env1 := EvalExpr(cx.fo, cx.structs, env, update).value.1;
      && Steps(cx, At(fin, st, m), k) == Jump(cx, header, m') && Kept(fin, st.nextId, m, m')
      && Inv(cx, g, fin, env1, st, m')
  {
    hide Good, Agree, EnvTyped, ProgramOf, StepConfig, EmitExpr, EvalExpr, HasType, Within, Ready;
    var (st1, x) := EmitExpr(g, st, update).value;
    EmitExprGood(g, st, update);
    CloseGood(st1, OpBranch(header));
    WithinBefore(st1, Close(st1, OpBranch(header)).value, fin, {});
    var k1, m1 := SimExpr(cx, g, fin, st, update, env, m);
    var env1 := EvalExpr(cx.fo, cx.structs, env, update).value.1;
    RunBranch(cx, g, fin, st1, header, m1);
    StepsAdd(cx, At(fin, st, m), k1, 1);
    k, m' := k1 + 1, m1;
    InvSameLocals(cx, g, fin, env1, st1, st, m');
  }

  // --- blocks ---

  /** Leaving the scope of an arm that was emitted from `st` to `st'`. */
  lemma {:induction false} InvLeaveArm(
    cx: Cx, g: Globals, fin: St, env: Env, inner: Env, names: set<string>, st: St, st': St, stX: St, m: Mach)
    requires Inv(cx, g, fin, inner, st', m) && Deepens(env, inner, names) && Names(env) <= names
    requires AddsNone(st.locals, st'.locals, names) && AddsNone(st.locals, stX.locals, names)
    ensures Inv(cx, g, fin, Leave(inner, |env|), stX, m)
  {
    hide Inv, LookupEnv, LookupLocal;
    var env' := Leave(inner, |env|);
    forall i, j | 0 <= i < |env| <= j < |inner| ensures inner[i].name != inner[j].name {
      assert inner[..|env|][i].name == env[i].name;
      assert env[i].name in Names(env);
    }
    InvLeave(cx, g, fin, inner, |env|, st', m);
    SameNamesSet(env, env');
    InvLocals(cx, g, fin, env', st, st', m, names);
    InvLocals(cx, g, fin, env', st, stX, m, names);
  }

  /** The states an arm passes through are part of the finished emission. */
  lemma {:induction false} ArmWithin(g: Globals, fin: St, st: St, l: Id, ss: seq<Stmt>, exit: Id)
    requires Good(st) && EmitArm(g, st, l, ss, exit).Ok? && Within(EmitArm(g, st, l, ss, exit).value, fin)
    requires l < st.nextId && Unused(st, l)
    ensures var st1 := Begin(st, l).value; var st2 := EmitStmts(g, st1, ss).value;
      && Begin(st, l).Ok? && EmitStmts(g, st1, ss).Ok? && Good(st1) && Within(st1, fin)
      && Good(st2) && Within(st2, fin)
      && EmitArm(g, st, l, ss, exit) == BranchIfOpen(st2, exit)
  {
    hide Good, Within;
    var st1 := Begin(st, l).value;
    BeginGood(st, l);
    var st2 := EmitStmts(g, st1, ss).value;
    EmitStmtsGood(g, st1, ss);
    BranchIfOpenGood(st2, exit);
    WithinBefore(st2, BranchIfOpen(st2, exit).value, fin, {});
    WithinBefore(st1, st2, fin, {});
  }

  /** An arm, entered by a jump to its label, continues at `stX`, the state that begins its exit block. */
  lemma {:induction false} SimArm(
    cx: Cx, g: Globals, fin: St, st: St, l: Id, ss: seq<Stmt>, exit: Id, stX: St, names: set<string>, fuel: nat, env: Env, m: Mach)
    returns (k: nat, m': Mach)
    requires Finished(cx, g, fin) && Good(st) && EmitArm(g, st, l, ss, exit).Ok? && |st.done| > 0
    requires Within(EmitArm(g, st, l, ss, exit).value, fin) && l < st.nextId && Unused(st, l)
    requires Within(stX, fin) && stX.open == Some(BasicBlock(exit, [])) && |stX.done| > 0
    requires AddsNone(st.locals, stX.locals, names)
    requires Inv(cx, g, fin, env, st, m) && Names(env) <= names && ScopedAll(ss, names, {})
    ensures var o := LeaveScope(ExecStmts(cx.fo, cx.structs, g.outTy, fuel, env, ss), |env|);
      Mirrors(cx, g, fin, fuel, Jump(cx, l, m), st.nextId, m, o, stX, k, m')
    decreases fuel, ss, 1
  {
    hide Good, Inv, Kept, Within, ProgramOf, Steps, At, Unused, StepConfig, Jump, EmitStmts, ExecStmts;
    ArmWithin(g, fin, st, l, ss, exit);
    var st1 := Begin(st, l).value;
    var st2 := EmitStmts(g, st1, ss).value;
    Arrive(cx, g, fin, st1, m);
    InvSameLocals(cx, g, fin, env, st, st1, m);
    k, m' := SimStmts(cx, g, fin, st1, ss, names, {}, fuel, env, m);
    var o := ExecStmts(cx.fo, cx.structs, g.outTy, fuel, env, ss);
    if o.Normal? {
      EmitAllAddsNone(g, st1, ss, names, {});
      InvTyped(cx, g, fin, env, st, m);
      ExecAllDeepens(cx.fo, cx.structs, g.outTy, fuel, env, ss, names, {});
      InvLeaveArm(cx, g, fin, env, o.env, names, st1, st2, stX, m');
      RunBranch(cx, g, fin, st2, exit, m');
      Arrive(cx, g, fin, stX, m');
      StepsAdd(cx, Jump(cx, l, m), k, 1);
      k := k + 1;
    }
  }

  lemma {:induction false} InvTyped(cx: Cx, g: Globals, fin: St, env: Env, st: St, m: Mach)
    requires Inv(cx, g, fin, env, st, m)
    ensures EnvTyped(cx.structs, env) && Ready(cx, g, fin, m)
  {
  }

  lemma {:induction false} SimStmts(
    cx: Cx, g: Globals, fin: St, st: St, ss: seq<Stmt>, outer: set<string>, here: set<string>, fuel: nat, env: Env, m: Mach)
    returns (k: nat, m': Mach)
    requires Finished(cx, g, fin) && Good(st) && st.open.Some? && EmitStmts(g, st, ss).Ok?
    requires Within(EmitStmts(g, st, ss).value, fin) && Inv(cx, g, fin, env, st, m)
    requires ScopedAll(ss, outer, here) && Names(env) <= outer + here
    ensures var st' := EmitStmts(g, st, ss).value; var o := ExecStmts(cx.fo, cx.structs, g.outTy, fuel, env, ss);
      && Mirrors(cx, g, fin, fuel, At(fin, st, m), st.nextId, m, o, st', k, m')
      && (o.Normal? ==> st'.open.Some?)
    decreases fuel, ss, 0
  {
    hide Good, Inv, Kept, Within, ProgramOf, StepConfig, At, EmitStmt, ExecStmt, Scoped;
    k, m' := 0, m;
    if ss == [] {
      KeptSelf(fin, st.nextId, m);
    } else {
      var st1 := EmitStmt(g, st, ss[0]).value;
      EmitStmtGood(g, st, ss[0]);
      if st1.open.Some? {
        EmitStmtsGood(g, st1, ss[1..]);
        WithinBefore(st1, EmitStmts(g, st, ss).value, fin, {});
      }
      k, m' := SimStmt(cx, g, fin, st, ss[0], outer, here, fuel, env, m);
      var o := ExecStmt(cx.fo, cx.structs, g.outTy, fuel, env, ss[0]);
      if o.Normal? {
        InvTyped(cx, g, fin, env, st, m);
        ExecDeepens(cx.fo, cx.structs, g.outTy, fuel, env, ss[0], outer, here);
        GrowsNextId(st, st1, {});
        var k1, m1 := k, m';
        var k2, m2 := SimStmts(cx, g, fin, st1, ss[1..], outer, here + Declared(ss[0]), fuel, o.env, m1);
        k, m' := k1 + k2, m2;
        Prepend(cx, g, fin, fuel, At(fin, st, m), st.nextId, m, k1, fuel, At(fin, st1, m1), st1.nextId, m1,
                ExecStmts(cx.fo, cx.structs, g.outTy, fuel, env, ss), EmitStmts(g, st, ss).value, k2, m2);
      }
    }
  }

  lemma {:induction false} KeptSelf(fin: St, limit: Id, m: Mach)
    ensures Kept(fin, limit, m, m)
  {
  }

  lemma {:induction false} SimStmt(
    cx: Cx, g: Globals, fin: St, st: St, s: Stmt, outer: set<string>, here: set<string>, fuel: nat, env: Env, m: Mach)
    returns (k: nat, m': Mach)
    requires Finished(cx, g, fin) && Good(st) && st.open.Some? && EmitStmt(g, st, s).Ok?
    requires Within(EmitStmt(g, st, s).value, fin) && Inv(cx, g, fin, env, st, m)
    requires Scoped(s, outer, here) && Names(env) <= outer + here
    ensures var st' := EmitStmt(g, st, s).value; var o := ExecStmt(cx.fo, cx.structs, g.outTy, fuel, env, s);
      && Mirrors(cx, g, fin, fuel, At(fin, st, m), st.nextId, m, o, st', k, m')
      && (o.Normal? ==> st'.open.Some?)
    decreases fuel, s, 5
  {
    hide Good, Inv, Kept, Within, ProgramOf, StepConfig, At, Steps;
    match s
    case Return(value) => k, m' := SimReturn(cx, g, fin, st, value, fuel, env, m);
    case Decl(d) => k, m' := SimDecl(cx, g, fin, st, d, fuel, env, m);
    case ExprStmt(e) =>
      k, m' := 0, m;
      if EvalExpr(cx.fo, cx.structs, env, e).Done? {
        EmitExprGood(g, st, e);
        k, m' := SimExpr(cx, g, fin, st, e, env, m);
      }
    case If(_, _, _) => k, m' := SimIf(cx, g, fin, st, s, outer, here, fuel, env, m);
    case For(_, _, _, _) => k, m' := SimFor(cx, g, fin, st, s, outer, here, fuel, env, m);
    case Nested(b) => k, m' := SimNested(cx, g, fin, st, b, outer, here, fuel, env, m);
  }

  lemma {:induction false} SimNested(
    cx: Cx, g: Globals, fin: St, st: St, b: Block, outer: set<string>, here: set<string>, fuel: nat, env: Env, m: Mach)
    returns (k: nat, m': Mach)
    requires Finished(cx, g, fin) && Good(st) && st.open.Some? && EmitStmts(g, st, b.stmts).Ok?
    requires Within(EmitStmts(g, st, b.stmts).value, fin) && Inv(cx, g, fin, env, st, m)
    requires ScopedAll(b.stmts, outer + here, {}) && Names(env) <= outer + here
    ensures var st' := EmitStmts(g, st, b.stmts).value;
      var o := LeaveScope(ExecStmts(cx.fo, cx.structs, g.outTy, fuel, env, b.stmts), |env|);
      && Mirrors(cx, g, fin, fuel, At(fin, st, m), st.nextId, m, o, st', k, m')
      && (o.Normal? ==> st'.open.Some?)
    decreases fuel, b.stmts, 1
  {
    hide Good, Inv, Kept, Within, ProgramOf, StepConfig, At, Steps, EmitStmts, ExecStmts;
    k, m' := SimStmts(cx, g, fin, st, b.stmts, outer + here, {}, fuel, env, m);
    var o := ExecStmts(cx.fo, cx.structs, g.outTy, fuel, env, b.stmts);
    if o.Normal? {
      var st' := EmitStmts(g, st, b.stmts).value;
      EmitAllAddsNone(g, st, b.stmts, outer + here, {});
      InvTyped(cx, g, fin, env, st, m);
      ExecAllDeepens(cx.fo, cx.structs, g.outTy, fuel, env, b.stmts, outer + here, {});
      InvLeaveArm(cx, g, fin, env, o.env, outer + here, st, st', st', m');
    }
  }

  /** The intermediate states of an `if`. */
  lemma {:induction false} IfWithin(g: Globals, fin: St, st: St, s: Stmt, names: set<string>)
    returns (st1: St, thenL: Id, st2: St, st3: St)
    requires s.If? && Good(st) && EmitStmt(g, st, s).Ok? && Within(EmitStmt(g, st, s).value, fin)
    requires ScopedAll(s.thenBlock.stmts, names, {})
    requires s.elseBlock.Some? ==> ScopedAll(s.elseBlock.value.stmts, names, {})
    ensures EmitIfHead(g, st, s.cond, s.elseBlock.Some?) == Ok((st1, thenL))
    ensures EmitArm(g, st1, thenL, s.thenBlock.stmts, thenL + 1) == Ok(st2)
    ensures s.elseBlock.Some? ==> EmitArm(g, st2, thenL + 2, s.elseBlock.value.stmts, thenL + 1) == Ok(st3)
    ensures s.elseBlock.None? ==> st3 == st2
    ensures Begin(st3, thenL + 1) == EmitStmt(g, st, s)
    ensures Good(st1) && Within(st1, fin) && Unused(st1, thenL) && thenL < st1.nextId && |st1.done| > 0 && st1.locals == st.locals
    ensures Good(st2) && Within(st2, fin) && AddsNone(st1.locals, st2.locals, names) && |st2.done| > 0
    ensures s.elseBlock.Some? ==> thenL + 2 < st2.nextId && Unused(st2, thenL + 2)
    ensures Good(st3) && Within(st3, fin) && AddsNone(st2.locals, st3.locals, names) && |st3.done| > 0
    ensures st.nextId <= st1.nextId <= st2.nextId
  {
    hide Good, Grows, Unused, Within, AddsNone;
    var hasElse := s.elseBlock.Some?;
    var (a, b) := EmitIfHead(g, st, s.cond, hasElse).value;
    st1, thenL := a, b;
    EmitIfHeadGood(g, st, s.cond, hasElse);
    var mergeL := thenL + 1;
    st2 := EmitArm(g, st1, thenL, s.thenBlock.stmts, mergeL).value;
    EmitArmGood(g, st1, thenL, s.thenBlock.stmts, mergeL);
    UnusedStays(st1, st2, {thenL}, mergeL);
    GrowsNextId(st1, st2, {thenL});
    EmitArmAddsNone(g, st1, thenL, s.thenBlock.stmts, mergeL, names);
    st3 := st2;
    if hasElse {
      UnusedStays(st1, st2, {thenL}, thenL + 2);
      st3 := EmitArm(g, st2, thenL + 2, s.elseBlock.value.stmts, mergeL).value;
      EmitArmGood(g, st2, thenL + 2, s.elseBlock.value.stmts, mergeL);
      UnusedStays(st2, st3, {thenL + 2}, mergeL);
      EmitArmAddsNone(g, st2, thenL + 2, s.elseBlock.value.stmts, mergeL, names);
      GrowsNextId(st2, st3, {thenL + 2});
    } else {
      AddsNoneSelf(st2.locals, names);
    }
    BeginGood(st3, mergeL);
    WithinBefore(st3, Begin(st3, mergeL).value, fin, {mergeL});
    if hasElse {
      WithinBefore(st2, st3, fin, {thenL + 2});
    }
    WithinBefore(st1, st2, fin, {thenL});
  }

  lemma {:induction false} AddsNoneSelf(locals: seq<Local>, names: set<string>)
    ensures AddsNone(locals, locals, names)
  {
  }

  lemma {:induction false} SimIf(
    cx: Cx, g: Globals, fin: St, st: St, s: Stmt, outer: set<string>, here: set<string>, fuel: nat, env: Env, m: Mach)
    returns (k: nat, m': Mach)
    requires s.If? && Finished(cx, g, fin) && Good(st) && st.open.Some? && EmitStmt(g, st, s).Ok?
    requires Within(EmitStmt(g, st, s).value, fin) && Inv(cx, g, fin, env, st, m)
    requires Scoped(s, outer, here) && Names(env) <= outer + here
    ensures var st' := EmitStmt(g, st, s).value; var o := ExecStmt(cx.fo, cx.structs, g.outTy, fuel, env, s);
      st'.open.Some? && Mirrors(cx, g, fin, fuel, At(fin, st, m), st.nextId, m, o, st', k, m')
    decreases fuel, s, 3
  {
    hide Good, Inv, Kept, Within, ProgramOf, StepConfig, At, Steps, Unused, Jump, EvalCond, ExecStmts, EmitArm,
      EmitIfHead, AddsNone;
    var names := outer + here;
    var st1, thenL, st2, st3 := IfWithin(g, fin, st, s, names);
    var st4 := Begin(st3, thenL + 1).value;
    AddsNoneTrans(st1.locals, st2.locals, st3.locals, names);
    k, m' := 0, m;
    if EvalCond(cx.fo, cx.structs, env, Some(s.cond)).Done? {
      var (b, env1) := EvalCond(cx.fo, cx.structs, env, Some(s.cond)).value;
      InvTyped(cx, g, fin, env, st, m);
      EvalCondKeeps(cx.fo, cx.structs, env, Some(s.cond));
      var k1, m1 := SimIfHead(cx, g, fin, st, s.cond, s.elseBlock.Some?, env, m);
      if b {
        var k2, m2 := SimArm(cx, g, fin, st1, thenL, s.thenBlock.stmts, thenL + 1, st4, names, fuel, env1, m1);
        k, m' := k1 + k2, m2;
        Prepend(cx, g, fin, fuel, At(fin, st, m), st.nextId, m, k1, fuel, Jump(cx, thenL, m1), st1.nextId, m1,
                ExecStmt(cx.fo, cx.structs, g.outTy, fuel, env, s), st4, k2, m2);
      } else if s.elseBlock.Some? {
        InvLocals(cx, g, fin, env1, st1, st2, m1, names);
        var k2, m2 := SimArm(cx, g, fin, st2, thenL + 2, s.elseBlock.value.stmts, thenL + 1, st4, names, fuel, env1, m1);
        k, m' := k1 + k2, m2;
        Prepend(cx, g, fin, fuel, At(fin, st, m), st.nextId, m, k1, fuel, Jump(cx, thenL + 2, m1), st2.nextId, m1,
                ExecStmt(cx.fo, cx.structs, g.outTy, fuel, env, s), st4, k2, m2);
      } else {
        InvLocals(cx, g, fin, env1, st1, st4, m1, names);
        Arrive(cx, g, fin, st4, m1);
        k, m' := k1, m1;
      }
    }
  }

  // --- loops ---

  /** The state that has just begun the header block of a loop. */
  function HeaderSt(st: St): St
    requires st.open.Some?
  {
    var header := st.nextId;
    var st1 := Close(st.(nextId := header + 4), OpBranch(header)).value;
    st1.(open := Some(BasicBlock(header, [])))
  }

  /** The same after the merge declaration. */
  function DeclaredLoopSt(st: St): St
    requires st.open.Some?
  {
    Push(HeaderSt(st), OpLoopMerge(st.nextId + 3, st.nextId + 2)).value
  }

  /** Emission up to and including the body of a loop. */
  lemma {:induction false} LoopHeadWithin(g: Globals, fin: St, st: St, test: Option<Expr>, st1: St)
    requires Good(st) && st.open.Some? && EmitHeader(g, st, test) == Ok(st1) && Within(st1, fin)
    ensures Good(DeclaredLoopSt(st)) && Within(DeclaredLoopSt(st), fin) && Within(HeaderSt(st), fin)
    ensures EmitTest(g, DeclaredLoopSt(st), test, st.nextId + 1, st.nextId + 3) == Ok(st1)
    ensures DeclaredLoopSt(st).locals == HeaderSt(st).locals == st.locals
    ensures |HeaderSt(st).done| > 0 && DeclaredLoopSt(st).nextId == st.nextId + 4
    ensures Within(Close(st.(nextId := st.nextId + 4), OpBranch(st.nextId)).value, fin)
  {
    hide Good, Within, Unused, Grows, Extends, EmitTest;
    var header := st.nextId;
    var stb := st.(nextId := header + 4);
    BumpGood(st, header + 4);
    CloseGood(stb, OpBranch(header));
    var stc := Close(stb, OpBranch(header)).value;
    forall l | header <= l ensures Unused(stc, l) {
      LabelsAboveUnused(st, l);
      ExtendsKeepsUnused(st, stb, l);
      CloseKeepsUnused(stb, OpBranch(header), l);
    }
    BeginGood(stc, header);
    var stB := HeaderSt(st);
    PushMarkGood(stB, OpLoopMerge(header + 3, header + 2));
    var stP := DeclaredLoopSt(st);
    EmitTestGood(g, stP, test, header + 1, header + 3);
    WithinBefore(stP, st1, fin, {});
    WithinBefore(stB, stP, fin, {});
    WithinBefore(stc, stB, fin, {header});
  }

  lemma {:induction false} LoopWithin(g: Globals, fin: St, st: St, s: Stmt, names: set<string>)
    returns (st1: St, st2: St, st3: St)
    requires s.For? && Good(st) && st.open.Some? && EmitLoop(g, st, s).Ok? && Within(EmitLoop(g, st, s).value, fin)
    requires ScopedAll(s.body.stmts, names, {})
    ensures EmitHeader(g, st, s.test) == Ok(st1) && EmitArm(g, st1, st.nextId + 1, s.body.stmts, st.nextId + 2) == Ok(st2)
    ensures EmitContinue(g, st2, s.update, st.nextId, st.nextId + 2) == Ok(st3) && Begin(st3, st.nextId + 3) == EmitLoop(g, st, s)
    ensures Good(st1) && Within(st1, fin) && st1.nextId >= st.nextId + 4 && |st1.done| > 0 && st1.locals == st.locals
    ensures Unused(st1, st.nextId + 1)
    ensures Within(st2, fin) && AddsNone(st.locals, st2.locals, names) && |st2.done| > 0 && st2.nextId >= st1.nextId
    ensures Good(Begin(st2, st.nextId + 2).value) && Within(Begin(st2, st.nextId + 2).value, fin)
    ensures Within(st3, fin) && |st3.done| > 0 && st3.locals == st2.locals
  {
    hide Good, Grows, Unused, Within, EmitHeader, EmitArm, EmitContinue, AddsNone;
    var header := st.nextId;
    st1 := EmitHeader(g, st, s.test).value;
    EmitHeaderGood(g, st, s.test);
    st2 := EmitArm(g, st1, header + 1, s.body.stmts, header + 2).value;
    EmitArmGood(g, st1, header + 1, s.body.stmts, header + 2);
    EmitArmAddsNone(g, st1, header + 1, s.body.stmts, header + 2, names);
    UnusedStays(st1, st2, {header + 1}, header + 2);
    UnusedStays(st1, st2, {header + 1}, header + 3);
    GrowsNextId(st1, st2, {header + 1});
    st3 := EmitContinue(g, st2, s.update, header, header + 2).value;
    EmitContinueGood(g, st2, s.update, header, header + 2);
    UnusedStays(st2, st3, {header + 2}, header + 3);
    GrowsNextId(st2, st3, {header + 2});
    BeginGood(st3, header + 3);
    WithinBefore(st3, EmitLoop(g, st, s).value, fin, {header + 3});
    WithinBefore(st2, st3, fin, {header + 2});
    WithinBefore(st1, st2, fin, {header + 1});
    ContinueWithin(g, fin, st2, s.update, header, header + 2);
  }

  lemma {:induction false} ContinueWithin(g: Globals, fin: St, st: St, update: Option<Expr>, header: Id, cont: Id)
    requires Good(st) && EmitContinue(g, st, update, header, cont).Ok? && cont < st.nextId && Unused(st, cont)
    requires Within(EmitContinue(g, st, update, header, cont).value, fin)
    ensures var st1 := Begin(st, cont).value; Good(st1) && Within(st1, fin)
    ensures EmitContinue(g, st, update, header, cont).value.locals == st.locals
    ensures |EmitContinue(g, st, update, header, cont).value.done| > 0
  {
    hide Good, Unused, Within;
    var st1 := Begin(st, cont).value;
    BeginGood(st, cont);
    EmitUpdateGood(g, st1, update);
    var st2 := EmitUpdate(g, st1, update).value;
    CloseGood(st2, OpBranch(header));
    WithinBefore(st2, Close(st2, OpBranch(header)).value, fin, {});
    WithinExtends(st1, st2, fin);
  }

  /** The continue block runs the update and jumps back. */
  lemma {:induction false} SimContinue(
    cx: Cx, g: Globals, fin: St, st: St, update: Option<Expr>, header: Id, cont: Id, env: Env, m: Mach)
    returns (k: nat, m': Mach)
    requires Finished(cx, g, fin) && EmitContinue(g, st, update, header, cont).Ok?
    requires var stC := Begin(st, cont).value; Good(stC) && Inv(cx, g, fin, env, stC, m)
    requires Within(EmitContinue(g, st, update, header, cont).value, fin)
    requires update.Some? ==> EvalExpr(cx.fo, cx.structs, env, update.value).Done?
    ensures var env1 := match update { case Some(u) => EvalExpr(cx.fo, cx.structs, env, u).value.1 case None => env };
      && Steps(cx, At(fin, Begin(st, cont).value, m), k) == Jump(cx, header, m')
      && Kept(fin, st.nextId, m, m') && Inv(cx, g, fin, env1, Begin(st, cont).value, m')
  {
    hide Good, Inv, Within, ProgramOf, StepConfig, At, Steps, Jump;
    var stC := Begin(st, cont).value;
    if update.Some? {
      k, m' := SimUpdate(cx, g, fin, stC, update.value, env, m, header);
    } else {
      RunBranch(cx, g, fin, stC, header, m);
      k, m' := 1, m;
    }
  }

  /** One test of the loop condition: the merge declaration, the condition, the jump. */
  lemma {:induction false} SimHeader(
    cx: Cx, g: Globals, fin: St, st: St, test: Option<Expr>, st1: St, env: Env, m: Mach)
    returns (k: nat, m': Mach)
    requires Finished(cx, g, fin) && Good(st) && st.open.Some? && EmitHeader(g, st, test) == Ok(st1) && Within(st1, fin)
    requires Inv(cx, g, fin, env, st, m) && EvalCond(cx.fo, cx.structs, env, test).Done?
    ensures var (b, env1) := EvalCond(cx.fo, cx.structs, env, test).value;
      && Steps(cx, Jump(cx, st.nextId, m), k) == Jump(cx, if b then st.nextId + 1 else st.nextId + 3, m')
      && Inv(cx, g, fin, env1, st1, m') && Kept(fin, st.nextId, m, m') && k >= 1
  {
    hide Good, Inv, Within, ProgramOf, StepConfig, Steps, Jump, EvalCond, EmitTest, At;
    LoopHeadWithin(g, fin, st, test, st1);
    var stB, stP := HeaderSt(st), DeclaredLoopSt(st);
    Arrive(cx, g, fin, stB, m);
    RunMark(cx, g, fin, stB, OpLoopMerge(st.nextId + 3, st.nextId + 2), m);
    InvSameLocals(cx, g, fin, env, st, stP, m);
    var k1, m1 := SimTest(cx, g, fin, stP, test, st.nextId + 1, st.nextId + 3, env, m);
    StepsAdd(cx, Jump(cx, st.nextId, m), 1, k1);
    k, m' := 1 + k1, m1;
    KeptSmaller(fin, st.nextId, stP.nextId, m, m');
  }

  /** A loop, entered by a jump to its header. */
  lemma {:induction false} SimLoop(
    cx: Cx, g: Globals, fin: St, st: St, s: Stmt, names: set<string>, fuel: nat, env: Env, m: Mach)
    returns (k: nat, m': Mach)
    requires s.For? && Finished(cx, g, fin) && Good(st) && st.open.Some? && EmitLoop(g, st, s).Ok?
    requires Within(EmitLoop(g, st, s).value, fin) && Inv(cx, g, fin, env, st, m)
    requires ScopedAll(s.body.stmts, names, {}) && Names(env) <= names
    ensures var o := ExecLoop(cx.fo, cx.structs, g.outTy, fuel, env, s);
      Mirrors(cx, g, fin, fuel, Jump(cx, st.nextId, m), st.nextId, m, o, EmitLoop(g, st, s).value, k, m')
    decreases fuel, s, 2
  {
    hide Good, Inv, Kept, Within, ProgramOf, StepConfig, At, Steps, Unused, Jump, EvalCond, ExecStmts, EmitArm, EmitHeader,
      EmitContinue, AddsNone, ScopedAll, Mirrors;
    var st1, st2, st3 := LoopWithin(g, fin, st, s, names);
    k, m' := 0, m;
    var o := ExecLoop(cx.fo, cx.structs, g.outTy, fuel, env, s);
    if fuel == 0 {
      LoopOutOfFuel(cx, g, fin, st, s, st1, m);
    } else if EvalCond(cx.fo, cx.structs, env, s.test).Fault? {
      StuckMirrors(cx, g, fin, fuel, Jump(cx, st.nextId, m), st.nextId, m, EmitLoop(g, st, s).value, k, m', o.trap);
    } else {
      var (b, env1) := EvalCond(cx.fo, cx.structs, env, s.test).value;
      InvTyped(cx, g, fin, env, st, m);
      EvalCondKeeps(cx.fo, cx.structs, env, s.test);
      var k1, m1 := SimHeader(cx, g, fin, st, s.test, st1, env, m);
      if !b {
        InvLocals(cx, g, fin, env1, st1, EmitLoop(g, st, s).value, m1, names);
        Arrive(cx, g, fin, EmitLoop(g, st, s).value, m1);
        k, m' := k1, m1;
        NormalMirrors(cx, g, fin, fuel, Jump(cx, st.nextId, m), st.nextId, m, env1, EmitLoop(g, st, s).value, k, m');
      } else {
        var k2, m2 := SimIteration(cx, g, fin, st, s, names, fuel, env, env1, m1, st1, st2, st3);
        k, m' := k1 + k2, m2;
        Prepend(cx, g, fin, fuel, Jump(cx, st.nextId, m), st.nextId, m, k1, fuel - 1, Jump(cx, st.nextId + 1, m1), st.nextId, m1,
                o, EmitLoop(g, st, s).value, k2, m2);
      }
    }
  }

  lemma {:induction false} LoopOutOfFuel(cx: Cx, g: Globals, fin: St, st: St, s: Stmt, st1: St, m: Mach)
    requires s.For? && Finished(cx, g, fin) && Good(st) && st.open.Some? && EmitLoop(g, st, s).Ok?
    requires EmitHeader(g, st, s.test) == Ok(st1) && Within(st1, fin)
    ensures Mirrors(cx, g, fin, 0, Jump(cx, st.nextId, m), st.nextId, m, Timeout, EmitLoop(g, st, s).value, 0, m)
  {
    hide Good, Within, ProgramOf, Jump;
    LoopHeadWithin(g, fin, st, s.test, st1);
    Arrive(cx, g, fin, HeaderSt(st), m);
  }

  lemma {:induction false} StuckMirrors(
    cx: Cx, g: Globals, fin: St, fuel: nat, c: Config, limit: Id, m: Mach, stE: St, k: nat, m': Mach, trap: Trap)
    ensures Mirrors(cx, g, fin, fuel, c, limit, m, Stuck(trap), stE, k, m')
  {
  }

  lemma {:induction false} NormalMirrors(
    cx: Cx, g: Globals, fin: St, fuel: nat, c: Config, limit: Id, m: Mach, env: Env, stE: St, k: nat, m': Mach)
    requires Steps(cx, c, k) == At(fin, stE, m') && Inv(cx, g, fin, env, stE, m') && Kept(fin, limit, m, m')
    ensures Mirrors(cx, g, fin, fuel, c, limit, m, Normal(env), stE, k, m')
  {
  }

  lemma {:induction false} MirrorsNormal(
    cx: Cx, g: Globals, fin: St, fuel: nat, c: Config, limit: Id, m: Mach, o: Outcome, stE: St, k: nat, m': Mach)
    requires Mirrors(cx, g, fin, fuel, c, limit, m, o, stE, k, m') && o.Normal?
    ensures Steps(cx, c, k) == At(fin, stE, m') && Inv(cx, g, fin, o.env, stE, m') && Kept(fin, limit, m, m')
  {
  }

  /** Where an outcome is not normal completion, its destination does not matter. */
  lemma {:induction false} MirrorsElsewhere(
    cx: Cx, g: Globals, fin: St, fuel: nat, c: Config, limit: Id, m: Mach, o: Outcome, stE: St, stF: St, limit': Id, k: nat, m': Mach)
    requires Mirrors(cx, g, fin, fuel, c, limit, m, o, stE, k, m') && !o.Normal?
    ensures Mirrors(cx, g, fin, fuel, c, limit', m, o, stF, k, m')
  {
  }

  /** What is left of a loop when its condition has just been found true. */
  ghost function RestOfLoop(fo: FloatOps, structs: Structs, outTy: Type, fuel: nat, env1: Env, s: Stmt): Outcome
    requires s.For?
  {
    match LeaveScope(ExecStmts(fo, structs, outTy, fuel, env1, s.body.stmts), |env1|)
    case Normal(env2) => (
      match s.update
      case None => ExecLoop(fo, structs, outTy, fuel, env2, s)
      case Some(u) =>
        match EvalExpr(fo, structs, env2, u)
        case Fault(t) => Stuck(t)
        case Done((_, env3)) => ExecLoop(fo, structs, outTy, fuel, env3, s))
    case o => o
  }

  /** The body, the update, and the loop again. */
  lemma {:induction false} SimIteration(
    cx: Cx, g: Globals, fin: St, st: St, s: Stmt, names: set<string>, fuel: nat, env: Env, env1: Env, m1: Mach,
    st1: St, st2: St, st3: St)
    returns (k: nat, m': Mach)
    requires s.For? && Finished(cx, g, fin) && Good(st) && st.open.Some? && EmitLoop(g, st, s).Ok?
    requires Within(EmitLoop(g, st, s).value, fin)
    requires ScopedAll(s.body.stmts, names, {}) && Names(env1) <= names && EnvTyped(cx.structs, env1)
    requires fuel > 0 && |env| == |env1|
    requires EmitHeader(g, st, s.test) == Ok(st1) && EmitArm(g, st1, st.nextId + 1, s.body.stmts, st.nextId + 2) == Ok(st2)
    requires EmitContinue(g, st2, s.update, st.nextId, st.nextId + 2) == Ok(st3)
    requires Good(st1) && Within(st1, fin) && st1.nextId >= st.nextId + 4 && |st1.done| > 0 && st1.locals == st.locals
    requires Unused(st1, st.nextId + 1) && Inv(cx, g, fin, env1, st1, m1)
    requires Within(st2, fin) && AddsNone(st.locals, st2.locals, names) && |st2.done| > 0 && st2.nextId >= st1.nextId
    requires Good(Begin(st2, st.nextId + 2).value) && Within(Begin(st2, st.nextId + 2).value, fin) && Within(st3, fin)
    ensures Mirrors(cx, g, fin, fuel - 1, Jump(cx, st.nextId + 1, m1), st.nextId, m1,
                    RestOfLoop(cx.fo, cx.structs, g.outTy, fuel - 1, env1, s), EmitLoop(g, st, s).value, k, m')
    decreases fuel, s, 1
  {
    hide Good, Inv, Kept, Within, ProgramOf, StepConfig, At, Steps, Unused, Jump, EvalCond, ExecStmts, EmitArm, EmitHeader,
      AddsNone, ScopedAll, Mirrors, EmitLoop, ExecLoop, Deepens, EnvTyped, Names, EvalExpr, EmitUpdate;
    var c := Jump(cx, st.nextId + 1, m1);
    var stC := Begin(st2, st.nextId + 2).value;
    var body := ExecStmts(cx.fo, cx.structs, g.outTy, fuel - 1, env1, s.body.stmts);
    var k2, m2 := SimArm(cx, g, fin, st1, st.nextId + 1, s.body.stmts, st.nextId + 2, stC, names, fuel - 1, env1, m1);
    k, m' := k2, m2;
    var o := RestOfLoop(cx.fo, cx.structs, g.outTy, fuel - 1, env1, s);
    if !body.Normal? {
      MirrorsElsewhere(cx, g, fin, fuel - 1, c, st1.nextId, m1, o, stC, EmitLoop(g, st, s).value, st.nextId, k, m');
    } else {
      var env2 := Leave(body.env, |env1|);
      MirrorsNormal(cx, g, fin, fuel - 1, c, st1.nextId, m1, Normal(env2), stC, k2, m2);
      BodyKeeps(cx.fo, cx.structs, g.outTy, fuel - 1, env1, s, names);
      if s.update.Some? && EvalExpr(cx.fo, cx.structs, env2, s.update.value).Fault? {
        StuckMirrors(cx, g, fin, fuel - 1, c, st.nextId, m1, EmitLoop(g, st, s).value, k, m', o.trap);
      } else {
        var k3, m3 := SimContinue(cx, g, fin, st2, s.update, st.nextId, st.nextId + 2, env2, m2);
        var env3 := match s.update { case Some(u) => EvalExpr(cx.fo, cx.structs, env2, u).value.1 case None => env2 };
        UpdateKeeps(cx.fo, cx.structs, env2, s.update);
        InvLocals(cx, g, fin, env3, st, stC, m3, names);
        StepsAdd(cx, c, k2, k3);
        KeptSmaller(fin, st.nextId, st1.nextId, m1, m2);
        KeptTrans(fin, st.nextId, st2.nextId, m1, m2, m3);
        var k4, m4 := SimLoop(cx, g, fin, st, s, names, fuel - 1, env3, m3);
        k, m' := k2 + k3 + k4, m4;
        InvTyped(cx, g, fin, env1, st1, m1);
        Prepend(cx, g, fin, fuel - 1, c, st.nextId, m1, k2 + k3, fuel - 1, Jump(cx, st.nextId, m3), st.nextId, m3,
                o, EmitLoop(g, st, s).value, k4, m4);
      }
    }
  }

  lemma {:induction false} BodyKeeps(fo: FloatOps, structs: Structs, outTy: Type, fuel: nat, env: Env, s: Stmt, names: set<string>)
    requires s.For? && EnvTyped(structs, env) && ScopedAll(s.body.stmts, names, {})
    requires ExecStmts(fo, structs, outTy, fuel, env, s.body.stmts).Normal?
    ensures var env' := Leave(ExecStmts(fo, structs, outTy, fuel, env, s.body.stmts).env, |env|);
      Names(env') == Names(env) && EnvTyped(structs, env')
  {
    ExecAllDeepens(fo, structs, outTy, fuel, env, s.body.stmts, names, {});
    LeaveDeepens(structs, env, env, ExecStmts(fo, structs, outTy, fuel, env, s.body.stmts).env, names);
  }

  lemma {:induction false} UpdateKeeps(fo: FloatOps, structs: Structs, env: Env, update: Option<Expr>)
    requires EnvTyped(structs, env) && (update.Some? ==> EvalExpr(fo, structs, env, update.value).Done?)
    ensures var env' := match update { case Some(u) => EvalExpr(fo, structs, env, u).value.1 case None => env };
      Names(env') == Names(env) && EnvTyped(structs, env')
  {
    if update.Some? {
      EvalKeeps(fo, structs, env, update.value);
      SameNamesSet(env, EvalExpr(fo, structs, env, update.value).value.1);
    }
  }

  lemma {:induction false} SimFor(
    cx: Cx, g: Globals, fin: St, st: St, s: Stmt, outer: set<string>, here: set<string>, fuel: nat, env: Env, m: Mach)
    returns (k: nat, m': Mach)
    requires s.For? && Finished(cx, g, fin) && Good(st) && st.open.Some? && EmitStmt(g, st, s).Ok?
    requires Within(EmitStmt(g, st, s).value, fin) && Inv(cx, g, fin, env, st, m)
    requires Scoped(s, outer, here) && Names(env) <= outer + here
    ensures var st' := EmitStmt(g, st, s).value; var o := ExecStmt(cx.fo, cx.structs, g.outTy, fuel, env, s);
      && Mirrors(cx, g, fin, fuel, At(fin, st, m), st.nextId, m, o, st', k, m')
      && (o.Normal? ==> st'.open.Some?)
    decreases fuel, s, 4
  {
    hide Good, Inv, Kept, Within, ProgramOf, StepConfig, At, Steps, Unused, Jump, ExecLoop, AddsNone, Mirrors,
      EmitLoop, ScopedAll, Ready, EnvTyped, Grows;
    var names := outer + here;
    InvTyped(cx, g, fin, env, st, m);
    if s.init.Some? {
      var i := s.init.value;
      var st1 := EmitStmt(g, st, i).value;
      EmitStmtGood(g, st, i);
      if st1.open.Some? {
        EmitLoopGood(g, st1, s);
        WithinBefore(st1, EmitLoop(g, st1, s).value, fin, {});
      }
      var k1, m1 := SimStmt(cx, g, fin, st, i, names, {}, fuel, env, m);
      var o1 := ExecStmt(cx.fo, cx.structs, g.outTy, fuel, env, i);
      k, m' := k1, m1;
      if o1.Normal? {
        MirrorsNormal(cx, g, fin, fuel, At(fin, st, m), st.nextId, m, o1, st1, k1, m1);
        ExecDeepens(cx.fo, cx.structs, g.outTy, fuel, env, i, names, {});
        GrowsNextId(st, st1, {});
        var k2, m2 := SimEnterLoop(cx, g, fin, st1, s, names + Declared(i), fuel, env, o1.env, m1, names);
        k, m' := k1 + k2, m2;
        Prepend(cx, g, fin, fuel, At(fin, st, m), st.nextId, m, k1, fuel, At(fin, st1, m1), st1.nextId, m1,
                ExecStmt(cx.fo, cx.structs, g.outTy, fuel, env, s), EmitStmt(g, st, s).value, k2, m2);
      } else {
        MirrorsElsewhere(cx, g, fin, fuel, At(fin, st, m), st.nextId, m, o1, st1, EmitStmt(g, st, s).value, st.nextId, k, m');
      }
    } else {
      SameNamesDeepens(env, env, names);
      k, m' := SimEnterLoop(cx, g, fin, st, s, names, fuel, env, env, m, names);
    }
  }

  /** From the initialiser into the loop, and out of the scope of the initialiser. */
  lemma {:induction false} SimEnterLoop(
    cx: Cx, g: Globals, fin: St, st: St, s: Stmt, names: set<string>, fuel: nat, env: Env, env1: Env, m: Mach, outer: set<string>)
    returns (k: nat, m': Mach)
    requires s.For? && Finished(cx, g, fin) && Good(st) && st.open.Some? && EmitLoop(g, st, s).Ok?
    requires Within(EmitLoop(g, st, s).value, fin) && Inv(cx, g, fin, env1, st, m)
    requires ScopedAll(s.body.stmts, names, {}) && Names(env1) <= names
    requires Deepens(env, env1, outer) && Names(env) <= outer
    ensures var o := LeaveScope(ExecLoop(cx.fo, cx.structs, g.outTy, fuel, env1, s), |env|);
      && Mirrors(cx, g, fin, fuel, At(fin, st, m), st.nextId, m, o, EmitLoop(g, st, s).value, k, m')
      && EmitLoop(g, st, s).value.open.Some?
    decreases fuel, s, 3
  {
    hide Good, Inv, Kept, Within, ProgramOf, StepConfig, At, Steps, Unused, Jump, ExecLoop, AddsNone, ScopedAll;
    var st1, st2, st3 := LoopWithin(g, fin, st, s, names);
    LoopHeadWithin(g, fin, st, s.test, st1);
    InvTyped(cx, g, fin, env1, st, m);
    var k1, m1 := SimLoop(cx, g, fin, st, s, names, fuel, env1, m);
    RunBranch(cx, g, fin, st.(nextId := st.nextId + 4), st.nextId, m);
    AtSame(fin, st, st.(nextId := st.nextId + 4), m);
    KeptSelf(fin, st.nextId, m);
    var o := ExecLoop(cx.fo, cx.structs, g.outTy, fuel, env1, s);
    var st' := EmitLoop(g, st, s).value;
    Prepend(cx, g, fin, fuel, At(fin, st, m), st.nextId, m, 1, fuel, Jump(cx, st.nextId, m), st.nextId, m, o, st', k1, m1);
    k, m' := 1 + k1, m1;
    if o.Normal? {
      ExecLoopDeepens(cx.fo, cx.structs, g.outTy, fuel, env1, s, names);
      LeaveLoop(cx, g, fin, env, env1, o.env, outer, st', m');
    }
  }

  lemma {:induction false} AtSame(fin: St, st: St, st': St, m: Mach)
    requires st'.done == st.done && st'.open == st.open
    ensures At(fin, st', m) == At(fin, st, m)
  {
  }

  lemma {:induction false} LeaveLoop(
    cx: Cx, g: Globals, fin: St, env: Env, env1: Env, env2: Env, outer: set<string>, st: St, m: Mach)
    requires Inv(cx, g, fin, env2, st, m) && Deepens(env, env1, outer) && Names(env) <= outer && SameNames(env1, env2)
    ensures Inv(cx, g, fin, Leave(env2, |env|), st, m)
  {
    hide Inv;
    forall i, j | 0 <= i < |env| <= j < |env2| ensures env2[i].name != env2[j].name {
      assert env1[..|env|][i].name == env[i].name;
      assert env[i].name in Names(env);
    }
    InvLeave(cx, g, fin, env2, |env|, st, m);
  }
}
