/** Running the blocks emitted for statements follows the structured execution, step by step. */
module StmtPreservation {
  import opened Wrappers
  import opened Ast
  import opened Values
  import opened HlslSemantics
  import opened SpirvMachine
  import opened EmitterSpec
  import opened EmitterFacts
  import opened Scoping
  import opened ExprPreservation

  // --- scoping ---

  /** Names a statement declares in the scope it stands in. */
  function Declared(s: Stmt): set<string> {
    if s.Decl? then {s.decl.name} else {}
  }

  /** No declaration re-uses a name of an enclosing scope. `outer` are the names of the enclosing scopes,
      `here` those declared so far in the current one. */
  predicate Scoped(s: Stmt, outer: set<string>, here: set<string>)
    decreases s, 1
  {
    match s
    case Decl(d) => d.name !in outer
    case If(_, thenBlock, elseBlock) =>
      && ScopedAll(thenBlock.stmts, outer + here, {})
      && (match elseBlock { case Some(b) => ScopedAll(b.stmts, outer + here, {}) case None => true })
    case For(init, _, _, body) => (
      match init
      case Some(i) =>
        Scoped(i, outer + here, {}) && ScopedAll(body.stmts, outer + here + Declared(i), {})
      case None => ScopedAll(body.stmts, outer + here, {}))
    case Nested(b) => ScopedAll(b.stmts, outer + here, {})
    case _ => true
  }

  predicate ScopedAll(ss: seq<Stmt>, outer: set<string>, here: set<string>)
    decreases ss, 0
  {
    ss == [] || (Scoped(ss[0], outer, here) && ScopedAll(ss[1..], outer, here + Declared(ss[0])))
  }

  function Names(env: Env): set<string> {
    set i | 0 <= i < |env| :: env[i].name
  }

  /** `env'` is `env` with new values and, at the end, new bindings whose names are not in `outer`. */
  ghost predicate Deepens(env: Env, env': Env, outer: set<string>) {
    && |env| <= |env'| && SameNames(env, env'[..|env|])
    && forall i :: |env| <= i < |env'| ==> env'[i].name !in outer
  }

  lemma {:induction false} SameNamesDeepens(env: Env, env': Env, outer: set<string>)
    requires SameNames(env, env')
    ensures Deepens(env, env', outer)
  {
    assert env'[..|env|] == env';
  }

  lemma {:induction false} DeepensTrans(a: Env, b: Env, c: Env, outer: set<string>)
    requires Deepens(a, b, outer) && Deepens(b, c, outer)
    ensures Deepens(a, c, outer)
  {
    forall i | |a| <= i < |c| ensures c[i].name !in outer {
      if i < |b| {
        assert c[..|b|][i].name == b[i].name;
      }
    }
    forall i | 0 <= i < |a| ensures c[..|a|][i].name == a[i].name && c[..|a|][i].ty == a[i].ty {
      assert c[..|b|][i].name == b[i].name && c[..|b|][i].ty == b[i].ty;
      assert b[..|a|][i].name == a[i].name && b[..|a|][i].ty == a[i].ty;
    }
  }

  /** Execution of a statement in its scope: outside declarations no binding is added. */
  lemma {:induction false} ExecDeepens(
    fo: FloatOps, structs: Structs, outTy: Type, fuel: nat, env: Env, s: Stmt, outer: set<string>, here: set<string>)
    requires EnvTyped(structs, env) && Scoped(s, outer, here)
    requires ExecStmt(fo, structs, outTy, fuel, env, s).Normal?
    ensures var env' := ExecStmt(fo, structs, outTy, fuel, env, s).env;
      && Deepens(env, env', outer) && EnvTyped(structs, env')
      && Names(env') == Names(env) + Declared(s) && (!s.Decl? ==> |env'| == |env|)
    decreases fuel, s, 2
  {
    hide EnvTyped, Names, Deepens, Leave, EvalExpr, EvalCond;
    var env' := ExecStmt(fo, structs, outTy, fuel, env, s).env;
    match s
    case Return(_) =>
    case Decl(d) => DeclDeepens(fo, structs, outTy, fuel, env, d, outer);
    case ExprStmt(e) =>
      EvalKeeps(fo, structs, env, e);
      SameNamesDeepens(env, env', outer);
      SameNamesSet(env, env');
    case If(cond, thenBlock, elseBlock) =>
      var (b, env1) := EvalCond(fo, structs, env, Some(cond)).value;
      EvalCondKeeps(fo, structs, env, Some(cond));
      if b {
        ExecAllDeepens(fo, structs, outTy, fuel, env1, thenBlock.stmts, outer + here, {});
        LeaveDeepens(structs, env, env1, ExecStmts(fo, structs, outTy, fuel, env1, thenBlock.stmts).env, outer);
      } else if elseBlock.Some? {
        ExecAllDeepens(fo, structs, outTy, fuel, env1, elseBlock.value.stmts, outer + here, {});
        LeaveDeepens(structs, env, env1, ExecStmts(fo, structs, outTy, fuel, env1, elseBlock.value.stmts).env, outer);
      } else {
        SameNamesDeepens(env, env', outer);
        SameNamesSet(env, env');
      }
    case For(_, _, _, _) => ForDeepens(fo, structs, outTy, fuel, env, s, outer, here);
    case Nested(b) =>
      ExecAllDeepens(fo, structs, outTy, fuel, env, b.stmts, outer + here, {});
      LeaveDeepens(structs, env, env, ExecStmts(fo, structs, outTy, fuel, env, b.stmts).env, outer);
  }

  lemma {:induction false} EvalCondKeeps(fo: FloatOps, structs: Structs, env: Env, cond: Option<Expr>)
    requires EnvTyped(structs, env) && EvalCond(fo, structs, env, cond).Done?
    ensures var env1 := EvalCond(fo, structs, env, cond).value.1;
      SameNames(env, env1) && EnvTyped(structs, env1) && Names(env1) == Names(env) && |env1| == |env|
  {
    if cond.Some? {
      EvalKeeps(fo, structs, env, cond.value);
      SameNamesSet(env, EvalCond(fo, structs, env, cond).value.1);
    }
  }

  lemma {:induction false} DeclDeepens(
    fo: FloatOps, structs: Structs, outTy: Type, fuel: nat, env: Env, d: VarDecl, outer: set<string>)
    requires EnvTyped(structs, env) && d.name !in outer && ExecStmt(fo, structs, outTy, fuel, env, Decl(d)).Normal?
    ensures var env' := ExecStmt(fo, structs, outTy, fuel, env, Decl(d)).env;
      Deepens(env, env', outer) && EnvTyped(structs, env') && Names(env') == Names(env) + {d.name}
  {
    hide EvalExpr, Names;
    var env' := ExecStmt(fo, structs, outTy, fuel, env, Decl(d)).env;
    var env1 := env;
    if d.init.Some? {
      EvalKeeps(fo, structs, env, d.init.value);
      env1 := EvalExpr(fo, structs, env, d.init.value).value.1;
    }
    assert env'[..|env|] == env1;
    SameNamesSet(env, env1);
    NamesAppend(env1, env'[|env|]);
  }

  lemma {:induction false} ForDeepens(
    fo: FloatOps, structs: Structs, outTy: Type, fuel: nat, env: Env, s: Stmt, outer: set<string>, here: set<string>)
    requires s.For? && EnvTyped(structs, env) && Scoped(s, outer, here)
    requires ExecStmt(fo, structs, outTy, fuel, env, s).Normal?
    ensures var env' := ExecStmt(fo, structs, outTy, fuel, env, s).env;
      && Deepens(env, env', outer) && EnvTyped(structs, env') && Names(env') == Names(env) && |env'| == |env|
    decreases fuel, s, 1
  {
    hide EnvTyped, Names, EvalExpr, EvalCond, ExecLoop;
    if s.init.Some? {
      ExecDeepens(fo, structs, outTy, fuel, env, s.init.value, outer + here, {});
      var env1 := ExecStmt(fo, structs, outTy, fuel, env, s.init.value).env;
      ExecLoopDeepens(fo, structs, outTy, fuel, env1, s, outer + here + Declared(s.init.value));
      var env2 := ExecLoop(fo, structs, outTy, fuel, env1, s).env;
      LeaveTwice(structs, env, env1, env2, outer + here);
      LeaveDeepens(structs, env, env, env2, outer);
    } else {
      ExecLoopDeepens(fo, structs, outTy, fuel, env, s, outer + here);
      var env2 := ExecLoop(fo, structs, outTy, fuel, env, s).env;
      SameNamesDeepens(env, env2, outer);
      LeaveDeepens(structs, env, env, env2, outer);
    }
  }

  lemma {:induction false} SameNamesSet(env: Env, env': Env)
    requires SameNames(env, env')
    ensures Names(env') == Names(env)
  {
    forall x ensures x in Names(env') <==> x in Names(env) {
      if i :| 0 <= i < |env| && env[i].name == x {
        assert env'[i].name == x;
      }
      if i :| 0 <= i < |env'| && env'[i].name == x {
        assert env[i].name == x;
      }
    }
  }

  lemma {:induction false} NamesAppend(env: Env, b: Binding)
    ensures Names(env + [b]) == Names(env) + {b.name}
  {
    forall x ensures x in Names(env + [b]) <==> x in Names(env) + {b.name} {
      if i :| 0 <= i < |env| && env[i].name == x {
        assert (env + [b])[i].name == x;
      }
      if x == b.name {
        assert (env + [b])[|env|].name == x;
      }
    }
  }

  /** Leaving a scope restores the names and keeps the types. */
  lemma {:induction false} LeaveDeepens(structs: Structs, env: Env, env1: Env, env2: Env, outer: set<string>)
    requires SameNames(env, env1) && EnvTyped(structs, env2)
    requires |env1| <= |env2| && SameNames(env1, env2[..|env1|])
    ensures var env' := Leave(env2, |env|);
      SameNames(env, env') && Deepens(env, env', outer) && EnvTyped(structs, env') && Names(env') == Names(env)
  {
    var env' := Leave(env2, |env|);
    assert env' == env2[..|env1|];
    forall i | 0 <= i < |env| ensures env'[i].name == env[i].name && env'[i].ty == env[i].ty {
      assert env2[..|env1|][i].name == env1[i].name;
    }
    SameNamesDeepens(env, env', outer);
    SameNamesSet(env, env');
  }

  lemma {:induction false} LeaveTwice(structs: Structs, env: Env, env1: Env, env2: Env, outer: set<string>)
    requires Deepens(env, env1, outer) && SameNames(env1, env2)
    ensures |env| <= |env2| && SameNames(env, env2[..|env|])
  {
    forall i | 0 <= i < |env| ensures env2[..|env|][i].name == env[i].name && env2[..|env|][i].ty == env[i].ty {
      assert env1[..|env|][i].name == env[i].name && env1[..|env|][i].ty == env[i].ty;
    }
  }

  lemma {:induction false} ExecLoopDeepens(
    fo: FloatOps, structs: Structs, outTy: Type, fuel: nat, env: Env, s: Stmt, outer: set<string>)
    requires s.For? && EnvTyped(structs, env) && ScopedAll(s.body.stmts, outer, {})
    requires ExecLoop(fo, structs, outTy, fuel, env, s).Normal?
    ensures var env' := ExecLoop(fo, structs, outTy, fuel, env, s).env; SameNames(env, env') && EnvTyped(structs, env')
    decreases fuel, s, 0
  {
    hide EnvTyped, EvalExpr, EvalCond, ExecStmts, Leave, ScopedAll, Deepens;
    var (b, env1) := EvalCond(fo, structs, env, s.test).value;
    EvalCondKeeps(fo, structs, env, s.test);
    if b {
      ExecAllDeepens(fo, structs, outTy, fuel - 1, env1, s.body.stmts, outer, {});
      var inner := ExecStmts(fo, structs, outTy, fuel - 1, env1, s.body.stmts).env;
      LeaveInner(structs, env, env1, inner, outer);
      var env2 := Leave(inner, |env|);
      var env3 := env2;
      if s.update.Some? {
        EvalKeeps(fo, structs, env2, s.update.value);
        env3 := EvalExpr(fo, structs, env2, s.update.value).value.1;
      }
      ExecLoopDeepens(fo, structs, outTy, fuel - 1, env3, s, outer);
    }
  }

  lemma {:induction false} LeaveInner(structs: Structs, env: Env, env1: Env, inner: Env, outer: set<string>)
    requires SameNames(env, env1) && EnvTyped(structs, inner) && Deepens(env1, inner, outer)
    ensures SameNames(env, Leave(inner, |env|)) && EnvTyped(structs, Leave(inner, |env|))
  {
    LeaveDeepens(structs, env, env1, inner, outer);
  }

  lemma {:induction false} ExecAllDeepens(
    fo: FloatOps, structs: Structs, outTy: Type, fuel: nat, env: Env, ss: seq<Stmt>, outer: set<string>, here: set<string>)
    requires EnvTyped(structs, env) && ScopedAll(ss, outer, here)
    requires ExecStmts(fo, structs, outTy, fuel, env, ss).Normal?
    ensures var env' := ExecStmts(fo, structs, outTy, fuel, env, ss).env; Deepens(env, env', outer) && EnvTyped(structs, env')
    decreases fuel, ss, 0
  {
    if ss == [] {
      SameNamesDeepens(env, env, outer);
    } else {
      ExecDeepens(fo, structs, outTy, fuel, env, ss[0], outer, here);
      var env1 := ExecStmt(fo, structs, outTy, fuel, env, ss[0]).env;
      ExecAllDeepens(fo, structs, outTy, fuel, env1, ss[1..], outer, here + Declared(ss[0]));
      DeepensTrans(env, env1, ExecStmts(fo, structs, outTy, fuel, env, ss).env, outer);
    }
  }

  // --- the flat table of locals ---

  /** `locals'` extends `locals` with entries whose names are not in `names`. */
  ghost predicate AddsNone(locals: seq<Local>, locals': seq<Local>, names: set<string>) {
    && locals <= locals'
    && forall i :: |locals| <= i < |locals'| ==> locals'[i].name !in names
  }

  lemma {:induction false} AddsNoneTrans(a: seq<Local>, b: seq<Local>, c: seq<Local>, names: set<string>)
    requires AddsNone(a, b, names) && AddsNone(b, c, names)
    ensures AddsNone(a, c, names)
  {
    forall i | |a| <= i < |c| ensures c[i].name !in names {
      if i < |b| {
        assert c[i] == b[i];
      }
    }
  }

  /** Lookups of those names are unaffected. */
  lemma {:induction false} AddsNoneLookup(locals: seq<Local>, locals': seq<Local>, names: set<string>, x: string)
    requires AddsNone(locals, locals', names) && x in names
    ensures LookupLocal(locals', x) == LookupLocal(locals, x)
    decreases |locals'|
  {
    if |locals'| > |locals| {
      var shorter := locals'[..|locals'| - 1];
      assert AddsNone(locals, shorter, names);
      AddsNoneLookup(locals, shorter, names, x);
      assert locals'[|locals'| - 1].name != x;
    } else {
      assert locals' == locals;
    }
  }

  /** A scoped statement declares no name of an enclosing scope. */
  lemma {:induction false} ScopedDeclares(s: Stmt, outer: set<string>, here: set<string>)
    requires Scoped(s, outer, here)
    ensures DeclaredWithin(s) !! outer
    decreases s, 1
  {
    match s
    case If(_, thenBlock, elseBlock) =>
      ScopedAllDeclare(thenBlock.stmts, outer + here, {});
      if elseBlock.Some? {
        ScopedAllDeclare(elseBlock.value.stmts, outer + here, {});
      }
    case For(init, _, _, body) =>
      if init.Some? {
        ScopedDeclares(init.value, outer + here, {});
        ScopedAllDeclare(body.stmts, outer + here + Declared(init.value), {});
      } else {
        ScopedAllDeclare(body.stmts, outer + here, {});
      }
    case Nested(b) => ScopedAllDeclare(b.stmts, outer + here, {});
    case _ =>
  }

  lemma {:induction false} ScopedAllDeclare(ss: seq<Stmt>, outer: set<string>, here: set<string>)
    requires ScopedAll(ss, outer, here)
    ensures DeclaredIn(ss) !! outer
    decreases ss, 0
  {
    if ss != [] {
      ScopedDeclares(ss[0], outer, here);
      ScopedAllDeclare(ss[1..], outer, here + Declared(ss[0]));
    }
  }

  lemma {:induction false} AddsOthers(locals: seq<Local>, locals': seq<Local>, added: set<string>, names: set<string>)
    requires Adds(locals, locals', added) && added !! names
    ensures AddsNone(locals, locals', names)
  {
    forall i | |locals| <= i < |locals'| ensures locals'[i].name !in names {
      assert locals'[|locals|..][i - |locals|].name in added;
    }
  }

  /** The locals a scope's emission adds never re-use a name of an enclosing scope. */
  lemma {:induction false} EmitAddsNone(g: Globals, st: St, s: Stmt, outer: set<string>, here: set<string>)
    requires EmitStmt(g, st, s).Ok? && Scoped(s, outer, here) && Good(st) && st.open.Some?
    ensures AddsNone(st.locals, EmitStmt(g, st, s).value.locals, outer)
  {
    hide Good, AddsNone, Adds, EmitStmt, Scoped;
    EmitDeclares(g, st, s);
    ScopedDeclares(s, outer, here);
    AddsOthers(st.locals, EmitStmt(g, st, s).value.locals, DeclaredWithin(s), outer);
  }

  lemma {:induction false} EmitArmAddsNone(g: Globals, st: St, l: Id, ss: seq<Stmt>, exit: Id, names: set<string>)
    requires EmitArm(g, st, l, ss, exit).Ok? && Good(st) && l < st.nextId && Unused(st, l) && ScopedAll(ss, names, {})
    ensures AddsNone(st.locals, EmitArm(g, st, l, ss, exit).value.locals, names)
  {
    hide Good, Unused, AddsNone, Adds, EmitArm, ScopedAll;
    EmitArmDeclares(g, st, l, ss, exit);
    ScopedAllDeclare(ss, names, {});
    AddsOthers(st.locals, EmitArm(g, st, l, ss, exit).value.locals, DeclaredIn(ss), names);
  }

  lemma {:induction false} EmitAllAddsNone(g: Globals, st: St, ss: seq<Stmt>, outer: set<string>, here: set<string>)
    requires EmitStmts(g, st, ss).Ok? && ScopedAll(ss, outer, here) && Good(st) && st.open.Some?
    ensures AddsNone(st.locals, EmitStmts(g, st, ss).value.locals, outer)
  {
    hide Good, AddsNone, Adds, EmitStmts, ScopedAll;
    EmitAllDeclares(g, st, ss);
    ScopedAllDeclare(ss, outer, here);
    AddsOthers(st.locals, EmitStmts(g, st, ss).value.locals, DeclaredIn(ss), outer);
  }

  // --- moving the invariant between scopes ---

  /** The visible bindings see the same locals before and after. */
  lemma {:induction false} InvLocals(cx: Cx, g: Globals, fin: St, env: Env, st: St, st': St, m: Mach, names: set<string>)
    requires AddsNone(st.locals, st'.locals, names) && Names(env) <= names
    ensures Inv(cx, g, fin, env, st, m) <==> Inv(cx, g, fin, env, st', m)
  {
    forall x: string | LookupEnv(env, x).Some?
      ensures Backed(env, st.locals, m.mem, x) <==> Backed(env, st'.locals, m.mem, x)
    {
      assert env[LookupEnv(env, x).value].name == x;
      assert x in Names(env);
      AddsNoneLookup(st.locals, st'.locals, names, x);
      if LookupLocal(st.locals, x).Some? {
        assert st'.locals[LookupLocal(st.locals, x).value] == st.locals[LookupLocal(st.locals, x).value];
      }
    }
  }

  lemma {:induction false} LookupLeave(env: Env, n: nat, x: string)
    requires n <= |env| && forall i :: n <= i < |env| ==> env[i].name != x
    ensures LookupEnv(env, x) == LookupEnv(env[..n], x)
    decreases |env|
  {
    if n < |env| {
      LookupLeave(env[..|env| - 1], n, x);
      assert env[..|env| - 1][..n] == env[..n];
    } else {
      assert env[..n] == env;
    }
  }

  /** Dropping inner bindings that shadow nothing keeps the invariant. */
  lemma {:induction false} InvLeave(cx: Cx, g: Globals, fin: St, env: Env, n: nat, st: St, m: Mach)
    requires Inv(cx, g, fin, env, st, m) && n <= |env|
    requires forall i, j :: 0 <= i < n <= j < |env| ==> env[i].name != env[j].name
    ensures Inv(cx, g, fin, Leave(env, n), st, m)
  {
    var env' := Leave(env, n);
    forall x: string | LookupEnv(env', x).Some? ensures Backed(env', st.locals, m.mem, x) {
      assert env'[LookupEnv(env', x).value].name == x;
      LookupLeave(env, n, x);
      assert Backed(env, st.locals, m.mem, x);
    }
  }

  // --- control transfer ---

  lemma {:induction false} FetchClose(cx: Cx, g: Globals, fin: St, st: St, i: Instr)
    requires Finished(cx, g, fin) && Close(st, i).Ok? && Within(Close(st, i).value, fin)
    ensures var b := |st.done|; var pos := Offset(fin, b) + |st.open.value.instrs|;
      b < |cx.prog| && pos < |cx.prog[b].instrs| && cx.prog[b].instrs[pos] == i
  {
    var b := |st.done|;
    var st' := Close(st, i).value;
    assert st'.done[b] == fin.done[b];
    assert BlocksOf(fin) == fin.done;
  }

  /** A jump to a block's label arrives at its start. */
  lemma {:induction false} Arrive(cx: Cx, g: Globals, fin: St, stT: St, m: Mach)
    requires Finished(cx, g, fin) && Within(stT, fin) && |stT.done| > 0
    requires stT.open.Some? && stT.open.value.instrs == []
    ensures Jump(cx, stT.open.value.lbl, m) == At(fin, stT, m)
  {
    var i := |stT.done|;
    assert BlocksOf(fin) == fin.done;
    assert forall k :: 0 <= k < |cx.prog| ==> cx.prog[k].lbl == BlocksOf(fin)[k].lbl;
    assert cx.prog[i].lbl == stT.open.value.lbl;
    FindBlockUnique(cx.prog, i);
  }

  lemma {:induction false} RunBranch(cx: Cx, g: Globals, fin: St, st: St, l: Id, m: Mach)
    requires Finished(cx, g, fin) && Close(st, OpBranch(l)).Ok? && Within(Close(st, OpBranch(l)).value, fin)
    ensures Steps(cx, At(fin, st, m), 1) == Jump(cx, l, m)
  {
    hide Good, ProgramOf, Within, ExecInstr;
    FetchClose(cx, g, fin, st, OpBranch(l));
    StepsOne(cx, At(fin, st, m));
  }

  lemma {:induction false} RunBranchConditional(cx: Cx, g: Globals, fin: St, st: St, i: Instr, m: Mach, b: bool)
    requires Finished(cx, g, fin) && i.OpBranchConditional? && Close(st, i).Ok? && Within(Close(st, i).value, fin)
    requires ValueOf(m, i.cond) == Some(VScalar(EBool(b)))
    ensures Steps(cx, At(fin, st, m), 1) == Jump(cx, if b then i.onTrue else i.onFalse, m)
  {
    hide Good, ProgramOf, Within, ExecInstr;
    FetchClose(cx, g, fin, st, i);
    StepsOne(cx, At(fin, st, m));
  }

  lemma {:induction false} RunReturn(cx: Cx, g: Globals, fin: St, st: St, m: Mach)
    requires Finished(cx, g, fin) && Close(st, OpReturn).Ok? && Within(Close(st, OpReturn).value, fin)
    ensures Steps(cx, At(fin, st, m), 1) == Halted(m)
  {
    hide Good, ProgramOf, Within, ExecInstr;
    FetchClose(cx, g, fin, st, OpReturn);
    StepsOne(cx, At(fin, st, m));
  }

  /** Merge declarations do nothing. */
  lemma {:induction false} RunMark(cx: Cx, g: Globals, fin: St, st: St, i: Instr, m: Mach)
    requires Finished(cx, g, fin) && (i.OpSelectionMerge? || i.OpLoopMerge?) && Push(st, i).Ok?
    requires Within(Push(st, i).value, fin)
    ensures Steps(cx, At(fin, st, m), 1) == At(fin, Push(st, i).value, m)
  {
    Fetch(cx, g, fin, st, Push(st, i).value, i);
    StepsOne(cx, At(fin, st, m));
  }

  /** Store the returned value. */
  lemma {:induction false} RunStoreOut(cx: Cx, g: Globals, fin: St, st: St, i: Instr, m: Mach, v: Value)
    returns (m': Mach)
    requires Finished(cx, g, fin) && g.outVar.Some? && i.OpStore? && i.ptr == g.outVar.value && Push(st, i).Ok?
    requires Within(Push(st, i).value, fin) && Ready(cx, g, fin, m)
    requires ValueOf(m, i.val) == Some(v) && HasType(cx.structs, v, g.outTy)
    ensures Steps(cx, At(fin, st, m), 1) == At(fin, Push(st, i).value, m')
    ensures m' == m.(mem := m.mem[g.outVar.value := v])
  {
    Fetch(cx, g, fin, st, Push(st, i).value, i);
    m' := m.(mem := m.mem[g.outVar.value := v]);
    assert SetPath(m.mem[g.outVar.value], [], v) == v;
    assert ExecInstr(cx, i, m) == Some(m');
    StepsOne(cx, At(fin, st, m));
  }

  /** Initialise a variable that is not in the table of locals yet. */
  lemma {:induction false} RunStoreFresh(cx: Cx, g: Globals, fin: St, st: St, i: Instr, env: Env, v: Var, m: Mach, x: Value)
    returns (m': Mach)
    requires Finished(cx, g, fin) && i.OpStore? && i.ptr == v.id && Push(st, i).Ok? && v in fin.vars
    requires Within(Push(st, i).value, fin) && Inv(cx, g, fin, env, st, m)
    requires forall j :: 0 <= j < |st.locals| ==> st.locals[j].ptr != v.id
    requires ValueOf(m, i.val) == Some(x) && HasType(cx.structs, x, v.ty)
    ensures Steps(cx, At(fin, st, m), 1) == At(fin, Push(st, i).value, m')
    ensures Inv(cx, g, fin, env, Push(st, i).value, m') && Kept(fin, st.nextId, m, m')
    ensures v.id in m'.mem && m'.mem[v.id] == x
  {
    hide LookupEnv, LookupLocal, HasType;
    var st' := Push(st, i).value;
    Fetch(cx, g, fin, st, st', i);
    m' := m.(mem := m.mem[v.id := x]);
    assert SetPath(m.mem[v.id], [], x) == x;
    assert ExecInstr(cx, i, m) == Some(m');
    StepsOne(cx, At(fin, st, m));
    ReadyAfterStore(cx, g, fin, m, v, x);
    forall y: string | LookupEnv(env, y).Some? ensures Backed(env, st'.locals, m'.mem, y) {
      assert Backed(env, st.locals, m.mem, y);
    }
  }

  lemma {:induction false} InvDeclare(cx: Cx, g: Globals, fin: St, env: Env, st: St, l: Local, v: Value, m: Mach)
    requires Inv(cx, g, fin, env, st, m) && HasType(cx.structs, v, l.ty)
    requires l.ptr in m.mem && Matches(v, m.mem[l.ptr])
    ensures Inv(cx, g, fin, env + [Binding(l.name, l.ty, v)], st.(locals := st.locals + [l]), m)
  {
    hide Matches, HasType;
    var env' := env + [Binding(l.name, l.ty, v)];
    var locals' := st.locals + [l];
    assert env'[..|env'| - 1] == env && locals'[..|locals'| - 1] == st.locals;
    forall y: string | LookupEnv(env', y).Some? ensures Backed(env', locals', m.mem, y) {
      if y != l.name {
        assert Backed(env, st.locals, m.mem, y);
      }
    }
  }

  // --- outcomes ---

  /** The output variable holds the returned value, or is untouched when nothing was returned. */
  ghost predicate Output(g: Globals, m: Mach, m': Mach, result: Option<Value>) {
    g.outVar.Some? ==>
      && g.outVar.value in m.mem && g.outVar.value in m'.mem
      && m'.mem[g.outVar.value] == (match result { case Some(v) => v case None => m.mem[g.outVar.value] })
  }

  /** From configuration `c` with state `m`, `k` machine steps match outcome `o` of at most `fuel` loop rounds:
      normal completion arrives where `stE` continues, a return halts the machine, and running out of fuel
      takes at least that many steps. */
  ghost predicate Mirrors(
    cx: Cx, g: Globals, fin: St, fuel: nat, c: Config, limit: Id, m: Mach, o: Outcome, stE: St, k: nat, m': Mach)
  {
    match o
    case Normal(env') =>
      Steps(cx, c, k) == At(fin, stE, m') && Inv(cx, g, fin, env', stE, m') && Kept(fin, limit, m, m')
    case Returned(result) => Steps(cx, c, k) == Halted(m') && Output(g, m, m', result)
    case Timeout => k >= fuel && Steps(cx, c, k).Running?
    case Stuck(_) => true
  }

  lemma {:induction false} OutNotVar(cx: Cx, g: Globals, fin: St)
    requires Finished(cx, g, fin) && g.outVar.Some?
    ensures !IsVar(fin, g.outVar.value)
  {
  }

  /** Steps taken before what is mirrored. */
  lemma {:induction false} Prepend(
    cx: Cx, g: Globals, fin: St, fuel: nat, c0: Config, limit0: Id, m0: Mach, k0: nat,
    fuel1: nat, c1: Config, limit1: Id, m1: Mach, o: Outcome, stE: St, k1: nat, m': Mach)
    requires Finished(cx, g, fin) && Ready(cx, g, fin, m0)
    requires Steps(cx, c0, k0) == c1 && Kept(fin, limit0, m0, m1) && limit0 <= limit1 && fuel <= fuel1 + k0
    requires Mirrors(cx, g, fin, fuel1, c1, limit1, m1, o, stE, k1, m')
    ensures Mirrors(cx, g, fin, fuel, c0, limit0, m0, o, stE, k0 + k1, m')
  {
    StepsAdd(cx, c0, k0, k1);
    if o.Normal? {
      KeptTrans(fin, limit0, limit1, m0, m1, m');
    }
    if g.outVar.Some? {
      OutNotVar(cx, g, fin);
    }
  }
}
