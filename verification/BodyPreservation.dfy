/** The preservation theorem for whole functions: hoisted variables, parameters, body, return. */
module BodyPreservation {
  import opened Wrappers
  import opened Ast
  import opened Values
  import opened HlslSemantics
  import opened SpirvMachine
  import opened EmitterSpec
  import opened EmitterFacts
  import opened ExprPreservation
  import opened StmtPreservation
  import opened StmtSimulation

  // --- a finished body ---

  /** What the module around the function must provide. */
  ghost predicate Interface(g: Globals, entry: Id) {
    && (forall name :: name in g.structs ==> |g.structs[name]| < TWO_32)
    && (g.outVar.Some? ==> g.outVar.value < entry)
    && (forall i :: 0 <= i < |g.inputs| ==> g.inputs[i] < entry)
  }

  lemma {:induction false} EmitParamsOpen(g: Globals, st: St, params: seq<Param>, inputs: seq<Id>)
    requires |params| == |inputs| && st.open.Some? && EmitParams(g, st, params, inputs).Ok?
    ensures var st' := EmitParams(g, st, params, inputs).value; st'.open.Some? && st'.done == st.done
    decreases |params|
  {
    if params != [] {
      var p := params[0];
      var (st1, ptr) := AllocLocal(g, st, p.ty).value;
      var (st2, v) := EmitLoad(g, st1, Val(inputs[0], p.ty)).value;
      var st3 := Push(st2, OpStore(ptr, v.id)).value;
      EmitParamsOpen(g, st3.(locals := st3.locals + [Local(p.name, ptr, p.ty)]), params[1..], inputs[1..]);
    }
  }

  /** A compiled body is closed, and every intermediate state is part of it. */
  lemma {:induction false} BodyGood(g: Globals, entry: Id, params: seq<Param>, body: Block) returns (st1: St, st2: St)
    requires |g.inputs| == |params| && EmitBody(g, entry, params, body).Ok?
    ensures EmitParams(g, EntrySt(entry), params, g.inputs) == Ok(st1) && EmitStmts(g, st1, body.stmts) == Ok(st2)
    ensures var fin := EmitBody(g, entry, params, body).value;
      && Good(fin) && fin.open.None? && fin.first == entry && |fin.done| > 0
      && Good(st1) && st1.open.Some? && Within(st1, fin) && Good(st2) && Within(st2, fin)
      && Within(EntrySt(entry), fin) && Within(fin, fin) && Grows(EntrySt(entry), fin, {})
  {
    hide Good;
    EntryGood(entry);
    var st0 := EntrySt(entry);
    st1 := EmitParams(g, st0, params, g.inputs).value;
    EmitParamsGood(g, st0, params, g.inputs);
    EmitParamsOpen(g, st0, params, g.inputs);
    st2 := EmitStmts(g, st1, body.stmts).value;
    EmitStmtsGood(g, st1, body.stmts);
    var fin := EmitBody(g, entry, params, body).value;
    if st2.open.Some? {
      CloseGood(st2, OpReturn);
    }
    GrowsThen(st0, st1, st2);
    if st2.open.Some? {
      GrowsThen(st0, st2, fin);
      WithinBefore(st2, fin, fin, {});
    }
    WithinBefore(st1, st2, fin, {});
    WithinBefore(st0, st1, fin, {});
  }

  // --- hoisted variables ---

  /** The machine after executing the hoisted declarations. */
  function AfterVars(cx: Cx, vars: seq<Var>, m: Mach): Mach
    decreases |vars|
  {
    if vars == [] then m
    else
      var v := vars[0];
      AfterVars(cx, vars[1..], Mach(m.regs[v.id := RP(Pointer(v.id, [], v.ty))], m.mem[v.id := cx.seed(v.id)]))
  }

  ghost predicate NotAmong(vars: seq<Var>, id: Id) {
    forall v :: v in vars ==> v.id != id
  }

  /** Other ids are untouched. */
  lemma {:induction false} AfterVarsOther(cx: Cx, vars: seq<Var>, m: Mach, id: Id)
    requires NotAmong(vars, id)
    ensures var m' := AfterVars(cx, vars, m);
      && (id in m.regs ==> id in m'.regs && m'.regs[id] == m.regs[id])
      && (id in m.mem ==> id in m'.mem && m'.mem[id] == m.mem[id])
    decreases |vars|
  {
    if vars != [] {
      var v := vars[0];
      AfterVarsOther(cx, vars[1..], Mach(m.regs[v.id := RP(Pointer(v.id, [], v.ty))], m.mem[v.id := cx.seed(v.id)]), id);
    }
  }

  lemma {:induction false} AfterVarsSelf(cx: Cx, vars: seq<Var>, m: Mach, i: nat)
    requires i < |vars| && forall j, k :: 0 <= j < k < |vars| ==> vars[j].id != vars[k].id
    ensures var m' := AfterVars(cx, vars, m); var v := vars[i];
      && v.id in m'.regs && m'.regs[v.id] == RP(Pointer(v.id, [], v.ty))
      && v.id in m'.mem && m'.mem[v.id] == cx.seed(v.id)
    decreases |vars|
  {
    var v := vars[0];
    var m1 := Mach(m.regs[v.id := RP(Pointer(v.id, [], v.ty))], m.mem[v.id := cx.seed(v.id)]);
    if i == 0 {
      AfterVarsOther(cx, vars[1..], m1, v.id);
    } else {
      AfterVarsSelf(cx, vars[1..], m1, i - 1);
    }
  }

  lemma {:induction false} RunVars(cx: Cx, vars: seq<Var>, pos: nat, m: Mach)
    requires |cx.prog| > 0 && pos + |vars| <= |cx.prog[0].instrs|
    requires cx.prog[0].instrs[pos..pos + |vars|] == VariableInstrs(vars)
    ensures Steps(cx, Running(0, pos, m), |vars|) == Running(0, pos + |vars|, AfterVars(cx, vars, m))
    decreases |vars|
  {
    if vars != [] {
      var v := vars[0];
      var m1 := Mach(m.regs[v.id := RP(Pointer(v.id, [], v.ty))], m.mem[v.id := cx.seed(v.id)]);
      assert cx.prog[0].instrs[pos] == cx.prog[0].instrs[pos..pos + |vars|][0] == OpVariable(v.id, v.ty);
      assert ExecInstr(cx, OpVariable(v.id, v.ty), m) == Some(m1);
      assert StepConfig(cx, Running(0, pos, m)) == Running(0, pos + 1, m1);
      assert cx.prog[0].instrs[pos + 1..pos + 1 + |vars[1..]|] == cx.prog[0].instrs[pos..pos + |vars|][1..];
      assert VariableInstrs(vars)[1..] == VariableInstrs(vars[1..]);
      RunVars(cx, vars[1..], pos + 1, m1);
    }
  }

  // --- initial states ---

  /** Interface inputs hold the arguments. */
  ghost predicate InputsReady(m: Mach, params: seq<Param>, inputs: seq<Id>, args: seq<Value>)
    requires |params| == |inputs| == |args|
  {
    forall i :: 0 <= i < |inputs| ==>
      && PointerOf(m, inputs[i]) == Some(Pointer(inputs[i], [], params[i].ty))
      && inputs[i] in m.mem && m.mem[inputs[i]] == args[i]
  }

  /** A machine about to run `fin`: constants and interface variables are in place, nothing else matters. */
  ghost predicate Loaded(cx: Cx, g: Globals, fin: St, params: seq<Param>, args: seq<Value>, m: Mach)
    requires |params| == |g.inputs| == |args|
  {
    && (forall c :: c in fin.consts ==> c in m.regs && m.regs[c] == RV(ConstValue(cx.fo, fin.consts[c])))
    && (g.outVar.Some? ==> OutReady(g, m))
    && InputsReady(m, params, g.inputs, args)
  }

  /** Variables start with contents of their types, whatever those are. */
  ghost predicate SeedsTyped(cx: Cx, fin: St) {
    forall v :: v in fin.vars ==> HasType(cx.structs, cx.seed(v.id), v.ty)
  }

  /** Running the hoisted declarations establishes the simulation relation. */
  lemma {:induction false} SimVars(cx: Cx, g: Globals, entry: Id, fin: St, params: seq<Param>, args: seq<Value>, m: Mach)
    requires Finished(cx, g, fin) && fin.first == entry && Interface(g, entry) && Within(EntrySt(entry), fin)
    requires |params| == |g.inputs| == |args| && Loaded(cx, g, fin, params, args, m) && SeedsTyped(cx, fin)
    ensures var m' := AfterVars(cx, fin.vars, m);
      && Steps(cx, Running(0, 0, m), |fin.vars|) == At(fin, EntrySt(entry), m')
      && Inv(cx, g, fin, [], EntrySt(entry), m') && InputsReady(m', params, g.inputs, args)
      && (g.outVar.Some? ==> m'.mem[g.outVar.value] == m.mem[g.outVar.value])
  {
    var m' := AfterVars(cx, fin.vars, m);
    ReadyAfterVars(cx, g, fin, params, args, m);
    assert BlocksOf(fin) == fin.done && |fin.done| > 0;
    assert cx.prog[0].instrs[0..0 + |fin.vars|] == VariableInstrs(fin.vars);
    RunVars(cx, fin.vars, 0, m);
    hide HasType, Ready, Good, Steps, ProgramOf, IsVar;
    assert Agree([], EntrySt(entry).locals, m'.mem);
  }

  lemma {:induction false} ReadyAfterVars(cx: Cx, g: Globals, fin: St, params: seq<Param>, args: seq<Value>, m: Mach)
    requires Good(fin) && Interface(g, fin.first)
    requires |params| == |g.inputs| == |args| && Loaded(cx, g, fin, params, args, m) && SeedsTyped(cx, fin)
    ensures var m' := AfterVars(cx, fin.vars, m);
      && Ready(cx, g, fin, m') && InputsReady(m', params, g.inputs, args)
      && (g.outVar.Some? ==> m'.mem[g.outVar.value] == m.mem[g.outVar.value])
  {
    var m' := AfterVars(cx, fin.vars, m);
    VarsApart(fin);
    hide Good, HasType, AfterVars, NotAmong;
    forall c | c in fin.consts ensures c in m'.regs && m'.regs[c] == m.regs[c] {
      AfterVarsOther(cx, fin.vars, m, c);
    }
    forall v | v in fin.vars
      ensures v.id in m'.regs && m'.regs[v.id] == RP(Pointer(v.id, [], v.ty))
      ensures v.id in m'.mem && m'.mem[v.id] == cx.seed(v.id)
    {
      var i :| 0 <= i < |fin.vars| && fin.vars[i] == v;
      AfterVarsSelf(cx, fin.vars, m, i);
    }
    if g.outVar.Some? {
      AfterVarsOther(cx, fin.vars, m, g.outVar.value);
    }
    forall i | 0 <= i < |g.inputs|
      ensures PointerOf(m', g.inputs[i]) == PointerOf(m, g.inputs[i])
      ensures g.inputs[i] in m'.mem && m'.mem[g.inputs[i]] == m.mem[g.inputs[i]]
    {
      AfterVarsOther(cx, fin.vars, m, g.inputs[i]);
    }
  }

  /** Hoisted variables are apart from each other, from constants and from everything outside. */
  lemma {:induction false} VarsApart(fin: St)
    requires Good(fin)
    ensures forall i, j :: 0 <= i < j < |fin.vars| ==> fin.vars[i].id != fin.vars[j].id
    ensures forall id: Id | id < fin.first || id in fin.consts :: NotAmong(fin.vars, id)
  {
  }

  // --- parameters ---

  lemma {:induction false} InputsKept(
    fin: St, limit: Id, m: Mach, m': Mach, params: seq<Param>, inputs: seq<Id>, args: seq<Value>)
    requires |params| == |inputs| == |args| && InputsReady(m, params, inputs, args) && Kept(fin, limit, m, m')
    requires forall i :: 0 <= i < |inputs| ==> inputs[i] < limit && !IsVar(fin, inputs[i])
    ensures InputsReady(m', params, inputs, args)
  {
  }

  /** Each parameter is copied into its local. */
  lemma {:induction false} SimParams(
    cx: Cx, g: Globals, fin: St, st: St, params: seq<Param>, inputs: seq<Id>, args: seq<Value>, env: Env, m: Mach)
    returns (k: nat, m': Mach)
    requires |params| == |inputs| == |args| && Finished(cx, g, fin) && Good(st) && st.open.Some?
    requires EmitParams(g, st, params, inputs).Ok? && Within(EmitParams(g, st, params, inputs).value, fin)
    requires Inv(cx, g, fin, env, st, m) && InputsReady(m, params, inputs, args)
    requires forall i :: 0 <= i < |inputs| ==> inputs[i] < st.nextId && !IsVar(fin, inputs[i])
    requires forall i :: 0 <= i < |args| ==> HasType(cx.structs, args[i], params[i].ty)
    ensures var st' := EmitParams(g, st, params, inputs).value;
      && Steps(cx, At(fin, st, m), k) == At(fin, st', m') && Kept(fin, st.nextId, m, m')
      && Inv(cx, g, fin, env + ParamEnv(params, args), st', m')
    decreases |params|
  {
    hide Good, Agree, EnvTyped, ProgramOf, StepConfig, HasType, Ready, Kept, Within, At, PushNew;
    k, m' := 0, m;
    if params == [] {
      KeptSelf(fin, st.nextId, m);
      assert env + ParamEnv(params, args) == env;
    } else {
      var st4 := OneParam(g, st, params, inputs).value;
      var env1 := env + [Binding(params[0].name, params[0].ty, args[0])];
      OneParamGood(g, st, params, inputs);
      EmitParamsGood(g, st4, params[1..], inputs[1..]);
      WithinBefore(st4, EmitParams(g, st, params, inputs).value, fin, {});
      GrowsNextId(st, st4, {});
      var m1 := SimParam(cx, g, fin, st, params, inputs, args[0], env, m);
      InputsKept(fin, st.nextId, m, m1, params, inputs, args);
      assert InputsReady(m1, params[1..], inputs[1..], args[1..]) by {
        forall i | 0 <= i < |inputs[1..]| ensures inputs[1..][i] == inputs[i + 1] {
        }
      }
      var k2, m2 := SimParams(cx, g, fin, st4, params[1..], inputs[1..], args[1..], env1, m1);
      Then(cx, g, fin, st, m, 2, st4, m1, k2, EmitParams(g, st, params, inputs).value, m2);
      assert env1 + ParamEnv(params[1..], args[1..]) == env + ParamEnv(params, args);
      k, m' := 2 + k2, m2;
    }
  }

  /** Emission of the first parameter. */
  function OneParam(g: Globals, st: St, params: seq<Param>, inputs: seq<Id>): Result<St>
    requires |params| == |inputs| > 0
  {
    var (st1, ptr) :- AllocLocal(g, st, params[0].ty);
    var (st2, v) :- EmitLoad(g, st1, Val(inputs[0], params[0].ty));
    var st3 :- Push(st2, OpStore(ptr, v.id));
    Ok(st3.(locals := st3.locals + [Local(params[0].name, ptr, params[0].ty)]))
  }

  lemma {:induction false} OneParamGood(g: Globals, st: St, params: seq<Param>, inputs: seq<Id>)
    requires |params| == |inputs| > 0 && Good(st) && st.open.Some? && OneParam(g, st, params, inputs).Ok?
    ensures var st' := OneParam(g, st, params, inputs).value; Good(st') && Grows(st, st', {}) && st'.open.Some?
  {
    hide Good;
    var (st1, ptr) := AllocLocal(g, st, params[0].ty).value;
    AllocGood(g, st, params[0].ty);
    var (st2, v) := EmitLoad(g, st1, Val(inputs[0], params[0].ty)).value;
    EmitLoadGood(g, st1, Val(inputs[0], params[0].ty));
    PushGood(st2, OpStore(ptr, v.id));
    var st3 := Push(st2, OpStore(ptr, v.id)).value;
    var l := Local(params[0].name, ptr, params[0].ty);
    ExtendsTrans(st1, st2, st3);
    ExtendsGrows(st1, st3);
    AddLocalGood(st3, l);
    GrowsThen(st, st1, st3);
    GrowsThen(st, st3, st3.(locals := st3.locals + [l]));
  }

  lemma {:induction false} SimParam(
    cx: Cx, g: Globals, fin: St, st: St, params: seq<Param>, inputs: seq<Id>, arg: Value, env: Env, m: Mach)
    returns (m': Mach)
    requires |params| == |inputs| > 0 && Finished(cx, g, fin) && Good(st) && st.open.Some?
    requires OneParam(g, st, params, inputs).Ok? && Within(OneParam(g, st, params, inputs).value, fin)
    requires Inv(cx, g, fin, env, st, m) && HasType(cx.structs, arg, params[0].ty)
    requires PointerOf(m, inputs[0]) == Some(Pointer(inputs[0], [], params[0].ty))
    requires inputs[0] in m.mem && m.mem[inputs[0]] == arg
    ensures var st' := OneParam(g, st, params, inputs).value;
      && Steps(cx, At(fin, st, m), 2) == At(fin, st', m') && Kept(fin, st.nextId, m, m')
      && Inv(cx, g, fin, env + [Binding(params[0].name, params[0].ty, arg)], st', m')
  {
    hide Good, Agree, EnvTyped, ProgramOf, StepConfig, HasType, Ready, Kept;
    var ty := params[0].ty;
    var (st1, ptr) := AllocLocal(g, st, ty).value;
    AllocGood(g, st, ty);
    var i := OpLoad(st1.nextId, ty, inputs[0]);
    PushNewGood(st1, i);
    var (st2, v) := EmitLoad(g, st1, Val(inputs[0], ty)).value;
    var store := OpStore(ptr, v.id);
    PushGood(st2, store);
    var st3 := Push(st2, store).value;
    assert Within(st3, fin);
    WithinExtends(st2, st3, fin);
    assert Var(ptr, ty) in fin.vars;
    InvSameLocals(cx, g, fin, env, st, st1, m);
    assert At(fin, st, m) == At(fin, st1, m);
    var m1 := RunNew(cx, g, fin, st1, i, env, m, arg);
    m' := RunStoreFresh(cx, g, fin, st2, store, env, Var(ptr, ty), m1, arg);
    Then(cx, g, fin, st1, m, 1, st2, m1, 1, st3, m');
    KeptSmaller(fin, st.nextId, st1.nextId, m, m');
    MatchesSelf(arg);
    InvDeclare(cx, g, fin, env, st3, Local(params[0].name, ptr, ty), arg, m');
  }

  // --- the theorem ---

  function ParamNames(params: seq<Param>): set<string> {
    set i | 0 <= i < |params| :: params[i].name
  }

  /** A program, its surroundings and its arguments fit together. */
  ghost predicate Setting(cx: Cx, g: Globals, entry: Id, params: seq<Param>, body: Block, args: seq<Value>, m: Mach) {
    && |params| == |g.inputs| == |args| && Interface(g, entry)
    && (forall i :: 0 <= i < |args| ==> HasType(g.structs, args[i], params[i].ty))
    && ScopedAll(body.stmts, {}, ParamNames(params))
    && EmitBody(g, entry, params, body).Ok?
    && var fin := EmitBody(g, entry, params, body).value;
       && cx.prog == ProgramOf(fin) && cx.structs == g.structs
       && SeedsTyped(cx, fin) && Loaded(cx, g, fin, params, args, m)
  }

  /** Where a run of the program begins. */
  function Start(m: Mach): Config { Running(0, 0, m) }

  lemma {:induction false} ParamEnvNames(params: seq<Param>, args: seq<Value>)
    requires |params| == |args|
    ensures Names([] + ParamEnv(params, args)) <= {} + ParamNames(params)
  {
  }

  /** Semantic preservation: the emitted blocks return what the source returns, and run on while it loops. */
  lemma {:induction false} BodyPreserved(
    cx: Cx, g: Globals, entry: Id, params: seq<Param>, body: Block, args: seq<Value>, m: Mach, fuel: nat)
    returns (k: nat, m': Mach)
    requires Setting(cx, g, entry, params, body, args, m)
    ensures match RunBody(cx.fo, cx.structs, g.outTy, fuel, params, args, body)
      case Returned(result) => Steps(cx, Start(m), k) == Halted(m') && Output(g, m, m', result)
      case Timeout => k >= fuel && Steps(cx, Start(m), k).Running?
      case _ => true
  {
    hide Good, Agree, EnvTyped, ProgramOf, StepConfig, HasType, Kept, Within, At, Steps, ExecStmts, EmitStmts, ScopedAll, EmitParams,
      EntrySt, Names;
    var fin := EmitBody(g, entry, params, body).value;
    var st1, st2 := BodyGood(g, entry, params, body);
    var st0 := EntrySt(entry);
    assert Finished(cx, g, fin);
    assert st0.open.Some? && st0.nextId == entry + 1 && Good(st0) by {
      EntryGood(entry);
      EntryFields(entry);
    }
    InputsOutside(g, fin, entry);
    SimVars(cx, g, entry, fin, params, args, m);
    var m0 := AfterVars(cx, fin.vars, m);
    var k1, m1 := SimParams(cx, g, fin, st0, params, g.inputs, args, [], m0);
    var env := [] + ParamEnv(params, args);
    assert env == ParamEnv(params, args);
    ParamEnvNames(params, args);
    var k2, m2 := SimStmts(cx, g, fin, st1, body.stmts, {}, ParamNames(params), fuel, env, m1);
    var o := ExecStmts(cx.fo, cx.structs, g.outTy, fuel, env, body.stmts);
    StepsAdd(cx, Start(m), |fin.vars|, k1);
    StepsAdd(cx, Start(m), |fin.vars| + k1, k2);
    k, m' := |fin.vars| + k1 + k2, m2;
    if g.outVar.Some? {
      OutNotVar(cx, g, fin);
      OutKept(cx, g, fin, st0.nextId, m0, m1);
      if o.Normal? {
        InvTyped(cx, g, fin, env, st1, m1);
        OutKept(cx, g, fin, st1.nextId, m1, m2);
      }
    }
    if o.Normal? {
      RunReturn(cx, g, fin, st2, m2);
      StepsAdd(cx, Start(m), k, 1);
      k := k + 1;
    }
  }

  lemma {:induction false} EntryFields(entry: Id)
    ensures EntrySt(entry).open.Some? && EntrySt(entry).nextId == entry + 1
  {
  }

  lemma {:induction false} InputsOutside(g: Globals, fin: St, entry: Id)
    requires Interface(g, entry) && Good(fin) && fin.first == entry
    ensures forall i :: 0 <= i < |g.inputs| ==> g.inputs[i] < entry && !IsVar(fin, g.inputs[i])
  {
  }

  lemma {:induction false} OutKept(cx: Cx, g: Globals, fin: St, limit: Id, m: Mach, m': Mach)
    requires g.outVar.Some? && !IsVar(fin, g.outVar.value) && Kept(fin, limit, m, m') && g.outVar.value in m.mem
    ensures g.outVar.value in m'.mem && m'.mem[g.outVar.value] == m.mem[g.outVar.value]
  {
  }

  // --- consequences ---

  lemma {:induction false} SettingArgs(
    cx: Cx, g: Globals, entry: Id, params: seq<Param>, body: Block, args: seq<Value>, m: Mach)
    requires Setting(cx, g, entry, params, body, args, m)
    ensures |params| == |args|
  {
  }

  /** A run stops in one configuration only. */
  lemma {:induction false} StopsOnce(cx: Cx, c: Config, a: nat, b: nat)
    requires !Steps(cx, c, a).Running? && !Steps(cx, c, b).Running?
    ensures Steps(cx, c, a) == Steps(cx, c, b)
  {
    if a <= b {
      StepsAdd(cx, c, a, b - a);
      StoppedStays(cx, Steps(cx, c, a), b - a);
    } else {
      StepsAdd(cx, c, b, a - b);
      StoppedStays(cx, Steps(cx, c, b), a - b);
    }
  }

  /** What the emitted program does is what the source does: if the machine halts and the source is not
      stuck, the source returns, and the machine's output is the returned value. */
  lemma {:induction false} HaltingReflectsReturn(
    cx: Cx, g: Globals, entry: Id, params: seq<Param>, body: Block, args: seq<Value>, m: Mach, n: nat)
    requires Setting(cx, g, entry, params, body, args, m) && Steps(cx, Start(m), n).Halted?
    requires !RunBody(cx.fo, cx.structs, g.outTy, n + 1, params, args, body).Stuck?
    ensures var o := RunBody(cx.fo, cx.structs, g.outTy, n + 1, params, args, body);
      o.Returned? && Output(g, m, Steps(cx, Start(m), n).m, o.result)
  {
    hide Setting, RunBody, StepConfig, EmitBody, Loaded, SeedsTyped, Output, Steps;
    SettingArgs(cx, g, entry, params, body, args, m);
    var o := RunBody(cx.fo, cx.structs, g.outTy, n + 1, params, args, body);
    var k, m' := BodyPreserved(cx, g, entry, params, body, args, m, n + 1);
    RunBodyReturns(cx.fo, cx.structs, g.outTy, n + 1, params, args, body);
    if o.Timeout? {
      RunningBefore(cx, Start(m), n, k);
    } else {
      StopsOnce(cx, Start(m), n, k);
    }
  }

  lemma {:induction false} RunBodyReturns(
    fo: FloatOps, structs: Structs, outTy: Type, fuel: nat, params: seq<Param>, args: seq<Value>, body: Block)
    requires |params| == |args|
    ensures !RunBody(fo, structs, outTy, fuel, params, args, body).Normal?
  {
  }

  /** The emitted program never breaks: every instruction it reaches finds operands of the right types, and
      every jump finds its block. */
  lemma {:induction false} NeverBroken(
    cx: Cx, g: Globals, entry: Id, params: seq<Param>, body: Block, args: seq<Value>, m: Mach, n: nat)
    requires Setting(cx, g, entry, params, body, args, m)
    requires !RunBody(cx.fo, cx.structs, g.outTy, n, params, args, body).Stuck?
    ensures !Steps(cx, Start(m), n).Broken?
  {
    hide Setting, RunBody, StepConfig, EmitBody, Loaded, SeedsTyped, Output, Steps;
    SettingArgs(cx, g, entry, params, body, args, m);
    var k, m' := BodyPreserved(cx, g, entry, params, body, args, m, n);
    RunBodyReturns(cx.fo, cx.structs, g.outTy, n, params, args, body);
    if Steps(cx, Start(m), n).Broken? {
      if k >= n {
        StepsAdd(cx, Start(m), n, k - n);
        StoppedStays(cx, Broken, k - n);
      } else {
        StopsOnce(cx, Start(m), n, k);
      }
    }
  }
}
