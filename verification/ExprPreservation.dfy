/** Running the code emitted for an expression computes what the expression evaluates to. */
module ExprPreservation {
  import opened Wrappers
  import opened Ast
  import opened Values
  import opened HlslMeaning
  import opened HlslSemantics
  import opened SpirvMachine
  import opened EmitterSpec
  import opened EmitterFacts
  import opened OperatorAgreement

  // --- the finished program around an emission step ---

  /** `fin` is a finished emission whose program the machine runs. */
  ghost predicate Finished(cx: Cx, g: Globals, fin: St) {
    && Good(fin) && fin.open.None?
    && cx.prog == ProgramOf(fin) && cx.structs == g.structs
    && (forall name :: name in g.structs ==> |g.structs[name]| < TWO_32)
    && (g.outVar.Some? ==> g.outVar.value < fin.first)
  }

  ghost predicate IsVar(fin: St, id: Id) {
    exists v :: v in fin.vars && v.id == id
  }

  /** Everything emitted up to `st` is still there in `fin`. */
  ghost predicate Within(st: St, fin: St) {
    && ConstsKept(st, fin)
    && (forall v :: v in st.vars ==> v in fin.vars)
    && st.done <= fin.done
    && (st.open.Some? ==>
          && |st.done| < |fin.done|
          && fin.done[|st.done|].lbl == st.open.value.lbl
          && st.open.value.instrs <= fin.done[|st.done|].instrs)
  }

  lemma {:induction false} WithinBefore(st: St, st': St, fin: St, drawn: set<Id>)
    requires Grows(st, st', drawn) && Within(st', fin)
    ensures Within(st, fin)
  {
    if st.open.Some? && |st.done| < |st'.done| {
      assert st'.done[|st.done|] == fin.done[|st.done|];
    }
  }

  lemma {:induction false} WithinExtends(st: St, st': St, fin: St)
    requires Extends(st, st') && Within(st', fin)
    ensures Within(st, fin)
  {
    ExtendsGrows(st, st');
    WithinBefore(st, st', fin, {});
  }

  // --- machine positions ---

  /** Hoisted variables shift the positions of the first block. */
  function Offset(fin: St, block: nat): nat {
    if block == 0 then |fin.vars| else 0
  }

  /** About to run whatever is emitted next. */
  function At(fin: St, st: St, m: Mach): Config {
    Running(|st.done|, Offset(fin, |st.done|) + (if st.open.Some? then |st.open.value.instrs| else 0), m)
  }

  /** The instruction a push added is the one the machine fetches. */
  lemma {:induction false} Fetch(cx: Cx, g: Globals, fin: St, st: St, st': St, i: Instr)
    requires Finished(cx, g, fin) && Within(st', fin)
    requires st.open.Some? && st'.open.Some? && st'.done == st.done
    requires st'.open.value.instrs == st.open.value.instrs + [i]
    ensures var b := |st.done|; var pos := Offset(fin, b) + |st.open.value.instrs|;
      b < |cx.prog| && pos < |cx.prog[b].instrs| && cx.prog[b].instrs[pos] == i && i == fin.done[b].instrs[|st.open.value.instrs|]
  {
    var b := |st.done|;
    assert st'.open.value.instrs[|st.open.value.instrs|] == i;
    assert BlocksOf(fin) == fin.done;
  }

  // --- the simulation relation ---

  /** Constants and variables sit in their registers; variables hold values of their types. */
  ghost predicate Ready(cx: Cx, g: Globals, fin: St, m: Mach) {
    && (forall c :: c in fin.consts ==> c in m.regs && m.regs[c] == RV(ConstValue(cx.fo, fin.consts[c])))
    && (forall v :: v in fin.vars ==>
          && v.id in m.regs && m.regs[v.id] == RP(Pointer(v.id, [], v.ty))
          && v.id in m.mem && HasType(cx.structs, m.mem[v.id], v.ty))
    && (g.outVar.Some? ==> OutReady(g, m))
  }

  /** The output variable can be stored to. */
  ghost predicate OutReady(g: Globals, m: Mach)
    requires g.outVar.Some?
  {
    g.outVar.value in m.mem && PointerOf(m, g.outVar.value) == Some(Pointer(g.outVar.value, [], g.outTy))
  }

  /** Every visible binding is backed by the local its name resolves to. */
  ghost predicate Agree(env: Env, locals: seq<Local>, mem: map<Id, Value>) {
    forall x: string :: LookupEnv(env, x).Some? ==> Backed(env, locals, mem, x)
  }

  ghost predicate Backed(env: Env, locals: seq<Local>, mem: map<Id, Value>, x: string)
    requires LookupEnv(env, x).Some?
  {
    && LookupLocal(locals, x).Some?
    && var b := env[LookupEnv(env, x).value];
       var l := locals[LookupLocal(locals, x).value];
       l.ty == b.ty && l.ptr in mem && Matches(b.value, mem[l.ptr])
  }

  ghost predicate Inv(cx: Cx, g: Globals, fin: St, env: Env, st: St, m: Mach) {
    Ready(cx, g, fin, m) && Agree(env, st.locals, m.mem) && EnvTyped(cx.structs, env)
  }

  lemma {:induction false} AgreeTypes(env: Env, locals: seq<Local>, mem: map<Id, Value>)
    requires Agree(env, locals, mem)
    ensures TypesAgree(env, locals)
  {
    forall x: string | LookupEnv(env, x).Some?
      ensures LookupLocal(locals, x).Some? && locals[LookupLocal(locals, x).value].ty == env[LookupEnv(env, x).value].ty
    {
      assert Backed(env, locals, mem, x);
    }
  }

  /** Older registers, and memory other than the variables', are untouched. */
  ghost predicate Kept(fin: St, limit: Id, m: Mach, m': Mach) {
    && (forall id :: id in m.regs && id < limit ==> id in m'.regs && m'.regs[id] == m.regs[id])
    && (forall id :: id in m.mem ==> id in m'.mem && (!IsVar(fin, id) ==> m'.mem[id] == m.mem[id]))
  }

  lemma {:induction false} KeptTrans(fin: St, a: Id, b: Id, m: Mach, m': Mach, m'': Mach)
    requires a <= b && Kept(fin, a, m, m') && Kept(fin, b, m', m'')
    ensures Kept(fin, a, m, m'')
  {
  }

  lemma {:induction false} KeptValue(fin: St, limit: Id, m: Mach, m': Mach, id: Id)
    requires Kept(fin, limit, m, m') && id < limit
    ensures ValueOf(m, id).Some? ==> ValueOf(m', id) == ValueOf(m, id)
    ensures PointerOf(m, id).Some? ==> PointerOf(m', id) == PointerOf(m, id)
  {
  }

  // --- one emitted instruction ---

  lemma {:induction false} StepsOne(cx: Cx, c: Config)
    ensures Steps(cx, c, 1) == StepConfig(cx, c)
  {
    assert Steps(cx, StepConfig(cx, c), 0) == StepConfig(cx, c);
  }

  /** An id defined by finished code is neither a constant nor a variable. */
  lemma {:induction false} DefIsFree(fin: St, b: nat, j: nat, id: Id)
    requires Good(fin) && b < |fin.done| && j < |fin.done[b].instrs| && DefOf(fin.done[b].instrs[j]) == Some(id)
    ensures id !in fin.consts && !IsVar(fin, id) && fin.first <= id
  {
    assert BlocksOf(fin)[b] == fin.done[b];
    assert DefOk(fin, DefAt(BlocksOf(fin), b, j));
  }

  /** Giving a register that holds no constant, variable or output pointer a value. */
  lemma {:induction false} ReadyAfterDef(cx: Cx, g: Globals, fin: St, m: Mach, id: Id, r: RegVal)
    requires Ready(cx, g, fin, m) && id !in fin.consts && !IsVar(fin, id) && (g.outVar.Some? ==> g.outVar.value != id)
    ensures var m' := m.(regs := m.regs[id := r]); Ready(cx, g, fin, m') && Kept(fin, id, m, m')
  {
    hide HasType;
  }

  /** Executing a value-producing instruction. */
  lemma {:induction false} RunNew(cx: Cx, g: Globals, fin: St, st: St, i: Instr, env: Env, m: Mach, v: Value)
    returns (m': Mach)
    requires Finished(cx, g, fin) && DefOf(i) == Some(st.nextId) && PushNew(st, i).Ok?
    requires Within(PushNew(st, i).value.0, fin) && Inv(cx, g, fin, env, st, m)
    requires Compute(cx, i, m) == Some(v) && HasType(cx.structs, v, ResultType(i))
    ensures var st' := PushNew(st, i).value.0;
      && Steps(cx, At(fin, st, m), 1) == At(fin, st', m')
      && Inv(cx, g, fin, env, st', m') && Kept(fin, st.nextId, m, m')
      && ValueOf(m', st.nextId) == Some(v) && m'.mem == m.mem
  {
    hide Good, Ready, Agree, EnvTyped, Kept, ProgramOf, HasType, Compute, IsVar;
    var st' := PushNew(st, i).value.0;
    Fetch(cx, g, fin, st, st', i);
    DefIsFree(fin, |st.done|, |st.open.value.instrs|, st.nextId);
    m' := m.(regs := m.regs[st.nextId := RV(v)]);
    ReadyAfterDef(cx, g, fin, m, st.nextId, RV(v));
    ExecComputes(cx, i, m, v);
    StepsOne(cx, At(fin, st, m));
  }

  lemma {:induction false} ExecComputes(cx: Cx, i: Instr, m: Mach, v: Value)
    requires Compute(cx, i, m) == Some(v) && HasType(cx.structs, v, ResultType(i)) && DefOf(i).Some?
    ensures ExecInstr(cx, i, m) == Some(m.(regs := m.regs[DefOf(i).value := RV(v)])) && !IsTerminator(i)
  {
    hide HasType;
  }

  lemma {:induction false} RunAccessChain(cx: Cx, g: Globals, fin: St, st: St, i: Instr, env: Env, m: Mach, p: Pointer, idx: nat)
    returns (m': Mach)
    requires Finished(cx, g, fin) && i.OpAccessChain? && i.id == st.nextId && PushNew(st, i).Ok?
    requires Within(PushNew(st, i).value.0, fin) && Inv(cx, g, fin, env, st, m)
    requires PointerOf(m, i.base) == Some(p) && ValueOf(m, i.index) == Some(VScalar(EInt(Wrap(idx)))) && idx < TWO_32
    requires p.ty.Struct? && p.ty.name in cx.structs && idx < |cx.structs[p.ty.name]|
    ensures var st' := PushNew(st, i).value.0; var members := cx.structs[p.ty.name];
      && Steps(cx, At(fin, st, m), 1) == At(fin, st', m')
      && Inv(cx, g, fin, env, st', m') && Kept(fin, st.nextId, m, m') && m'.mem == m.mem
      && PointerOf(m', st.nextId) == Some(Pointer(p.base, p.path + [Step(idx, |members|)], members[idx].ty))
  {
    hide Good, Ready, Agree, EnvTyped, Kept, ProgramOf, HasType, IsVar;
    var st' := PushNew(st, i).value.0;
    var members := cx.structs[p.ty.name];
    Fetch(cx, g, fin, st, st', i);
    DefIsFree(fin, |st.done|, |st.open.value.instrs|, st.nextId);
    m' := m.(regs := m.regs[st.nextId := RP(Pointer(p.base, p.path + [Step(idx, |members|)], members[idx].ty))]);
    ReadyAfterDef(cx, g, fin, m, st.nextId, RP(Pointer(p.base, p.path + [Step(idx, |members|)], members[idx].ty)));
    assert ExecInstr(cx, i, m) == Some(m');
    StepsOne(cx, At(fin, st, m));
  }

  /** A literal costs no step: its register is already in place. */
  lemma {:induction false} ConstReady(cx: Cx, g: Globals, fin: St, st: St, c: Const, m: Mach)
    requires Ready(cx, g, fin, m) && Within(AddConst(st, c).0, fin)
    ensures ValueOf(m, st.nextId) == Some(ConstValue(cx.fo, c))
  {
    assert st.nextId in AddConst(st, c).0.consts;
  }

  // --- places ---

  /** The binding a place starts from is the visible one of its name. */
  lemma {:induction false} PlaceVisible(structs: Structs, env: Env, e: Expr)
    requires PlaceOf(structs, env, e).Some?
    ensures var i := PlaceOf(structs, env, e).value.index; LookupEnv(env, env[i].name) == Some(i)
  {
    if e.Member? {
      PlaceVisible(structs, env, e.base);
    }
  }

  /** The pointer behind a visible binding. */
  function PtrOf(env: Env, locals: seq<Local>, i: nat): Id
    requires i < |env| && LookupLocal(locals, env[i].name).Some?
  {
    locals[LookupLocal(locals, env[i].name).value].ptr
  }

  lemma {:induction false} LocalReady(cx: Cx, g: Globals, fin: St, st: St, j: nat, m: Mach)
    requires Good(st) && Within(st, fin) && Ready(cx, g, fin, m) && j < |st.locals|
    ensures var l := st.locals[j];
      && l.ptr < st.nextId && IsVar(fin, l.ptr) && PointerOf(m, l.ptr) == Some(Pointer(l.ptr, [], l.ty))
      && l.ptr in m.mem && HasType(cx.structs, m.mem[l.ptr], l.ty)
  {
    var l := st.locals[j];
    assert Var(l.ptr, l.ty) in st.vars;
    assert Var(l.ptr, l.ty) in fin.vars;
  }

  /** `id` holds a pointer to place `p`. */
  ghost predicate PointsTo(env: Env, locals: seq<Local>, m: Mach, id: Id, p: Place) {
    && p.index < |env| && LookupLocal(locals, env[p.index].name).Some?
    && PointerOf(m, id) == Some(Pointer(PtrOf(env, locals, p.index), p.path, p.ty))
  }

  lemma {:induction false} SimIdent(cx: Cx, g: Globals, fin: St, st: St, e: Expr, env: Env, m: Mach)
    requires Finished(cx, g, fin) && Good(st) && e.Ident? && EmitPlace(g, st, e).Ok?
    requires Within(st, fin) && Inv(cx, g, fin, env, st, m) && PlaceOf(g.structs, env, e).Some?
    ensures var (st', pv) := EmitPlace(g, st, e).value; var p := PlaceOf(g.structs, env, e).value;
      st' == st && pv.ty == p.ty && pv.id < st.nextId && PointsTo(env, st.locals, m, pv.id, p)
  {
    assert Backed(env, st.locals, m.mem, e.name);
    LocalReady(cx, g, fin, st, LookupLocal(st.locals, e.name).value, m);
  }

  lemma {:induction false} SimPlace(cx: Cx, g: Globals, fin: St, st: St, e: Expr, env: Env, m: Mach)
    returns (k: nat, m': Mach)
    requires Finished(cx, g, fin) && Good(st) && EmitPlace(g, st, e).Ok?
    requires Within(EmitPlace(g, st, e).value.0, fin) && Inv(cx, g, fin, env, st, m)
    requires PlaceOf(g.structs, env, e).Some? && st.open.Some?
    ensures var (st', pv) := EmitPlace(g, st, e).value; var p := PlaceOf(g.structs, env, e).value;
      && Steps(cx, At(fin, st, m), k) == At(fin, st', m')
      && Inv(cx, g, fin, env, st', m') && Kept(fin, st.nextId, m, m') && m'.mem == m.mem
      && pv.ty == p.ty && pv.id < st'.nextId && PointsTo(env, st.locals, m', pv.id, p)
    decreases e, 1
  {
    hide Good, Ready, Agree, EnvTyped, Within, ProgramOf, StepConfig;
    if e.Ident? {
      k, m' := 0, m;
      SimIdent(cx, g, fin, st, e, env, m);
    } else {
      k, m' := SimField(cx, g, fin, st, e, env, m);
    }
  }

  /** A struct member: the place of the struct, then one access chain. */
  lemma {:induction false} SimField(cx: Cx, g: Globals, fin: St, st: St, e: Expr, env: Env, m: Mach)
    returns (k: nat, m': Mach)
    requires e.Member? && Finished(cx, g, fin) && Good(st) && EmitPlace(g, st, e).Ok?
    requires Within(EmitPlace(g, st, e).value.0, fin) && Inv(cx, g, fin, env, st, m)
    requires PlaceOf(g.structs, env, e).Some? && st.open.Some?
    ensures var (st', pv) := EmitPlace(g, st, e).value; var p := PlaceOf(g.structs, env, e).value;
      && Steps(cx, At(fin, st, m), k) == At(fin, st', m')
      && Inv(cx, g, fin, env, st', m') && Kept(fin, st.nextId, m, m') && m'.mem == m.mem
      && pv.ty == p.ty && pv.id < st'.nextId && PointsTo(env, st.locals, m', pv.id, p)
    decreases e, 0
  {
    hide Good, Ready, Agree, EnvTyped, Within, ProgramOf, StepConfig, Steps, HasType, Kept, Matches;
    var (st1, b) := EmitPlace(g, st, e.base).value;
    EmitPlaceGood(g, st, e.base);
    var pb := PlaceOf(g.structs, env, e.base).value;
    var idx := FindMember(g.structs[b.ty.name], e.member).value;
    var c := CWord(Int, Wrap(idx));
    var (st2, kc) := AddConst(st1, c);
    AddConstGood(st1, c);
    var i := OpAccessChain(st2.nextId, b.id, kc);
    PushNewGood(st2, i);
    var st3 := PushNew(st2, i).value.0;
    WithinExtends(st2, st3, fin);
    WithinExtends(st1, st2, fin);
    var k1, m1 := SimPlace(cx, g, fin, st, e.base, env, m);
    ConstReady(cx, g, fin, st1, c, m1);
    var p := PointerOf(m1, b.id).value;
    m' := RunAccessChain(cx, g, fin, st2, i, env, m1, p, idx);
    k := k1 + 1;
    StepsAdd(cx, At(fin, st, m), k1, 1);
    assert At(fin, st1, m1) == At(fin, st2, m1);
    KeptTrans(fin, st.nextId, st2.nextId, m, m1, m');
  }

  lemma {:induction false} VarTypeUnique(fin: St, v: Var)
    requires Good(fin) && v in fin.vars
    ensures forall w :: w in fin.vars && w.id == v.id ==> w == v
  {
  }

  /** Overwriting one variable with a value of its type. */
  lemma {:induction false} ReadyAfterStore(cx: Cx, g: Globals, fin: St, m: Mach, v: Var, content: Value)
    requires Finished(cx, g, fin) && Ready(cx, g, fin, m) && v in fin.vars && HasType(cx.structs, content, v.ty)
    ensures var m' := m.(mem := m.mem[v.id := content]); Ready(cx, g, fin, m') && forall limit :: Kept(fin, limit, m, m')
  {
    VarTypeUnique(fin, v);
  }

  lemma {:induction false} BackedAfterWrite(
    env: Env, env': Env, locals: seq<Local>, mem: map<Id, Value>, mem': map<Id, Value>, p: Place, content: Value, x: string)
    requires Agree(env, locals, mem) && p.index < |env| && SameNames(env, env')
    requires LookupEnv(env, env[p.index].name) == Some(p.index) && LookupLocal(locals, env[p.index].name).Some?
    requires forall i, j :: 0 <= i < j < |locals| ==> locals[i].ptr != locals[j].ptr
    requires forall i :: 0 <= i < |env| && i != p.index ==> env'[i] == env[i]
    requires Matches(env'[p.index].value, content) && mem' == mem[PtrOf(env, locals, p.index) := content]
    requires LookupEnv(env', x).Some?
    ensures Backed(env', locals, mem', x)
  {
    hide LookupEnv, LookupLocal, Matches;
    LookupSameNames(env, env', x);
    assert Backed(env, locals, mem, x);
    var i := LookupEnv(env, x).value;
    if i == p.index {
      assert env[i].name == x;
    } else {
      assert env[p.index].name != x;
      assert LookupLocal(locals, x) != LookupLocal(locals, env[p.index].name);
    }
  }

  lemma {:induction false} AgreeAfterWrite(env: Env, locals: seq<Local>, mem: map<Id, Value>, p: Place, v: Value, content: Value)
    requires Agree(env, locals, mem) && p.index < |env| && LookupEnv(env, env[p.index].name) == Some(p.index)
    requires forall i, j :: 0 <= i < j < |locals| ==> locals[i].ptr != locals[j].ptr
    requires LookupLocal(locals, env[p.index].name).Some?
    requires Matches(SetPath(env[p.index].value, p.path, v), content)
    ensures Agree(WritePlace(env, p, v), locals, mem[PtrOf(env, locals, p.index) := content])
  {
    hide LookupEnv, LookupLocal, Matches, SetPath, Backed;
    var env' := WritePlace(env, p, v);
    var mem' := mem[PtrOf(env, locals, p.index) := content];
    forall x: string | LookupEnv(env', x).Some? ensures Backed(env', locals, mem', x) {
      BackedAfterWrite(env, env', locals, mem, mem', p, content, x);
    }
  }

  /** Storing through a pointer to a place writes the binding. */
  lemma {:induction false} RunStore(cx: Cx, g: Globals, fin: St, st: St, i: Instr, env: Env, p: Place, m: Mach, v: Value)
    returns (m': Mach)
    requires Finished(cx, g, fin) && Good(st) && i.OpStore? && Push(st, i).Ok?
    requires Within(Push(st, i).value, fin) && Inv(cx, g, fin, env, st, m)
    requires PointsTo(env, st.locals, m, i.ptr, p) && ValueOf(m, i.val) == Some(v)
    requires PathType(cx.structs, env[p.index].ty, p.path) == Some(p.ty) && HasType(cx.structs, v, p.ty)
    requires LookupEnv(env, env[p.index].name) == Some(p.index)
    ensures var st' := Push(st, i).value;
      && Steps(cx, At(fin, st, m), 1) == At(fin, st', m')
      && Inv(cx, g, fin, WritePlace(env, p, v), st', m') && Kept(fin, st.nextId, m, m') && m'.regs == m.regs
  {
    hide LookupEnv, LookupLocal, Matches, SetPath, PathType, HasType;
    var st' := Push(st, i).value;
    Fetch(cx, g, fin, st, st', i);
    PushGood(st, i);
    WithinExtends(st, st', fin);
    var b := env[p.index];
    var j := LookupLocal(st.locals, b.name).value;
    var ptr := st.locals[j].ptr;
    LocalReady(cx, g, fin, st, j, m);
    assert Backed(env, st.locals, m.mem, b.name);
    var content := SetPath(m.mem[ptr], p.path, v);
    m' := m.(mem := m.mem[ptr := content]);
    assert ExecInstr(cx, i, m) == Some(m');
    StepsOne(cx, At(fin, st, m));
    SetPathTyped(cx.structs, m.mem[ptr], b.ty, p.path, v);
    MatchesSetPath(cx.structs, b.value, m.mem[ptr], b.ty, p.path, v);
    WriteKeeps(cx.structs, env, p, v);
    AgreeAfterWrite(env, st.locals, m.mem, p, v, content);
    assert Var(ptr, b.ty) in st.vars;
    ReadyAfterStore(cx, g, fin, m, Var(ptr, b.ty), content);
  }

  /** Loading a place whose content is defined. */
  lemma {:induction false} RunLoad(cx: Cx, g: Globals, fin: St, st: St, pv: Val, env: Env, p: Place, m: Mach)
    returns (m': Mach)
    requires Finished(cx, g, fin) && Good(st) && EmitLoad(g, st, pv).Ok? && st.open.Some?
    requires Within(EmitLoad(g, st, pv).value.0, fin) && Inv(cx, g, fin, env, st, m)
    requires PointsTo(env, st.locals, m, pv.id, p) && pv.ty == p.ty
    requires PathType(cx.structs, env[p.index].ty, p.path) == Some(p.ty)
    requires LookupEnv(env, env[p.index].name) == Some(p.index) && ReadPlace(env, p).Some?
    ensures var (st', r) := EmitLoad(g, st, pv).value;
      && Steps(cx, At(fin, st, m), 1) == At(fin, st', m')
      && Inv(cx, g, fin, env, st', m') && Kept(fin, st.nextId, m, m') && m'.mem == m.mem
      && ValueOf(m', r.id) == ReadPlace(env, p) && r.id < st'.nextId && r.ty == p.ty
      && HasType(cx.structs, ReadPlace(env, p).value, p.ty)
  {
    var i := OpLoad(st.nextId, pv.ty, pv.id);
    EmitLoadGood(g, st, pv);
    WithinExtends(st, PushNew(st, i).value.0, fin);
    var b := env[p.index];
    var j := LookupLocal(st.locals, b.name).value;
    LocalReady(cx, g, fin, st, j, m);
    assert Backed(env, st.locals, m.mem, b.name);
    var content := m.mem[st.locals[j].ptr];
    MatchesGetPath(b.value, content, p.path);
    MatchesDefined(GetPath(b.value, p.path), GetPath(content, p.path));
    ReadTyped(cx.structs, env, p);
    m' := RunNew(cx, g, fin, st, i, env, m, GetPath(content, p.path));
    assert m'.mem == m.mem;
  }

  // --- expressions ---

  /** From `st` and `m`, `k` steps lead to `st'` and `m'`, where `val` holds `v`. */
  ghost predicate Computes(
    cx: Cx, g: Globals, fin: St, st: St, m: Mach, k: nat, st': St, env': Env, m': Mach, val: Val, v: Value)
  {
    && Steps(cx, At(fin, st, m), k) == At(fin, st', m')
    && Inv(cx, g, fin, env', st', m') && Kept(fin, st.nextId, m, m')
    && ValueOf(m', val.id) == Some(v) && HasType(cx.structs, v, val.ty) && val.id < st'.nextId
  }

  /** One more step after a computation. */
  lemma {:induction false} Then(
    cx: Cx, g: Globals, fin: St, st: St, m: Mach, k: nat, st1: St, m1: Mach, n: nat, st2: St, m2: Mach)
    requires Steps(cx, At(fin, st, m), k) == At(fin, st1, m1) && Kept(fin, st.nextId, m, m1)
    requires Steps(cx, At(fin, st1, m1), n) == At(fin, st2, m2) && Kept(fin, st1.nextId, m1, m2)
    requires st.nextId <= st1.nextId
    ensures Steps(cx, At(fin, st, m), k + n) == At(fin, st2, m2) && Kept(fin, st.nextId, m, m2)
  {
    StepsAdd(cx, At(fin, st, m), k, n);
    KeptTrans(fin, st.nextId, st1.nextId, m, m1, m2);
  }

  lemma {:induction false} SimLit(cx: Cx, g: Globals, fin: St, st: St, lit: Literal, env: Env, m: Mach)
    requires Finished(cx, g, fin) && Good(st)
    requires Within(EmitLit(st, lit).0, fin) && Inv(cx, g, fin, env, st, m) && st.open.Some?
    ensures var (st', val) := EmitLit(st, lit);
      Computes(cx, g, fin, st, m, 0, st', env, m, val, LitValue(cx.fo, lit))
  {
    hide Good, Within, Agree, EnvTyped, ProgramOf;
    var c := match lit {
      case IntLit(i) => CWord(Int, Wrap(i))
      case UintLit(u) => CWord(Uint, Wrap(u))
      case FloatLit(f) => CFloat(f)
      case BoolLit(b) => CBool(b)
    };
    ConstReady(cx, g, fin, st, c, m);
  }

  /** Pushing an instruction whose operands are in place. */
  lemma {:induction false} SimNew(cx: Cx, g: Globals, fin: St, st: St, i: Instr, env: Env, m: Mach, v: Value)
    returns (m': Mach)
    requires Finished(cx, g, fin) && Good(st) && DefOf(i) == Some(st.nextId) && PushNew(st, i).Ok?
    requires Within(PushNew(st, i).value.0, fin) && Inv(cx, g, fin, env, st, m)
    requires Compute(cx, i, m) == Some(v) && HasType(cx.structs, v, ResultType(i))
    ensures var st' := PushNew(st, i).value.0;
      Computes(cx, g, fin, st, m, 1, st', env, m', Val(st.nextId, ResultType(i)), v)
  {
    hide Good, Ready, Agree, EnvTyped, Within, ProgramOf, StepConfig, Compute;
    m' := RunNew(cx, g, fin, st, i, env, m, v);
  }

  lemma {:induction false} SimArith(
    cx: Cx, g: Globals, fin: St, st: St, op: BinaryOp, a: Val, b: Val, env: Env, m: Mach, x: Value, y: Value)
    returns (m': Mach)
    requires Finished(cx, g, fin) && Good(st) && EmitArith(g, st, op, a, b).Ok?
    requires Within(EmitArith(g, st, op, a, b).value.0, fin) && Inv(cx, g, fin, env, st, m)
    requires ValueOf(m, a.id) == Some(x) && ValueOf(m, b.id) == Some(y)
    requires HasType(cx.structs, x, a.ty) && HasType(cx.structs, y, b.ty)
    requires ArithValue(cx.fo, op, x, y).Some?
    ensures var (st', val) := EmitArith(g, st, op, a, b).value;
      Computes(cx, g, fin, st, m, 1, st', env, m', val, ArithValue(cx.fo, op, x, y).value) && ValueResult(op, x, y) == Some(val.ty)
  {
    hide Good, Ready, Agree, EnvTyped, Within, ProgramOf, StepConfig;
    ArithAgrees(cx.fo, cx.structs, op, a.ty, b.ty, x, y);
    var ty := if a.ty.IsComposite() then a.ty else b.ty;
    var i := OpBin(st.nextId, ArithOpcode(op, ty).value, ty, a.id, b.id);
    hide ArithValue, ArithOpcode, ArithResult, ValueResult, HasType;
    m' := SimNew(cx, g, fin, st, i, env, m, ArithValue(cx.fo, op, x, y).value);
  }

  lemma {:induction false} SimCompoundArith(
    cx: Cx, g: Globals, fin: St, st: St, op: BinaryOp, a: Val, b: Val, env: Env, m: Mach, x: Value, y: Value)
    returns (m': Mach)
    requires Finished(cx, g, fin) && Good(st) && EmitArith(g, st, op, a, b).Ok?
    requires Within(EmitArith(g, st, op, a, b).value.0, fin) && Inv(cx, g, fin, env, st, m)
    requires ValueOf(m, a.id) == Some(x) && ValueOf(m, b.id) == Some(y)
    requires HasType(cx.structs, x, a.ty) && HasType(cx.structs, y, b.ty)
    requires CompoundValue(cx.fo, op, a.ty, x, y).Some?
    ensures var (st', val) := EmitArith(g, st, op, a, b).value;
      Computes(cx, g, fin, st, m, 1, st', env, m', val, CompoundValue(cx.fo, op, a.ty, x, y).value) && val.ty == a.ty
  {
    hide Good, Ready, Agree, EnvTyped, Within, ProgramOf, StepConfig, CompoundValue, ArithOpcode, HasType;
    CompoundAgrees(cx.fo, cx.structs, op, a.ty, b.ty, x, y);
    var i := OpBin(st.nextId, ArithOpcode(op, a.ty).value, a.ty, a.id, b.id);
    m' := SimNew(cx, g, fin, st, i, env, m, CompoundValue(cx.fo, op, a.ty, x, y).value);
  }

  lemma {:induction false} SimComparison(
    cx: Cx, g: Globals, fin: St, st: St, op: BinaryOp, a: Val, b: Val, env: Env, m: Mach, x: Value, y: Value)
    returns (m': Mach)
    requires Finished(cx, g, fin) && Good(st) && IsComparison(op) && EmitComparison(st, op, a, b).Ok?
    requires Within(EmitComparison(st, op, a, b).value.0, fin) && Inv(cx, g, fin, env, st, m)
    requires ValueOf(m, a.id) == Some(x) && ValueOf(m, b.id) == Some(y)
    requires HasType(cx.structs, x, a.ty) && HasType(cx.structs, y, b.ty)
    requires Lift2(CompareFn(cx.fo, op), x, y).Some?
    ensures var (st', val) := EmitComparison(st, op, a, b).value;
      Computes(cx, g, fin, st, m, 1, st', env, m', val, Lift2(CompareFn(cx.fo, op), x, y).value)
  {
    hide Good, Ready, Agree, EnvTyped, Within, ProgramOf, StepConfig;
    CompareAgrees(cx.fo, cx.structs, op, a.ty, b.ty, x, y);
    var ty := if a.ty.Vector? then Vector(Bool, a.ty.n) else Scalar(Bool);
    var i := OpBin(st.nextId, CompareOpcode(op, a.ty.kind == Float).value, ty, a.id, b.id);
    m' := SimNew(cx, g, fin, st, i, env, m, Lift2(CompareFn(cx.fo, op), x, y).value);
  }

  lemma {:induction false} SimCoerceScalar(
    cx: Cx, g: Globals, fin: St, st: St, a: Val, kind: ScalarKind, env: Env, m: Mach, x: Value)
    returns (k: nat, m': Mach)
    requires Finished(cx, g, fin) && Good(st) && CoerceScalar(st, a, kind).Ok?
    requires Within(CoerceScalar(st, a, kind).value.0, fin) && Inv(cx, g, fin, env, st, m)
    requires ValueOf(m, a.id) == Some(x) && HasType(cx.structs, x, a.ty) && a.id < st.nextId
    requires ConvertScalar(cx.fo, x, kind).Some?
    ensures var (st', val) := CoerceScalar(st, a, kind).value;
      Computes(cx, g, fin, st, m, k, st', env, m', val, ConvertScalar(cx.fo, x, kind).value)
  {
    hide Good, Ready, Agree, EnvTyped, Within, ProgramOf, StepConfig;
    k, m' := 0, m;
    if a.ty != Scalar(kind) {
      ConvertAgrees(cx.fo, x.e, kind);
      ConvertedKind(cx.fo, x.e, kind);
      var i := OpUn(st.nextId, CoerceOpcode(a.ty.kind, kind).value, Scalar(kind), a.id);
      m' := SimNew(cx, g, fin, st, i, env, m, VScalar(ConvertElem(cx.fo, x.e, kind)));
      k := 1;
    }
  }

  lemma {:induction false} SimCoerce(
    cx: Cx, g: Globals, fin: St, st: St, a: Val, ty: Type, env: Env, m: Mach, x: Value) returns (k: nat, m': Mach)
    requires Finished(cx, g, fin) && Good(st) && Coerce(st, a, ty).Ok?
    requires Within(Coerce(st, a, ty).value.0, fin) && Inv(cx, g, fin, env, st, m)
    requires ValueOf(m, a.id) == Some(x) && HasType(cx.structs, x, a.ty) && a.id < st.nextId && !x.VUndef?
    requires ConvertTo(cx.fo, cx.structs, x, ty).Some?
    ensures var (st', val) := Coerce(st, a, ty).value;
      Computes(cx, g, fin, st, m, k, st', env, m', val, ConvertTo(cx.fo, cx.structs, x, ty).value)
  {
    hide Good, Ready, Agree, EnvTyped, Within, ProgramOf, StepConfig;
    k, m' := 0, m;
    if a.ty != ty && a.ty.Scalar? && ty.Scalar? {
      assert !HasType(cx.structs, x, ty);
      k, m' := SimCoerceScalar(cx, g, fin, st, a, ty.kind, env, m, x);
    }
  }

  lemma {:induction false} SimSwizzle(
    cx: Cx, g: Globals, fin: St, st: St, b: Val, member: string, kind: ScalarKind, n: nat, env: Env, m: Mach, x: Value)
    returns (m': Mach)
    requires Finished(cx, g, fin) && Good(st) && EmitSwizzle(st, b, member, kind).Ok?
    requires Within(EmitSwizzle(st, b, member, kind).value.0, fin) && Inv(cx, g, fin, env, st, m)
    requires ValueOf(m, b.id) == Some(x) && HasType(cx.structs, x, Vector(kind, n)) && SwizzleValue(x, member).Some?
    ensures var (st', val) := EmitSwizzle(st, b, member, kind).value;
      Computes(cx, g, fin, st, m, 1, st', env, m', val, SwizzleValue(x, member).value)
  {
    hide Good, Ready, Agree, EnvTyped, Within, ProgramOf, StepConfig;
    SwizzleTyped(cx.structs, x, kind, n, member);
    var idx := DecodeSwizzle(member).value;
    var v := SwizzleValue(x, member).value;
    var i := if |idx| == 1 then OpCompositeExtract(st.nextId, Scalar(kind), b.id, idx[0])
             else OpVectorShuffle(st.nextId, Vector(kind, |idx|), b.id, b.id, idx);
    if |idx| > 1 {
      assert v.c == seq(|idx|, j requires 0 <= j < |idx| && idx[j] < |x.c| + |x.c| => (x.c + x.c)[idx[j]]);
    }
    m' := SimNew(cx, g, fin, st, i, env, m, v);
  }

  // --- operand lists ---

  lemma {:induction false} ValuesOfAt(m: Mach, ids: seq<Id>, vs: seq<Value>)
    requires |ids| == |vs| && forall i :: 0 <= i < |ids| ==> ValueOf(m, ids[i]) == Some(vs[i])
    ensures ValuesOf(m, ids) == Some(vs)
  {
    if ids != [] {
      ValuesOfAt(m, ids[1..], vs[1..]);
      assert [vs[0]] + vs[1..] == vs;
    }
  }

  /** Register `vals[i]` holds `vs[i]`. */
  ghost predicate Holds(cx: Cx, m: Mach, limit: Id, vals: seq<Val>, vs: seq<Value>) {
    && |vals| == |vs|
    && forall i :: 0 <= i < |vals| ==>
         vals[i].id < limit && ValueOf(m, vals[i].id) == Some(vs[i]) && HasType(cx.structs, vs[i], vals[i].ty)
  }

  lemma {:induction false} HoldsValues(cx: Cx, m: Mach, limit: Id, vals: seq<Val>, vs: seq<Value>)
    requires Holds(cx, m, limit, vals, vs)
    ensures ValuesOf(m, Ids(vals)) == Some(vs)
  {
    ValuesOfAt(m, Ids(vals), vs);
  }

  lemma {:induction false} SimAssemble(
    cx: Cx, g: Globals, fin: St, st: St, ty: Type, vals: seq<Val>, env: Env, m: Mach, vs: seq<Value>) returns (m': Mach)
    requires Finished(cx, g, fin) && Good(st) && ty.Vector? && Assemble(st, ty, vals).Ok?
    requires Within(Assemble(st, ty, vals).value.0, fin) && Inv(cx, g, fin, env, st, m)
    requires Holds(cx, m, st.nextId, vals, vs) && ConstructValue(cx.fo, ty, vs).Some?
    ensures var (st', val) := Assemble(st, ty, vals).value;
      Computes(cx, g, fin, st, m, 1, st', env, m', val, ConstructValue(cx.fo, ty, vs).value)
  {
    hide Good, Ready, Agree, EnvTyped, Within, ProgramOf, StepConfig;
    var parts := if |vals| == 1 then seq(ty.n, _ => vals[0].id) else Ids(vals);
    var values := if |vs| == 1 then seq(ty.n, _ => vs[0]) else vs;
    ValuesOfAt(m, parts, values);
    AssembleTyped(cx.structs, ty.kind, ty.n, values);
    m' := SimNew(cx, g, fin, st, OpCompositeConstruct(st.nextId, ty, parts), env, m, ConstructValue(cx.fo, ty, vs).value);
  }

  // --- calls ---

  lemma {:induction false} SimBroadcast(
    cx: Cx, g: Globals, fin: St, st: St, c: Id, ty: Type, env: Env, m: Mach, x: Value, w: Word)
    returns (k: nat, m': Mach)
    requires Finished(cx, g, fin) && Good(st) && BroadcastConst(st, c, ty).Ok?
    requires Within(BroadcastConst(st, c, ty).value.0, fin) && Inv(cx, g, fin, env, st, m)
    requires HasType(cx.structs, x, ty) && Floats(x).Some? && c < st.nextId && ValueOf(m, c) == Some(VScalar(EFloat(w)))
    ensures var (st', id) := BroadcastConst(st, c, ty).value;
      Computes(cx, g, fin, st, m, k, st', env, m', Val(id, ty), Broadcast(x, w))
  {
    hide Good, Ready, Agree, EnvTyped, Within, ProgramOf, StepConfig;
    FloatsTyped(cx.structs, x, ty);
    k, m' := 0, m;
    if ty.Vector? {
      var ids := seq(ty.n, _ => c);
      ValuesOfAt(m, ids, seq(ty.n, _ => VScalar(EFloat(w))));
      FlattenCopies(EFloat(w), ty.n);
      assert Broadcast(x, w).c == seq(ty.n, _ => EFloat(w));
      m' := SimNew(cx, g, fin, st, OpCompositeConstruct(st.nextId, Vector(Float, ty.n), ids), env, m, Broadcast(x, w));
      k := 1;
    }
  }

  /** Adding a constant moves neither the machine nor the bindings. */
  lemma {:induction false} AddConstSame(cx: Cx, g: Globals, fin: St, env: Env, st: St, c: Const, m: Mach)
    ensures var st' := AddConst(st, c).0;
      At(fin, st', m) == At(fin, st, m) && (Inv(cx, g, fin, env, st, m) ==> Inv(cx, g, fin, env, st', m))
  {
  }

  lemma {:induction false} ConstInPlace(cx: Cx, g: Globals, fin: St, env: Env, st: St, c: Const, m: Mach)
    requires Inv(cx, g, fin, env, st, m) && Within(AddConst(st, c).0, fin)
    ensures ValueOf(m, st.nextId) == Some(ConstValue(cx.fo, c))
  {
    ConstReady(cx, g, fin, st, c, m);
  }

  lemma {:induction false} KeptSmaller(fin: St, a: Id, b: Id, m: Mach, m': Mach)
    requires a <= b && Kept(fin, b, m, m')
    ensures Kept(fin, a, m, m')
  {
  }

  /** Spreading the two bounds of a clamp over the shape of `x`. */
  lemma {:induction false} SimBounds(
    cx: Cx, g: Globals, fin: St, st2: St, a: Val, lo: Id, hi: Id, st3: St, lo': Id, st4: St, hi': Id, env: Env, m: Mach,
    x: Value, zero: Word, one: Word)
    returns (k: nat, m': Mach)
    requires Finished(cx, g, fin) && Good(st2) && Within(st4, fin) && Inv(cx, g, fin, env, st2, m)
    requires BroadcastConst(st2, lo, a.ty) == Ok((st3, lo')) && BroadcastConst(st3, hi, a.ty) == Ok((st4, hi'))
    requires a.id < st2.nextId && ValueOf(m, a.id) == Some(x) && HasType(cx.structs, x, a.ty) && Floats(x).Some?
    requires lo < st2.nextId && ValueOf(m, lo) == Some(VScalar(EFloat(zero)))
    requires hi < st2.nextId && ValueOf(m, hi) == Some(VScalar(EFloat(one)))
    ensures Good(st4) && Extends(st2, st4)
    ensures Steps(cx, At(fin, st2, m), k) == At(fin, st4, m')
    ensures Inv(cx, g, fin, env, st4, m') && Kept(fin, st2.nextId, m, m')
    ensures ValueOf(m', a.id) == Some(x)
    ensures ValueOf(m', lo') == Some(Broadcast(x, zero)) && ValueOf(m', hi') == Some(Broadcast(x, one))
  {
    hide Good, Inv, Kept, Within, ProgramOf, StepConfig, Steps, At, HasType, PushNew, BroadcastConst, Broadcast, Floats;
    BroadcastConstGood(st2, lo, a.ty);
    BroadcastConstGood(st3, hi, a.ty);
    ExtendsTrans(st2, st3, st4);
    WithinExtends(st3, st4, fin);
    var k3, m3 := SimBroadcast(cx, g, fin, st2, lo, a.ty, env, m, x, zero);
    KeptValue(fin, st2.nextId, m, m3, hi);
    KeptValue(fin, st2.nextId, m, m3, a.id);
    var k4, m4 := SimBroadcast(cx, g, fin, st3, hi, a.ty, env, m3, x, one);
    KeptValue(fin, st3.nextId, m3, m4, lo');
    KeptValue(fin, st3.nextId, m3, m4, a.id);
    Then(cx, g, fin, st2, m, k3, st3, m3, k4, st4, m4);
    k, m' := k3 + k4, m4;
  }

  /** An extended instruction whose first operand has the result type. */
  lemma {:induction false} SimExt(
    cx: Cx, g: Globals, fin: St, st: St, ty: Type, fn: Fn, number: nat, ids: seq<Id>, env: Env, m: Mach, vs: seq<Value>)
    returns (m': Mach)
    requires Finished(cx, g, fin) && Good(st) && PushNew(st, OpExtInst(st.nextId, ty, number, ids)).Ok?
    requires Within(PushNew(st, OpExtInst(st.nextId, ty, number, ids)).value.0, fin) && Inv(cx, g, fin, env, st, m)
    requires FnOfNumber(number) == Some(fn) && fn != Length && ApplyFn(cx.fo, fn, vs).Some?
    requires |ids| == |vs| > 0 && HasType(cx.structs, vs[0], ty)
    requires forall i :: 0 <= i < |ids| ==> ValueOf(m, ids[i]) == Some(vs[i])
    ensures Computes(cx, g, fin, st, m, 1, PushNew(st, OpExtInst(st.nextId, ty, number, ids)).value.0, env, m',
                     Val(st.nextId, ty), ApplyFn(cx.fo, fn, vs).value)
  {
    hide Good, Inv, Kept, Within, ProgramOf, StepConfig, Steps, At, ApplyFn, HasType, PushNew;
    ValuesOfAt(m, ids, vs);
    ApplyFnTyped(cx.structs, cx.fo, fn, vs, 0, ty);
    m' := SimNew(cx, g, fin, st, OpExtInst(st.nextId, ty, number, ids), env, m, ApplyFn(cx.fo, fn, vs).value);
  }

  /** The emission of `saturate` step by step. */
  lemma {:induction false} SaturateParts(g: Globals, fin: St, st: St, a: Val)
    returns (st2: St, st3: St, lo': Id, st4: St, hi': Id)
    requires Good(st) && EmitSaturate(g, st, a).Ok? && Within(EmitSaturate(g, st, a).value.0, fin)
    ensures var st1 := AddConst(st, CFloat(F64_ZERO)).0;
      && st2 == AddConst(st1, CFloat(F64_ONE)).0 && st2.nextId == st.nextId + 2
      && Within(st1, fin) && Within(st2, fin) && Good(st2)
    ensures BroadcastConst(st2, st.nextId, a.ty) == Ok((st3, lo')) && BroadcastConst(st3, st.nextId + 1, a.ty) == Ok((st4, hi'))
    ensures Good(st4) && Within(st4, fin) && Extends(st2, st4)
    ensures var i := OpExtInst(st4.nextId, a.ty, FCLAMP, [a.id, lo', hi']);
      PushNew(st4, i).Ok? && EmitSaturate(g, st, a) == Ok((PushNew(st4, i).value.0, Val(st4.nextId, a.ty)))
  {
    hide Good, Within, BroadcastConst, PlainFrom;
    var (st1, lo) := AddConst(st, CFloat(F64_ZERO));
    AddConstGood(st, CFloat(F64_ZERO));
    var (two, hi) := AddConst(st1, CFloat(F64_ONE));
    st2 := two;
    AddConstGood(st1, CFloat(F64_ONE));
    var (three, low) := BroadcastConst(st2, lo, a.ty).value;
    st3, lo' := three, low;
    BroadcastConstGood(st2, lo, a.ty);
    var (four, high) := BroadcastConst(st3, hi, a.ty).value;
    st4, hi' := four, high;
    BroadcastConstGood(st3, hi, a.ty);
    var i := OpExtInst(st4.nextId, a.ty, FCLAMP, [a.id, lo', hi']);
    PushNewGood(st4, i);
    ExtendsTrans(st2, st3, st4);
    WithinExtends(st4, PushNew(st4, i).value.0, fin);
    WithinExtends(st2, st4, fin);
    WithinExtends(st1, st2, fin);
  }

  lemma {:induction false} SimSaturate(
    cx: Cx, g: Globals, fin: St, st: St, a: Val, env: Env, m: Mach, x: Value) returns (k: nat, m': Mach)
    requires Finished(cx, g, fin) && Good(st) && EmitSaturate(g, st, a).Ok?
    requires Within(EmitSaturate(g, st, a).value.0, fin) && Inv(cx, g, fin, env, st, m)
    requires a.id < st.nextId && ValueOf(m, a.id) == Some(x) && HasType(cx.structs, x, a.ty)
    requires SaturateValue(cx.fo, x).Some?
    ensures var (st', val) := EmitSaturate(g, st, a).value;
      Computes(cx, g, fin, st, m, k, st', env, m', val, SaturateValue(cx.fo, x).value)
  {
    var y, z := Broadcast(x, cx.fo.round(F64_ZERO)), Broadcast(x, cx.fo.round(F64_ONE));
    hide Good, Inv, Kept, Within, ProgramOf, StepConfig, Steps, At, ApplyFn, HasType, BroadcastConst, Broadcast, PushNew, EmitSaturate,
      Extends, Finished, ValueOf, AddConst;
    var st2, st3, lo', st4, hi' := SaturateParts(g, fin, st, a);
    var k4, m4 := SimBothBounds(cx, g, fin, st, a, st2, st3, lo', st4, hi', env, m, x);
    m' := SimClamp(cx, g, fin, st4, a.ty, a.id, lo', hi', env, m4, x, y, z);
    k := k4 + 1;
    var st5 := PushNew(st4, OpExtInst(st4.nextId, a.ty, FCLAMP, [a.id, lo', hi'])).value.0;
    Then(cx, g, fin, st, m, k4, st4, m4, 1, st5, m');
  }

  lemma {:induction false} SimBothBounds(
    cx: Cx, g: Globals, fin: St, st: St, a: Val, st2: St, st3: St, lo': Id, st4: St, hi': Id, env: Env, m: Mach, x: Value)
    returns (k: nat, m': Mach)
    requires Finished(cx, g, fin) && Inv(cx, g, fin, env, st, m)
    requires var st1 := AddConst(st, CFloat(F64_ZERO)).0;
      && st2 == AddConst(st1, CFloat(F64_ONE)).0 && st2.nextId == st.nextId + 2
      && Within(st1, fin) && Within(st2, fin) && Good(st2)
    requires BroadcastConst(st2, st.nextId, a.ty) == Ok((st3, lo')) && BroadcastConst(st3, st.nextId + 1, a.ty) == Ok((st4, hi'))
    requires Within(st4, fin) && Extends(st2, st4)
    requires a.id < st.nextId && ValueOf(m, a.id) == Some(x) && HasType(cx.structs, x, a.ty)
    requires SaturateValue(cx.fo, x).Some?
    ensures Steps(cx, At(fin, st, m), k) == At(fin, st4, m')
    ensures Inv(cx, g, fin, env, st4, m') && Kept(fin, st.nextId, m, m') && st.nextId <= st4.nextId
    ensures ValueOf(m', a.id) == Some(x)
    ensures ValueOf(m', lo') == Some(Broadcast(x, cx.fo.round(F64_ZERO)))
    ensures ValueOf(m', hi') == Some(Broadcast(x, cx.fo.round(F64_ONE)))
  {
    SaturateFloats(cx.fo, x);
    ExtendsNextId(st2, st4);
    hide Good, Inv, Kept, Within, ProgramOf, StepConfig, Steps, At, HasType, BroadcastConst, Broadcast, Floats, SaturateValue,
      Extends, Finished, ValueOf, AddConst;
    TwoConsts(cx, g, fin, env, st, CFloat(F64_ZERO), CFloat(F64_ONE), st2, m);
    k, m' := SimBounds(cx, g, fin, st2, a, st.nextId, st.nextId + 1, st3, lo', st4, hi', env, m, x,
                       cx.fo.round(F64_ZERO), cx.fo.round(F64_ONE));
    KeptSmaller(fin, st.nextId, st2.nextId, m, m');
  }

  lemma {:induction false} TwoConsts(cx: Cx, g: Globals, fin: St, env: Env, st: St, c: Const, d: Const, st2: St, m: Mach)
    requires Inv(cx, g, fin, env, st, m)
    requires var st1 := AddConst(st, c).0; st2 == AddConst(st1, d).0 && Within(st1, fin) && Within(st2, fin)
    ensures At(fin, st2, m) == At(fin, st, m) && Inv(cx, g, fin, env, st2, m)
    ensures ValueOf(m, st.nextId) == Some(ConstValue(cx.fo, c)) && ValueOf(m, st.nextId + 1) == Some(ConstValue(cx.fo, d))
  {
    hide Inv, Within, At, ConstValue, ValueOf;
    var st1 := AddConst(st, c).0;
    AddConstSame(cx, g, fin, env, st, c, m);
    AddConstSame(cx, g, fin, env, st1, d, m);
    ConstInPlace(cx, g, fin, env, st, c, m);
    ConstInPlace(cx, g, fin, env, st1, d, m);
  }

  lemma {:induction false} SimClamp(
    cx: Cx, g: Globals, fin: St, st: St, ty: Type, a: Id, lo: Id, hi: Id, env: Env, m: Mach, x: Value, y: Value, z: Value)
    returns (m': Mach)
    requires Finished(cx, g, fin) && Good(st) && PushNew(st, OpExtInst(st.nextId, ty, FCLAMP, [a, lo, hi])).Ok?
    requires Within(PushNew(st, OpExtInst(st.nextId, ty, FCLAMP, [a, lo, hi])).value.0, fin) && Inv(cx, g, fin, env, st, m)
    requires HasType(cx.structs, x, ty) && ApplyFn(cx.fo, FClamp, [x, y, z]).Some?
    requires ValueOf(m, a) == Some(x) && ValueOf(m, lo) == Some(y) && ValueOf(m, hi) == Some(z)
    ensures Computes(cx, g, fin, st, m, 1, PushNew(st, OpExtInst(st.nextId, ty, FCLAMP, [a, lo, hi])).value.0, env, m',
                     Val(st.nextId, ty), ApplyFn(cx.fo, FClamp, [x, y, z]).value)
  {
    hide Good, Inv, Within, ApplyFn, HasType, PushNew, ValueOf, Computes;
    m' := SimExt(cx, g, fin, st, ty, FClamp, FCLAMP, [a, lo, hi], env, m, [x, y, z]);
  }

  lemma {:induction false} ExtendsNextId(st: St, st': St)
    requires Extends(st, st')
    ensures st.nextId <= st'.nextId
  {
  }

  lemma {:induction false} SaturateFloats(fo: FloatOps, x: Value)
    requires SaturateValue(fo, x).Some?
    ensures Floats(x).Some?
  {
    var vs := [x, Broadcast(x, fo.round(F64_ZERO)), Broadcast(x, fo.round(F64_ONE))];
    assert AllFloats(vs).Some? && Floats(vs[0]).Some?;
  }

  lemma {:induction false} SimCall(
    cx: Cx, g: Globals, fin: St, st: St, name: string, vals: seq<Val>, env: Env, m: Mach, vs: seq<Value>)
    returns (k: nat, m': Mach)
    requires Finished(cx, g, fin) && Good(st) && FinishCall(g, st, name, vals).Ok? && st.open.Some?
    requires Within(FinishCall(g, st, name, vals).value.0, fin) && Inv(cx, g, fin, env, st, m)
    requires Holds(cx, m, st.nextId, vals, vs) && CallValue(cx.fo, name, vs).Some?
    ensures var (st', val) := FinishCall(g, st, name, vals).value;
      Computes(cx, g, fin, st, m, k, st', env, m', val, CallValue(cx.fo, name, vs).value)
  {
    hide Good, Ready, Agree, EnvTyped, Within, ProgramOf, StepConfig, ApplyFn, HasType;
    IntrinsicTablesAgree(name);
    var v := CallValue(cx.fo, name, vs).value;
    k := 1;
    if name == "saturate" {
      k, m' := SimSaturate(cx, g, fin, st, vals[0], env, m, vs[0]);
    } else if name == "dot" {
      DotTyped(cx.fo, cx.structs, vs[0], vs[1], vals[0].ty);
      m' := SimNew(cx, g, fin, st, OpDot(st.nextId, Scalar(vals[0].ty.kind), vals[0].id, vals[1].id), env, m, v);
    } else if name == "mul" {
      m' := SimArith(cx, g, fin, st, Mul, vals[0], vals[1], env, m, vs[0], vs[1]);
    } else {
      HoldsValues(cx, m, st.nextId, vals, vs);
      var (number, arity) := ExtInstOf(name).value;
      var ty := if name == "length" then Scalar(Float) else vals[|vals| - 1].ty;
      ApplyFnTyped(cx.structs, cx.fo, FnOfName(name).value, vs, |vs| - 1, vals[|vals| - 1].ty);
      m' := SimNew(cx, g, fin, st, OpExtInst(st.nextId, ty, number, Ids(vals)), env, m, v);
    }
  }

  lemma {:induction false} DotTyped(fo: FloatOps, structs: Structs, x: Value, y: Value, tx: Type)
    requires DotValue(fo, x, y).Some? && HasType(structs, x, tx)
    ensures tx.Vector? && tx.kind == Float && HasType(structs, DotValue(fo, x, y).value, Scalar(Float))
  {
    FloatsTyped(structs, x, tx);
  }

  // --- the theorem for expressions ---

  lemma {:induction false} SimExpr(cx: Cx, g: Globals, fin: St, st: St, e: Expr, env: Env, m: Mach)
    returns (k: nat, m': Mach)
    requires Finished(cx, g, fin) && Good(st) && EmitExpr(g, st, e).Ok? && st.open.Some?
    requires Within(EmitExpr(g, st, e).value.0, fin) && Inv(cx, g, fin, env, st, m)
    requires EvalExpr(cx.fo, cx.structs, env, e).Done?
    ensures var (st', val) := EmitExpr(g, st, e).value; var (v, env') := EvalExpr(cx.fo, cx.structs, env, e).value;
      Computes(cx, g, fin, st, m, k, st', env', m', val, v)
    decreases e, 2
  {
    hide Good, Inv, Kept, Within, ProgramOf, StepConfig, Steps, HasType, At, FinishCall, CallValue;
    match e
    case Lit(lit) =>
      k, m' := 0, m;
      SimLit(cx, g, fin, st, lit, env, m);
    case Ident(_) => k, m' := SimRead(cx, g, fin, st, e, env, m);
    case Member(_, _) => k, m' := SimMember(cx, g, fin, st, e, env, m);
    case Construct(_, _) => k, m' := SimConstruct(cx, g, fin, st, e, env, m);
    case Call(name, args) =>
      var (st1, vals) := EmitArgs(g, st, args).value;
      EmitArgsGood(g, st, args);
      FinishCallGood(g, st1, name, vals);
      WithinExtends(st1, EmitExpr(g, st, e).value.0, fin);
      var (vs, env1) := EvalArgs(cx.fo, cx.structs, env, args).value;
      var k1, m1 := SimArgs(cx, g, fin, st, args, env, m);
      var k2, m2 := SimCall(cx, g, fin, st1, name, vals, env1, m1, vs);
      k, m' := k1 + k2, m2;
      Then(cx, g, fin, st, m, k1, st1, m1, k2, EmitExpr(g, st, e).value.0, m2);
    case Unary(_, _) => k, m' := SimUnary(cx, g, fin, st, e, env, m);
    case Cast(_, _) => k, m' := SimCast(cx, g, fin, st, e, env, m);
    case Binary(op, _, _) =>
      if op == Assign {
        k, m' := SimAssign(cx, g, fin, st, e, env, m);
      } else if IsCompound(op) {
        k, m' := SimCompound(cx, g, fin, st, e, env, m);
      } else {
        k, m' := SimOperator(cx, g, fin, st, e, env, m);
      }
  }

  lemma {:induction false} SimRead(cx: Cx, g: Globals, fin: St, st: St, e: Expr, env: Env, m: Mach)
    returns (k: nat, m': Mach)
    requires Finished(cx, g, fin) && Good(st) && st.open.Some? && EmitPlace(g, st, e).Ok?
    requires EmitLoad(g, EmitPlace(g, st, e).value.0, EmitPlace(g, st, e).value.1).Ok?
    requires Within(EmitLoad(g, EmitPlace(g, st, e).value.0, EmitPlace(g, st, e).value.1).value.0, fin)
    requires Inv(cx, g, fin, env, st, m)
    requires PlaceOf(g.structs, env, e).Some? && ReadPlace(env, PlaceOf(g.structs, env, e).value).Some?
    ensures var (st1, pv) := EmitPlace(g, st, e).value; var (st', val) := EmitLoad(g, st1, pv).value;
      Computes(cx, g, fin, st, m, k, st', env, m', val, ReadPlace(env, PlaceOf(g.structs, env, e).value).value)
  {
    hide Good, Inv, Kept, Within, ProgramOf, StepConfig, HasType, Steps, At, EmitPlace, PlaceOf;
    var (st1, pv) := EmitPlace(g, st, e).value;
    var p := PlaceOf(g.structs, env, e).value;
    EmitPlaceGood(g, st, e);
    EmitLoadGood(g, st1, pv);
    WithinExtends(st1, EmitLoad(g, st1, pv).value.0, fin);
    PlaceVisible(g.structs, env, e);
    var k1, m1 := SimPlace(cx, g, fin, st, e, env, m);
    m' := RunLoad(cx, g, fin, st1, pv, env, p, m1);
    k := k1 + 1;
    Then(cx, g, fin, st, m, k1, st1, m1, 1, EmitLoad(g, st1, pv).value.0, m');
  }

  lemma {:induction false} SimMember(cx: Cx, g: Globals, fin: St, st: St, e: Expr, env: Env, m: Mach)
    returns (k: nat, m': Mach)
    requires e.Member? && Finished(cx, g, fin) && Good(st) && EmitExpr(g, st, e).Ok? && st.open.Some?
    requires Within(EmitExpr(g, st, e).value.0, fin) && Inv(cx, g, fin, env, st, m)
    requires EvalExpr(cx.fo, cx.structs, env, e).Done?
    ensures var (st', val) := EmitExpr(g, st, e).value; var (v, env') := EvalExpr(cx.fo, cx.structs, env, e).value;
      Computes(cx, g, fin, st, m, k, st', env', m', val, v)
    decreases e, 1
  {
    hide Good, Inv, Kept, Within, ProgramOf, StepConfig, Steps, At, EmitLoad, EmitSwizzle, SwizzleValue, HasType, TypesAgree, EnvTyped;
    var bt := InferType(g, st.locals, e.base).value;
    InvTypes(cx, g, fin, env, st, m);
    if PlaceOf(g.structs, env, e).Some? {
      PlaceInferred(g, env, st.locals, e.base);
      k, m' := SimRead(cx, g, fin, st, e, env, m);
    } else {
      k, m' := SimSwizzled(cx, g, fin, st, e, env, m);
    }
  }

  lemma {:induction false} InvTypes(cx: Cx, g: Globals, fin: St, env: Env, st: St, m: Mach)
    requires Inv(cx, g, fin, env, st, m)
    ensures TypesAgree(env, st.locals) && EnvTyped(cx.structs, env)
  {
    AgreeTypes(env, st.locals, m.mem);
  }

  /** A swizzle of a value. */
  lemma {:induction false} SimSwizzled(cx: Cx, g: Globals, fin: St, st: St, e: Expr, env: Env, m: Mach)
    returns (k: nat, m': Mach)
    requires e.Member? && Finished(cx, g, fin) && Good(st) && EmitExpr(g, st, e).Ok? && st.open.Some?
    requires Within(EmitExpr(g, st, e).value.0, fin) && Inv(cx, g, fin, env, st, m)
    requires EvalExpr(cx.fo, cx.structs, env, e).Done? && PlaceOf(g.structs, env, e).None?
    ensures var (st', val) := EmitExpr(g, st, e).value; var (v, env') := EvalExpr(cx.fo, cx.structs, env, e).value;
      Computes(cx, g, fin, st, m, k, st', env', m', val, v)
    decreases e, 0
  {
    hide Good, Inv, Kept, Within, ProgramOf, StepConfig, Steps, At, EmitSwizzle, SwizzleValue, EmitExpr, EvalExpr, InferType, PlaceOf,
      HasType, InferredRight, TypesAgree, EnvTyped;
    SwizzleBase(cx, g, st, e, env);
    InvTypes(cx, g, fin, env, st, m);
    InferSound(cx.fo, g, env, st.locals, e.base);
    SwizzleParts(cx, g, st, e, env);
    var bt := InferType(g, st.locals, e.base).value;
    var (b, env1) := EvalExpr(cx.fo, cx.structs, env, e.base).value;
    var (st1, bv) := EmitExpr(g, st, e.base).value;
    EmitExprGood(g, st, e.base);
    EmitSwizzleGood(st1, bv, e.member, bt.kind);
    WithinExtends(st1, EmitExpr(g, st, e).value.0, fin);
    var k1, m1 := SimExpr(cx, g, fin, st, e.base, env, m);
    m' := SimSwizzle(cx, g, fin, st1, bv, e.member, bt.kind, bt.n, env1, m1, b);
    k := k1 + 1;
    Then(cx, g, fin, st, m, k1, st1, m1, 1, EmitExpr(g, st, e).value.0, m');
  }

  lemma {:induction false} SwizzleBase(cx: Cx, g: Globals, st: St, e: Expr, env: Env)
    requires e.Member? && EmitExpr(g, st, e).Ok? && cx.structs == g.structs
    requires EvalExpr(cx.fo, cx.structs, env, e).Done? && PlaceOf(g.structs, env, e).None?
    ensures EvalExpr(cx.fo, cx.structs, env, e.base).Done? && InferType(g, st.locals, e.base).Ok?
  {
  }

  lemma {:induction false} SwizzleParts(cx: Cx, g: Globals, st: St, e: Expr, env: Env)
    requires e.Member? && EmitExpr(g, st, e).Ok? && cx.structs == g.structs
    requires EvalExpr(cx.fo, cx.structs, env, e).Done? && PlaceOf(g.structs, env, e).None?
    requires InferredRight(g.structs, InferType(g, st.locals, e.base).value, EvalExpr(cx.fo, g.structs, env, e.base).value.0)
    ensures EvalExpr(cx.fo, cx.structs, env, e.base).Done? && EmitExpr(g, st, e.base).Ok?
    ensures InferType(g, st.locals, e.base).Ok? && InferType(g, st.locals, e.base).value.Vector?
    ensures var (b, env1) := EvalExpr(cx.fo, cx.structs, env, e.base).value; var (st1, bv) := EmitExpr(g, st, e.base).value;
      var bt := InferType(g, st.locals, e.base).value;
      && SwizzleValue(b, e.member).Some? && EvalExpr(cx.fo, cx.structs, env, e) == Done((SwizzleValue(b, e.member).value, env1))
      && EmitSwizzle(st1, bv, e.member, bt.kind).Ok? && EmitExpr(g, st, e) == EmitSwizzle(st1, bv, e.member, bt.kind)
      && HasType(g.structs, b, bt)
  {
    hide EmitSwizzle;
  }

  lemma {:induction false} SimConstructScalar(cx: Cx, g: Globals, fin: St, st: St, e: Expr, env: Env, m: Mach)
    returns (k: nat, m': Mach)
    requires e.Construct? && e.ty.Scalar? && Finished(cx, g, fin) && Good(st) && EmitExpr(g, st, e).Ok? && st.open.Some?
    requires Within(EmitExpr(g, st, e).value.0, fin) && Inv(cx, g, fin, env, st, m)
    requires EvalExpr(cx.fo, cx.structs, env, e).Done?
    ensures var (st', val) := EmitExpr(g, st, e).value; var (v, env') := EvalExpr(cx.fo, cx.structs, env, e).value;
      Computes(cx, g, fin, st, m, k, st', env', m', val, v)
    decreases e, 0
  {
    hide Good, Inv, Kept, Within, ProgramOf, StepConfig, Steps, HasType, At;
    var (vs, env1) := EvalArgs(cx.fo, cx.structs, env, e.args).value;
    var st' := EmitExpr(g, st, e).value.0;
    SingleArg(cx.fo, cx.structs, env, e.args);
    var (st1, a) := EmitExpr(g, st, e.args[0]).value;
    EmitExprGood(g, st, e.args[0]);
    if e.ty.kind == Float {
      k, m' := SimExpr(cx, g, fin, st, e.args[0], env, m);
    } else {
      CoerceScalarGood(st1, a, e.ty.kind);
      WithinExtends(st1, st', fin);
      var k1, m1 := SimExpr(cx, g, fin, st, e.args[0], env, m);
      var k2, m2 := SimCoerceScalar(cx, g, fin, st1, a, e.ty.kind, env1, m1, vs[0]);
      k, m' := k1 + k2, m2;
      Then(cx, g, fin, st, m, k1, st1, m1, k2, st', m2);
    }
  }

  lemma {:induction false} SingleArg(fo: FloatOps, structs: Structs, env: Env, args: seq<Expr>)
    requires |args| == 1 && EvalArgs(fo, structs, env, args).Done?
    ensures var (vs, env1) := EvalArgs(fo, structs, env, args).value;
      EvalExpr(fo, structs, env, args[0]) == Done((vs[0], env1))
  {
    assert args[1..] == [];
  }

  lemma {:induction false} SimConstruct(cx: Cx, g: Globals, fin: St, st: St, e: Expr, env: Env, m: Mach)
    returns (k: nat, m': Mach)
    requires e.Construct? && Finished(cx, g, fin) && Good(st) && EmitExpr(g, st, e).Ok? && st.open.Some?
    requires Within(EmitExpr(g, st, e).value.0, fin) && Inv(cx, g, fin, env, st, m)
    requires EvalExpr(cx.fo, cx.structs, env, e).Done?
    ensures var (st', val) := EmitExpr(g, st, e).value; var (v, env') := EvalExpr(cx.fo, cx.structs, env, e).value;
      Computes(cx, g, fin, st, m, k, st', env', m', val, v)
    decreases e, 1
  {
    hide Good, Inv, Kept, Within, ProgramOf, StepConfig, Steps, HasType, At, Holds, ConstructValue, Assemble,
      EmitArgs, EvalArgs;
    var (vs, env1) := EvalArgs(cx.fo, cx.structs, env, e.args).value;
    var st' := EmitExpr(g, st, e).value.0;
    if e.ty.Scalar? {
      k, m' := SimConstructScalar(cx, g, fin, st, e, env, m);
    } else {
      var (st1, vals) := EmitArgs(g, st, e.args).value;
      EmitArgsGood(g, st, e.args);
      AssembleGood(st1, e.ty, vals);
      WithinExtends(st1, st', fin);
      var k1, m1 := SimArgs(cx, g, fin, st, e.args, env, m);
      m' := SimAssemble(cx, g, fin, st1, e.ty, vals, env1, m1, vs);
      k := k1 + 1;
      Then(cx, g, fin, st, m, k1, st1, m1, 1, st', m');
    }
  }

  lemma {:induction false} SimUnary(cx: Cx, g: Globals, fin: St, st: St, e: Expr, env: Env, m: Mach)
    returns (k: nat, m': Mach)
    requires e.Unary? && Finished(cx, g, fin) && Good(st) && EmitExpr(g, st, e).Ok? && st.open.Some?
    requires Within(EmitExpr(g, st, e).value.0, fin) && Inv(cx, g, fin, env, st, m)
    requires EvalExpr(cx.fo, cx.structs, env, e).Done?
    ensures var (st', val) := EmitExpr(g, st, e).value; var (v, env') := EvalExpr(cx.fo, cx.structs, env, e).value;
      Computes(cx, g, fin, st, m, k, st', env', m', val, v)
    decreases e, 0
  {
    hide Good, Inv, Kept, Within, ProgramOf, StepConfig, HasType, Steps, At, UnaryOpcode, EmitExpr, EvalExpr, UnaryFn, UnFn, Lift2;
    UnaryParts(g, st, e);
    UnaryEval(cx.fo, cx.structs, env, e);
    var (st1, a) := EmitExpr(g, st, e.expr).value;
    EmitExprGood(g, st, e.expr);
    var (x, env1) := EvalExpr(cx.fo, cx.structs, env, e.expr).value;
    var i := OpUn(st1.nextId, UnaryOpcode(e.uop, a.ty).value, a.ty, a.id);
    PushNewGood(st1, i);
    WithinExtends(st1, PushNew(st1, i).value.0, fin);
    var k1, m1 := SimExpr(cx, g, fin, st, e.expr, env, m);
    UnaryAgrees(cx.fo, cx.structs, e.uop, a.ty, x);
    m' := SimNew(cx, g, fin, st1, i, env1, m1, Lift2(UnaryFn(cx.fo, e.uop), x, x).value);
    k := k1 + 1;
    Then(cx, g, fin, st, m, k1, st1, m1, 1, PushNew(st1, i).value.0, m');
  }

  lemma {:induction false} UnaryEval(fo: FloatOps, structs: Structs, env: Env, e: Expr)
    requires e.Unary? && EvalExpr(fo, structs, env, e).Done?
    ensures EvalExpr(fo, structs, env, e.expr).Done?
    ensures var (x, env1) := EvalExpr(fo, structs, env, e.expr).value;
      Lift2(UnaryFn(fo, e.uop), x, x).Some? && EvalExpr(fo, structs, env, e) == Done((Lift2(UnaryFn(fo, e.uop), x, x).value, env1))
  {
  }

  /** The emission of a unary operator. */
  lemma {:induction false} UnaryParts(g: Globals, st: St, e: Expr)
    requires e.Unary? && EmitExpr(g, st, e).Ok?
    ensures EmitExpr(g, st, e.expr).Ok?
    ensures var (st1, a) := EmitExpr(g, st, e.expr).value;
      && UnaryOpcode(e.uop, a.ty).Some?
      && var i := OpUn(st1.nextId, UnaryOpcode(e.uop, a.ty).value, a.ty, a.id);
         PushNew(st1, i).Ok? && EmitExpr(g, st, e) == Ok((PushNew(st1, i).value.0, Val(st1.nextId, a.ty)))
  {
    hide UnaryOpcode;
  }

  lemma {:induction false} SimCast(cx: Cx, g: Globals, fin: St, st: St, e: Expr, env: Env, m: Mach)
    returns (k: nat, m': Mach)
    requires e.Cast? && Finished(cx, g, fin) && Good(st) && EmitExpr(g, st, e).Ok? && st.open.Some?
    requires Within(EmitExpr(g, st, e).value.0, fin) && Inv(cx, g, fin, env, st, m)
    requires EvalExpr(cx.fo, cx.structs, env, e).Done?
    ensures var (st', val) := EmitExpr(g, st, e).value; var (v, env') := EvalExpr(cx.fo, cx.structs, env, e).value;
      Computes(cx, g, fin, st, m, k, st', env', m', val, v)
    decreases e, 0
  {
    hide Good, Inv, Kept, Within, ProgramOf, StepConfig, Steps, At;
    var (st1, a) := EmitExpr(g, st, e.expr).value;
    EmitExprGood(g, st, e.expr);
    var (x, env1) := EvalExpr(cx.fo, cx.structs, env, e.expr).value;
    if a.ty == e.ty {
      k, m' := SimExpr(cx, g, fin, st, e.expr, env, m);
    } else {
      var i := OpUn(st1.nextId, ConvertOpcode(a.ty.kind, e.ty.kind).value, e.ty, a.id);
      PushNewGood(st1, i);
      WithinExtends(st1, PushNew(st1, i).value.0, fin);
      var k1, m1 := SimExpr(cx, g, fin, st, e.expr, env, m);
      ConvertAgrees(cx.fo, x.e, e.ty.kind);
      ConvertedKind(cx.fo, x.e, e.ty.kind);
      m' := SimNew(cx, g, fin, st1, i, env1, m1, VScalar(ConvertElem(cx.fo, x.e, e.ty.kind)));
      k := k1 + 1;
      Then(cx, g, fin, st, m, k1, st1, m1, 1, PushNew(st1, i).value.0, m');
    }
  }

  lemma {:induction false} SimOperator(cx: Cx, g: Globals, fin: St, st: St, e: Expr, env: Env, m: Mach)
    returns (k: nat, m': Mach)
    requires e.Binary? && e.op != Assign && !IsCompound(e.op)
    requires Finished(cx, g, fin) && Good(st) && EmitExpr(g, st, e).Ok? && st.open.Some?
    requires Within(EmitExpr(g, st, e).value.0, fin) && Inv(cx, g, fin, env, st, m)
    requires EvalExpr(cx.fo, cx.structs, env, e).Done?
    ensures var (st', val) := EmitExpr(g, st, e).value; var (v, env') := EvalExpr(cx.fo, cx.structs, env, e).value;
      Computes(cx, g, fin, st, m, k, st', env', m', val, v)
    decreases e, 0
  {
    hide Good, Inv, Kept, Within, ProgramOf, StepConfig, Steps, HasType, At, EmitExpr, EvalExpr, FinishOperator,
      BinaryValue;
    OperatorParts(cx, g, st, e, env);
    var (st1, a) := EmitExpr(g, st, e.lhs).value;
    EmitExprGood(g, st, e.lhs);
    var (st2, b) := EmitExpr(g, st1, e.rhs).value;
    EmitExprGood(g, st1, e.rhs);
    var st' := EmitExpr(g, st, e).value.0;
    FinishOperatorGood(g, st2, e.op, a, b);
    WithinExtends(st2, st', fin);
    WithinExtends(st1, st2, fin);
    var (x, env1) := EvalExpr(cx.fo, cx.structs, env, e.lhs).value;
    var (y, env2) := EvalExpr(cx.fo, cx.structs, env1, e.rhs).value;
    var k1, m1 := SimExpr(cx, g, fin, st, e.lhs, env, m);
    var k2, m2 := SimExpr(cx, g, fin, st1, e.rhs, env1, m1);
    KeptValue(fin, st1.nextId, m1, m2, a.id);
    m' := SimFinishOperator(cx, g, fin, st2, e.op, a, b, env2, m2, x, y);
    k := k1 + k2 + 1;
    Then(cx, g, fin, st, m, k1, st1, m1, k2, st2, m2);
    Then(cx, g, fin, st, m, k1 + k2, st2, m2, 1, st', m');
  }

  lemma {:induction false} OperatorParts(cx: Cx, g: Globals, st: St, e: Expr, env: Env)
    requires e.Binary? && e.op != Assign && !IsCompound(e.op)
    requires EmitExpr(g, st, e).Ok? && EvalExpr(cx.fo, cx.structs, env, e).Done?
    ensures EmitExpr(g, st, e.lhs).Ok? && EvalExpr(cx.fo, cx.structs, env, e.lhs).Done?
    ensures var (st1, a) := EmitExpr(g, st, e.lhs).value; var (x, env1) := EvalExpr(cx.fo, cx.structs, env, e.lhs).value;
      && EmitExpr(g, st1, e.rhs).Ok? && EvalExpr(cx.fo, cx.structs, env1, e.rhs).Done?
      && var (st2, b) := EmitExpr(g, st1, e.rhs).value; var (y, env2) := EvalExpr(cx.fo, cx.structs, env1, e.rhs).value;
         && EmitExpr(g, st, e) == FinishOperator(g, st2, e.op, a, b)
         && BinaryValue(cx.fo, e.op, x, y).Some?
         && EvalExpr(cx.fo, cx.structs, env, e) == Done((BinaryValue(cx.fo, e.op, x, y).value, env2))
  {
  }

  /** The last step of a binary operator, its operands being in registers. */
  function FinishOperator(g: Globals, st: St, op: BinaryOp, a: Val, b: Val): Result<(St, Val)> {
    if IsComparison(op) then EmitComparison(st, op, a, b)
    else if op in {And, Or} then
      var (st1, id) :- PushNew(st, OpBin(st.nextId, if op == And then LogicalAnd else LogicalOr, Scalar(Bool), a.id, b.id));
      Ok((st1, Val(id, Scalar(Bool))))
    else EmitArith(g, st, op, a, b)
  }

  lemma {:induction false} FinishOperatorGood(g: Globals, st: St, op: BinaryOp, a: Val, b: Val)
    requires Good(st) && FinishOperator(g, st, op, a, b).Ok?
    ensures Extends(st, FinishOperator(g, st, op, a, b).value.0)
  {
    if IsComparison(op) {
      EmitComparisonGood(st, op, a, b);
    } else if op in {And, Or} {
      PushNewGood(st, OpBin(st.nextId, if op == And then LogicalAnd else LogicalOr, Scalar(Bool), a.id, b.id));
    } else {
      EmitArithGood(g, st, op, a, b);
    }
  }

  lemma {:induction false} SimFinishOperator(
    cx: Cx, g: Globals, fin: St, st: St, op: BinaryOp, a: Val, b: Val, env: Env, m: Mach, x: Value, y: Value)
    returns (m': Mach)
    requires Finished(cx, g, fin) && Good(st) && FinishOperator(g, st, op, a, b).Ok?
    requires Within(FinishOperator(g, st, op, a, b).value.0, fin) && Inv(cx, g, fin, env, st, m)
    requires ValueOf(m, a.id) == Some(x) && ValueOf(m, b.id) == Some(y)
    requires HasType(cx.structs, x, a.ty) && HasType(cx.structs, y, b.ty)
    requires BinaryValue(cx.fo, op, x, y).Some?
    ensures var (st', val) := FinishOperator(g, st, op, a, b).value;
      Computes(cx, g, fin, st, m, 1, st', env, m', val, BinaryValue(cx.fo, op, x, y).value)
  {
    hide Good, Ready, Agree, EnvTyped, Within, ProgramOf, StepConfig, HasType;
    if IsComparison(op) {
      m' := SimComparison(cx, g, fin, st, op, a, b, env, m, x, y);
    } else if op in {And, Or} {
      LogicalAgrees(cx.fo, cx.structs, op, x, y);
      var i := OpBin(st.nextId, if op == And then LogicalAnd else LogicalOr, Scalar(Bool), a.id, b.id);
      m' := SimNew(cx, g, fin, st, i, env, m, BinaryValue(cx.fo, op, x, y).value);
    } else {
      m' := SimArith(cx, g, fin, st, op, a, b, env, m, x, y);
    }
  }

  lemma {:induction false} SimAssign(cx: Cx, g: Globals, fin: St, st: St, e: Expr, env: Env, m: Mach)
    returns (k: nat, m': Mach)
    requires e.Binary? && e.op == Assign
    requires Finished(cx, g, fin) && Good(st) && EmitExpr(g, st, e).Ok? && st.open.Some?
    requires Within(EmitExpr(g, st, e).value.0, fin) && Inv(cx, g, fin, env, st, m)
    requires EvalExpr(cx.fo, cx.structs, env, e).Done?
    ensures var (st', val) := EmitExpr(g, st, e).value; var (v, env') := EvalExpr(cx.fo, cx.structs, env, e).value;
      Computes(cx, g, fin, st, m, k, st', env', m', val, v)
    decreases e, 0
  {
    hide Good, Inv, Kept, Within, ProgramOf, StepConfig, Steps, HasType, At, Push, Coerce, ConvertTo, WritePlace,
      PathType, EmitExpr, EvalExpr, ConstsKept;
    AssignParts(cx, g, st, e, env);
    var p := PlaceOf(g.structs, env, e.lhs).value;
    var (a, env1) := EvalExpr(cx.fo, cx.structs, env, e.rhs).value;
    var v := ConvertTo(cx.fo, cx.structs, a, p.ty).value;
    var (st1, pv) := EmitPlace(g, st, e.lhs).value;
    EmitPlaceGood(g, st, e.lhs);
    var (st2, av) := EmitExpr(g, st1, e.rhs).value;
    EmitExprGood(g, st1, e.rhs);
    var (st3, w) := Coerce(st2, av, pv.ty).value;
    CoerceGood(st2, av, pv.ty);
    var i := OpStore(pv.id, w.id);
    var st4 := Push(st3, i).value;
    PushGood(st3, i);
    WithinExtends(st3, st4, fin);
    WithinExtends(st2, st3, fin);
    WithinExtends(st1, st2, fin);
    var k1, m1 := SimPlace(cx, g, fin, st, e.lhs, env, m);
    var k2, m2 := SimExpr(cx, g, fin, st1, e.rhs, env, m1);
    EvalKeepsPlace(cx, g, fin, env, st, m, e.lhs, e.rhs);
    PointsToKept(env, env1, st.locals, fin, st1.nextId, m1, m2, pv.id, p);
    var k3, m3 := SimCoerce(cx, g, fin, st2, av, p.ty, env1, m2, a);
    PointsToKept(env1, env1, st.locals, fin, st2.nextId, m2, m3, pv.id, p);
    ConvertToTyped(cx.fo, cx.structs, a, p.ty);
    m' := RunStore(cx, g, fin, st3, i, env1, p, m3, v);
    k := k1 + k2 + k3 + 1;
    Then(cx, g, fin, st, m, k1, st1, m1, k2, st2, m2);
    Then(cx, g, fin, st, m, k1 + k2, st2, m2, k3, st3, m3);
    Then(cx, g, fin, st, m, k1 + k2 + k3, st3, m3, 1, st4, m');
  }

  lemma {:induction false} AssignParts(cx: Cx, g: Globals, st: St, e: Expr, env: Env)
    requires e.Binary? && e.op == Assign && cx.structs == g.structs
    requires EmitExpr(g, st, e).Ok? && EvalExpr(cx.fo, cx.structs, env, e).Done?
    ensures PlaceOf(g.structs, env, e.lhs).Some? && EvalExpr(cx.fo, cx.structs, env, e.rhs).Done?
    ensures var p := PlaceOf(g.structs, env, e.lhs).value;
            var (a, env1) := EvalExpr(cx.fo, cx.structs, env, e.rhs).value;
            && ConvertTo(cx.fo, cx.structs, a, p.ty).Some?
            && var v := ConvertTo(cx.fo, cx.structs, a, p.ty).value;
               EvalExpr(cx.fo, cx.structs, env, e) == Done((v, WritePlace(env1, p, v)))
    ensures EmitPlace(g, st, e.lhs).Ok?
    ensures var (st1, pv) := EmitPlace(g, st, e.lhs).value;
            && EmitExpr(g, st1, e.rhs).Ok?
            && var (st2, av) := EmitExpr(g, st1, e.rhs).value;
               && Coerce(st2, av, pv.ty).Ok?
               && var (st3, w) := Coerce(st2, av, pv.ty).value;
                  && Push(st3, OpStore(pv.id, w.id)).Ok?
                  && EmitExpr(g, st, e) == Ok((Push(st3, OpStore(pv.id, w.id)).value, w))
  {
  }

  lemma {:induction false} SimCompound(cx: Cx, g: Globals, fin: St, st: St, e: Expr, env: Env, m: Mach)
    returns (k: nat, m': Mach)
    requires e.Binary? && IsCompound(e.op)
    requires Finished(cx, g, fin) && Good(st) && EmitExpr(g, st, e).Ok? && st.open.Some?
    requires Within(EmitExpr(g, st, e).value.0, fin) && Inv(cx, g, fin, env, st, m)
    requires EvalExpr(cx.fo, cx.structs, env, e).Done?
    ensures var (st', val) := EmitExpr(g, st, e).value; var (v, env') := EvalExpr(cx.fo, cx.structs, env, e).value;
      Computes(cx, g, fin, st, m, k, st', env', m', val, v)
    decreases e, 0
  {
    hide Good, Inv, Kept, Within, ProgramOf, StepConfig, Steps, HasType, At, Push, EmitLoad, EmitArith, ArithValue,
      CompoundValue, ValueResult, WritePlace, PathType, ReadPlace, EmitExpr, EvalExpr, ConstsKept;
    CompoundParts(cx, g, st, e, env);
    var op := CoreOp(e.op);
    var p := PlaceOf(g.structs, env, e.lhs).value;
    var cur := ReadPlace(env, p).value;
    var (a, env1) := EvalExpr(cx.fo, cx.structs, env, e.rhs).value;
    var v := CompoundValue(cx.fo, op, p.ty, cur, a).value;
    CompoundTyped(cx.fo, cx.structs, op, p.ty, cur, a);
    var (st1, pv) := EmitPlace(g, st, e.lhs).value;
    EmitPlaceGood(g, st, e.lhs);
    var (st2, cv) := EmitLoad(g, st1, pv).value;
    EmitLoadGood(g, st1, pv);
    var (st3, av) := EmitExpr(g, st2, e.rhs).value;
    EmitExprGood(g, st2, e.rhs);
    var (st4, r) := EmitArith(g, st3, op, cv, av).value;
    EmitArithGood(g, st3, op, cv, av);
    var i := OpStore(pv.id, r.id);
    var st5 := Push(st4, i).value;
    PushGood(st4, i);
    WithinExtends(st4, st5, fin);
    WithinExtends(st3, st4, fin);
    WithinExtends(st2, st3, fin);
    WithinExtends(st1, st2, fin);
    PlaceVisible(g.structs, env, e.lhs);
    var k1, m1 := SimPlace(cx, g, fin, st, e.lhs, env, m);
    var m2 := RunLoad(cx, g, fin, st1, pv, env, p, m1);
    PointsToKept(env, env, st.locals, fin, st1.nextId, m1, m2, pv.id, p);
    var k3, m3 := SimExpr(cx, g, fin, st2, e.rhs, env, m2);
    EvalKeepsPlace(cx, g, fin, env, st, m, e.lhs, e.rhs);
    PointsToKept(env, env1, st.locals, fin, st2.nextId, m2, m3, pv.id, p);
    KeptValue(fin, st2.nextId, m2, m3, cv.id);
    var m4 := SimCompoundArith(cx, g, fin, st3, op, cv, av, env1, m3, cur, a);
    PointsToKept(env1, env1, st.locals, fin, st3.nextId, m3, m4, pv.id, p);
    m' := RunStore(cx, g, fin, st4, i, env1, p, m4, v);
    k := k1 + 1 + k3 + 1 + 1;
    Then(cx, g, fin, st, m, k1, st1, m1, 1, st2, m2);
    Then(cx, g, fin, st, m, k1 + 1, st2, m2, k3, st3, m3);
    Then(cx, g, fin, st, m, k1 + 1 + k3, st3, m3, 1, st4, m4);
    Then(cx, g, fin, st, m, k1 + 1 + k3 + 1, st4, m4, 1, st5, m');
  }

  lemma {:induction false} CompoundParts(cx: Cx, g: Globals, st: St, e: Expr, env: Env)
    requires e.Binary? && IsCompound(e.op) && cx.structs == g.structs
    requires EmitExpr(g, st, e).Ok? && EvalExpr(cx.fo, cx.structs, env, e).Done?
    ensures PlaceOf(g.structs, env, e.lhs).Some? && EvalExpr(cx.fo, cx.structs, env, e.rhs).Done?
    ensures var p := PlaceOf(g.structs, env, e.lhs).value; var (a, env1) := EvalExpr(cx.fo, cx.structs, env, e.rhs).value;
      && ReadPlace(env, p).Some? && CompoundValue(cx.fo, CoreOp(e.op), p.ty, ReadPlace(env, p).value, a).Some?
      && var v := CompoundValue(cx.fo, CoreOp(e.op), p.ty, ReadPlace(env, p).value, a).value;
         EvalExpr(cx.fo, cx.structs, env, e) == Done((v, WritePlace(env1, p, v)))
    ensures EmitPlace(g, st, e.lhs).Ok?
    ensures var (st1, pv) := EmitPlace(g, st, e.lhs).value;
            && EmitLoad(g, st1, pv).Ok?
            && var (st2, cv) := EmitLoad(g, st1, pv).value;
               && EmitExpr(g, st2, e.rhs).Ok?
               && var (st3, av) := EmitExpr(g, st2, e.rhs).value;
                  && EmitArith(g, st3, CoreOp(e.op), cv, av).Ok?
                  && var (st4, r) := EmitArith(g, st3, CoreOp(e.op), cv, av).value;
                     && Push(st4, OpStore(pv.id, r.id)).Ok?
                     && EmitExpr(g, st, e) == Ok((Push(st4, OpStore(pv.id, r.id)).value, r))
  {
  }

  /** Evaluating the right-hand side leaves the place of an assignment where it was. */
  lemma {:induction false} EvalKeepsPlace(cx: Cx, g: Globals, fin: St, env: Env, st: St, m: Mach, lhs: Expr, rhs: Expr)
    requires Inv(cx, g, fin, env, st, m) && cx.structs == g.structs
    requires PlaceOf(g.structs, env, lhs).Some? && EvalExpr(cx.fo, cx.structs, env, rhs).Done?
    ensures var p := PlaceOf(g.structs, env, lhs).value; var env1 := EvalExpr(cx.fo, cx.structs, env, rhs).value.1;
      && SameNames(env, env1)
      && PathType(cx.structs, env1[p.index].ty, p.path) == Some(p.ty)
      && LookupEnv(env1, env1[p.index].name) == Some(p.index)
  {
    var p := PlaceOf(g.structs, env, lhs).value;
    EvalKeeps(cx.fo, cx.structs, env, rhs);
    PlaceVisible(g.structs, env, lhs);
    LookupSameNames(env, EvalExpr(cx.fo, cx.structs, env, rhs).value.1, env[p.index].name);
  }

  lemma {:induction false} PointsToKept(
    env: Env, env': Env, locals: seq<Local>, fin: St, limit: Id, m: Mach, m': Mach, id: Id, p: Place)
    requires PointsTo(env, locals, m, id, p) && SameNames(env, env') && Kept(fin, limit, m, m') && id < limit
    ensures PointsTo(env', locals, m', id, p)
  {
  }

  lemma {:induction false} SimArgs(cx: Cx, g: Globals, fin: St, st: St, args: seq<Expr>, env: Env, m: Mach)
    returns (k: nat, m': Mach)
    requires Finished(cx, g, fin) && Good(st) && EmitArgs(g, st, args).Ok? && st.open.Some?
    requires Within(EmitArgs(g, st, args).value.0, fin) && Inv(cx, g, fin, env, st, m)
    requires EvalArgs(cx.fo, cx.structs, env, args).Done?
    ensures var (st', vals) := EmitArgs(g, st, args).value; var (vs, env') := EvalArgs(cx.fo, cx.structs, env, args).value;
      && Steps(cx, At(fin, st, m), k) == At(fin, st', m')
      && Inv(cx, g, fin, env', st', m') && Kept(fin, st.nextId, m, m') && Holds(cx, m', st'.nextId, vals, vs)
    decreases args, 0
  {
    hide Good, Ready, Agree, EnvTyped, Within, ProgramOf, StepConfig, HasType, EmitExpr, EvalExpr;
    if args == [] {
      k, m' := 0, m;
    } else {
      var (st1, val) := EmitExpr(g, st, args[0]).value;
      EmitExprGood(g, st, args[0]);
      var (st2, vals) := EmitArgs(g, st1, args[1..]).value;
      EmitArgsGood(g, st1, args[1..]);
      WithinExtends(st1, st2, fin);
      var (v, env1) := EvalExpr(cx.fo, cx.structs, env, args[0]).value;
      var (vs, env2) := EvalArgs(cx.fo, cx.structs, env1, args[1..]).value;
      var k1, m1 := SimExpr(cx, g, fin, st, args[0], env, m);
      var k2, m2 := SimArgs(cx, g, fin, st1, args[1..], env1, m1);
      k, m' := k1 + k2, m2;
      Then(cx, g, fin, st, m, k1, st1, m1, k2, st2, m2);
      KeptValue(fin, st1.nextId, m1, m2, val.id);
    }
  }
}
