/** What every emission step keeps: ids are fresh and defined once, blocks are properly opened and closed,
    and emitted code is never changed afterwards. */
module EmitterFacts {
  import opened Wrappers
  import opened Ast
  import opened Values
  import opened SpirvMachine
  import opened EmitterSpec

  // --- the invariant ---

  ghost predicate IdsFresh(st: St) {
    && st.first <= st.nextId
    && (forall c :: c in st.consts ==> c < st.nextId)
    && (forall i :: 0 <= i < |st.vars| ==>
          st.first <= st.vars[i].id < st.nextId && st.vars[i].id !in st.consts)
    && (forall i, j :: 0 <= i < j < |st.vars| ==> st.vars[i].id != st.vars[j].id)
  }

  ghost predicate LocalsBacked(st: St) {
    && (forall i :: 0 <= i < |st.locals| ==> Var(st.locals[i].ptr, st.locals[i].ty) in st.vars)
    && (forall i, j :: 0 <= i < j < |st.locals| ==> st.locals[i].ptr != st.locals[j].ptr)
  }

  /** A definition inside a block: below the counter and neither a constant nor a variable. */
  ghost predicate DefOk(st: St, d: Option<Id>) {
    d.Some? ==>
      && st.first <= d.value < st.nextId && d.value !in st.consts
      && forall i :: 0 <= i < |st.vars| ==> st.vars[i].id != d.value
  }

  ghost predicate DefsOk(st: St) {
    forall b, i :: DefOk(st, DefAt(BlocksOf(st), b, i))
  }

  /** No two instructions define the same id. */
  ghost predicate DefinedOnce(bs: seq<BasicBlock>) {
    forall b, i, c, j | DefAt(bs, b, i).Some? && DefAt(bs, b, i) == DefAt(bs, c, j) :: b == c && i == j
  }

  /** The id defined at position `i` of block `b`, if there is one. */
  function DefAt(bs: seq<BasicBlock>, b: int, i: int): Option<Id> {
    if 0 <= b < |bs| && 0 <= i < |bs[b].instrs| then DefOf(bs[b].instrs[i]) else None
  }

  ghost predicate LabelsDistinct(bs: seq<BasicBlock>) {
    forall i, j :: 0 <= i < j < |bs| ==> bs[i].lbl != bs[j].lbl
  }

  ghost predicate LabelsBelow(bs: seq<BasicBlock>, n: Id) {
    forall i :: 0 <= i < |bs| ==> bs[i].lbl < n
  }

  ghost predicate NoTerminator(instrs: seq<Instr>) {
    forall i :: 0 <= i < |instrs| ==> !IsTerminator(instrs[i])
  }

  /** Exactly one terminator, at the end. */
  ghost predicate Terminated(b: BasicBlock) {
    |b.instrs| > 0 && IsTerminator(b.instrs[|b.instrs| - 1]) && NoTerminator(b.instrs[..|b.instrs| - 1])
  }

  ghost predicate BlocksOk(st: St) {
    && (forall i :: 0 <= i < |st.done| ==> Terminated(st.done[i]))
    && (st.open.Some? ==> NoTerminator(st.open.value.instrs))
    && LabelsDistinct(BlocksOf(st))
    && LabelsBelow(BlocksOf(st), st.nextId)
  }

  ghost predicate Good(st: St) {
    IdsFresh(st) && LocalsBacked(st) && DefsOk(st) && DefinedOnce(BlocksOf(st)) && BlocksOk(st)
  }

  // --- growth ---

  ghost predicate ConstsKept(st: St, st': St) {
    forall c :: c in st.consts ==> c in st'.consts && st'.consts[c] == st.consts[c]
  }

  /** Not concerned with control flow or storage. */
  predicate Plain(i: Instr) {
    !IsTerminator(i) && TargetsOf(i) == {} && !i.OpVariable?
  }

  ghost predicate PlainFrom(instrs: seq<Instr>, n: nat) {
    forall j :: n <= j < |instrs| ==> Plain(instrs[j])
  }

  /** Growth inside the open block only, by plain instructions: expressions. */
  ghost predicate Extends(st: St, st': St) {
    && st'.first == st.first && st.nextId <= st'.nextId && ConstsKept(st, st')
    && st'.done == st.done && st'.locals == st.locals && st'.vars == st.vars
    && (st.open.Some? <==> st'.open.Some?)
    && (st.open.Some? ==>
          && st'.open.value.lbl == st.open.value.lbl && st.open.value.instrs <= st'.open.value.instrs
          && PlainFrom(st'.open.value.instrs, |st.open.value.instrs|))
  }

  /** General growth: statements. Blocks begun in between carry labels in `drawn` or drawn in between. */
  ghost predicate Grows(st: St, st': St, drawn: set<Id>) {
    && st'.first == st.first && st.nextId <= st'.nextId && ConstsKept(st, st')
    && st.locals <= st'.locals
    && (forall v :: v in st.vars ==> v in st'.vars)
    && st.done <= st'.done && |BlocksOf(st)| <= |BlocksOf(st')|
    && (st.open.Some? ==>
          && BlocksOf(st')[|st.done|].lbl == st.open.value.lbl
          && st.open.value.instrs <= BlocksOf(st')[|st.done|].instrs)
    && (forall k :: |BlocksOf(st)| <= k < |BlocksOf(st')| ==>
          BlocksOf(st')[k].lbl >= st.nextId || BlocksOf(st')[k].lbl in drawn)
  }

  lemma {:induction false} ExtendsGrows(st: St, st': St)
    requires Extends(st, st')
    ensures Grows(st, st', {})
  {
  }

  lemma {:induction false} ExtendsTrans(a: St, b: St, c: St)
    requires Extends(a, b) && Extends(b, c)
    ensures Extends(a, c)
  {
  }

  lemma {:induction false} GrowsTrans(a: St, b: St, c: St, x: set<Id>, y: set<Id>)
    requires Grows(a, b, x) && Grows(b, c, y)
    ensures Grows(a, c, x + y)
  {
    if a.open.Some? && |a.done| < |b.done| {
      assert b.done[|a.done|] == c.done[|a.done|];
    }
    forall k | |BlocksOf(a)| <= k < |BlocksOf(c)|
      ensures BlocksOf(c)[k].lbl >= a.nextId || BlocksOf(c)[k].lbl in x + y
    {
      if k < |BlocksOf(b)| {
        GrowsKeepsLabels(b, c, y);
      }
    }
  }

  lemma {:induction false} GrowsThen(a: St, b: St, c: St)
    requires Grows(a, b, {}) && Grows(b, c, {})
    ensures Grows(a, c, {})
  {
    GrowsTrans(a, b, c, {}, {});
  }

  lemma {:induction false} GrowsKeepsLabels(st: St, st': St, drawn: set<Id>)
    requires Grows(st, st', drawn)
    ensures forall k :: 0 <= k < |BlocksOf(st)| ==> BlocksOf(st')[k].lbl == BlocksOf(st)[k].lbl
  {
    forall k | 0 <= k < |BlocksOf(st)| ensures BlocksOf(st')[k].lbl == BlocksOf(st)[k].lbl {
      if k < |st.done| {
        assert BlocksOf(st')[k] == st'.done[k] == st.done[k];
      }
    }
  }

  /** Labels drawn at or above the counter need no mention. */
  lemma {:induction false} GrowsForget(st: St, st': St, drawn: set<Id>)
    requires Grows(st, st', drawn)
    requires forall l :: l in drawn ==> l >= st.nextId
    ensures Grows(st, st', {})
  {
  }

  /** No block carries the label. */
  ghost predicate Unused(st: St, l: Id) {
    forall k :: 0 <= k < |BlocksOf(st)| ==> BlocksOf(st)[k].lbl != l
  }

  lemma {:induction false} UnusedStays(st: St, st': St, drawn: set<Id>, l: Id)
    requires Grows(st, st', drawn) && Unused(st, l) && l < st.nextId && l !in drawn
    ensures Unused(st', l)
  {
    GrowsKeepsLabels(st, st', drawn);
  }

  // --- primitives ---

  /** `bs'` is `bs` with `i` appended to its last block. */
  ghost predicate Appended(bs: seq<BasicBlock>, bs': seq<BasicBlock>, i: Instr) {
    && |bs'| == |bs| > 0
    && bs'[..|bs| - 1] == bs[..|bs| - 1]
    && bs'[|bs| - 1] == bs[|bs| - 1].(instrs := bs[|bs| - 1].instrs + [i])
  }

  /** The position just past the end of the last block. */
  predicate IsLast(bs: seq<BasicBlock>, b: int, j: int)
    requires |bs| > 0
  {
    b == |bs| - 1 && j == |bs[b].instrs|
  }

  lemma {:induction false} AppendedDefs(bs: seq<BasicBlock>, bs': seq<BasicBlock>, i: Instr)
    requires Appended(bs, bs', i)
    ensures forall b, j :: DefAt(bs', b, j) == (if IsLast(bs, b, j) then DefOf(i) else DefAt(bs, b, j))
  {
    forall b, j ensures DefAt(bs', b, j) == (if IsLast(bs, b, j) then DefOf(i) else DefAt(bs, b, j)) {
      if 0 <= b < |bs| - 1 {
        assert bs'[b] == bs'[..|bs| - 1][b] == bs[b];
      }
    }
  }

  lemma {:induction false} AppendKeepsLabels(bs: seq<BasicBlock>, bs': seq<BasicBlock>, i: Instr)
    requires Appended(bs, bs', i)
    ensures forall k :: 0 <= k < |bs| ==> bs'[k].lbl == bs[k].lbl
  {
    forall k | 0 <= k < |bs| ensures bs'[k].lbl == bs[k].lbl {
      if k < |bs| - 1 {
        assert bs'[k] == bs'[..|bs| - 1][k] == bs[k];
      }
    }
  }

  lemma {:induction false} AppendKeepsDefinedOnce(bs: seq<BasicBlock>, bs': seq<BasicBlock>, i: Instr)
    requires Appended(bs, bs', i) && DefinedOnce(bs)
    requires DefOf(i).Some? ==> forall b, j :: DefAt(bs, b, j) != DefOf(i)
    ensures DefinedOnce(bs')
  {
    AppendedDefs(bs, bs', i);
  }

  /** Definitions stay fine when the counter, the constants and the variables grow with new ids only. */
  lemma {:induction false} DefsStayOk(st: St, st': St)
    requires IdsFresh(st) && DefsOk(st)
    requires BlocksOf(st') == BlocksOf(st) && st.nextId <= st'.nextId && st'.first == st.first
    requires forall c :: c in st'.consts ==> c in st.consts || c >= st.nextId
    requires forall v :: v in st'.vars ==> v in st.vars || v.id >= st.nextId
    ensures DefsOk(st')
  {
    forall b, i ensures DefOk(st', DefAt(BlocksOf(st'), b, i)) {
      assert DefOk(st, DefAt(BlocksOf(st), b, i));
      forall k | 0 <= k < |st'.vars| && DefAt(BlocksOf(st'), b, i).Some?
        ensures st'.vars[k].id != DefAt(BlocksOf(st'), b, i).value
      {
        assert st'.vars[k] in st'.vars;
      }
    }
  }

  lemma {:induction false} PushGood(st: St, i: Instr)
    requires Good(st) && Push(st, i).Ok?
    requires DefOf(i).None? && Plain(i)
    ensures var st' := Push(st, i).value; Good(st') && Extends(st, st')
  {
    PushMarkGood(st, i);
  }

  /** Any instruction that defines nothing may be pushed, merge declarations in particular. */
  lemma {:induction false} PushMarkGood(st: St, i: Instr)
    requires Good(st) && Push(st, i).Ok?
    requires DefOf(i).None? && !IsTerminator(i)
    ensures var st' := Push(st, i).value; Good(st') && Grows(st, st', {})
    ensures forall l: Id :: Unused(st, l) ==> Unused(Push(st, i).value, l)
  {
    var st' := Push(st, i).value;
    var bs, bs' := BlocksOf(st), BlocksOf(st');
    assert Appended(bs, bs', i);
    AppendedDefs(bs, bs', i);
    AppendKeepsLabels(bs, bs', i);
    AppendKeepsDefinedOnce(bs, bs', i);
    assert DefsOk(st') by {
      forall b, j ensures DefOk(st', DefAt(bs', b, j)) {
        assert DefOk(st, DefAt(bs, b, j));
      }
    }
  }

  lemma {:induction false} PushNewGood(st: St, i: Instr)
    requires Good(st) && DefOf(i) == Some(st.nextId) && PushNew(st, i).Ok? && !i.OpVariable?
    ensures var st' := PushNew(st, i).value.0; Good(st') && Extends(st, st') && st'.nextId == st.nextId + 1
  {
    var st' := PushNew(st, i).value.0;
    var bs, bs' := BlocksOf(st), BlocksOf(st');
    assert Appended(bs, bs', i);
    AppendedDefs(bs, bs', i);
    AppendKeepsLabels(bs, bs', i);
    forall b, j ensures DefAt(bs, b, j) != DefOf(i) {
      assert DefOk(st, DefAt(bs, b, j));
    }
    AppendKeepsDefinedOnce(bs, bs', i);
    assert DefsOk(st') by {
      forall b, j ensures DefOk(st', DefAt(bs', b, j)) {
        assert DefOk(st, DefAt(bs, b, j));
      }
    }
  }

  lemma {:induction false} AddConstGood(st: St, c: Const)
    requires Good(st)
    ensures var st' := AddConst(st, c).0; Good(st') && Extends(st, st')
  {
    DefsStayOk(st, AddConst(st, c).0);
  }

  lemma {:induction false} CloseGood(st: St, i: Instr)
    requires Good(st) && Close(st, i).Ok? && IsTerminator(i)
    ensures var st' := Close(st, i).value; Good(st') && Grows(st, st', {}) && st'.open.None? && |st'.done| == |st.done| + 1
    ensures var st' := Close(st, i).value; st'.locals == st.locals && st'.nextId == st.nextId && st'.vars == st.vars
  {
    var st' := Close(st, i).value;
    var bs, bs' := BlocksOf(st), BlocksOf(st');
    assert Appended(bs, bs', i);
    AppendedDefs(bs, bs', i);
    AppendKeepsLabels(bs, bs', i);
    AppendKeepsDefinedOnce(bs, bs', i);
    var k := |st.done|;
    assert bs'[k].instrs[..|st.open.value.instrs|] == st.open.value.instrs;
    assert DefsOk(st') by {
      forall b, j ensures DefOk(st', DefAt(bs', b, j)) {
        assert DefOk(st, DefAt(bs, b, j));
      }
    }
  }

  lemma {:induction false} BeginGood(st: St, l: Id)
    requires Good(st) && Begin(st, l).Ok?
    requires l < st.nextId && Unused(st, l)
    ensures Good(Begin(st, l).value) && Grows(st, Begin(st, l).value, {l})
  {
    var st' := Begin(st, l).value;
    var bs, bs' := BlocksOf(st), BlocksOf(st');
    assert bs == st.done && bs' == bs + [BasicBlock(l, [])];
    assert forall b, j :: DefAt(bs', b, j) == DefAt(bs, b, j);
    assert DefsOk(st') by {
      forall b, j ensures DefOk(st', DefAt(bs', b, j)) {
        assert DefOk(st, DefAt(bs, b, j));
      }
    }
  }

  lemma {:induction false} BumpGood(st: St, n: Id)
    requires Good(st) && st.nextId <= n
    ensures var st' := st.(nextId := n); Good(st') && Extends(st, st')
  {
    DefsStayOk(st, st.(nextId := n));
  }

  lemma {:induction false} AllocGood(g: Globals, st: St, ty: Type)
    requires Good(st) && AllocLocal(g, st, ty).Ok?
    ensures var (st', ptr) := AllocLocal(g, st, ty).value;
      && Good(st') && Grows(st, st', {}) && st'.open == st.open && st'.done == st.done && st'.locals == st.locals
      && ptr < st'.nextId && Var(ptr, ty) in st'.vars
      && forall i :: 0 <= i < |st.locals| ==> st.locals[i].ptr != ptr
  {
    var (st', ptr) := AllocLocal(g, st, ty).value;
    DefsStayOk(st, st');
    forall i | 0 <= i < |st.locals|
      ensures st.locals[i].ptr != ptr && Var(st.locals[i].ptr, st.locals[i].ty) in st'.vars
    {
      assert Var(st.locals[i].ptr, st.locals[i].ty) in st.vars;
    }
  }

  lemma {:induction false} AddLocalGood(st: St, l: Local)
    requires Good(st) && Var(l.ptr, l.ty) in st.vars
    requires forall i :: 0 <= i < |st.locals| ==> st.locals[i].ptr != l.ptr
    ensures var st' := st.(locals := st.locals + [l]); Good(st') && Grows(st, st', {})
  {
    DefsStayOk(st, st.(locals := st.locals + [l]));
  }

  // --- expressions ---

  lemma {:induction false} EmitPlaceGood(g: Globals, st: St, e: Expr)
    requires Good(st) && EmitPlace(g, st, e).Ok?
    ensures var st' := EmitPlace(g, st, e).value.0; Good(st') && Extends(st, st')
    decreases e
  {
    if e.Member? {
      var (st1, b) := EmitPlace(g, st, e.base).value;
      EmitPlaceGood(g, st, e.base);
      var idx := FindMember(g.structs[b.ty.name], e.member).value;
      var (st2, k) := AddConst(st1, CWord(Int, Wrap(idx)));
      AddConstGood(st1, CWord(Int, Wrap(idx)));
      PushNewGood(st2, OpAccessChain(st2.nextId, b.id, k));
    }
  }

  lemma {:induction false} EmitLoadGood(g: Globals, st: St, p: Val)
    requires Good(st) && EmitLoad(g, st, p).Ok?
    ensures var st' := EmitLoad(g, st, p).value.0; Good(st') && Extends(st, st')
  {
    PushNewGood(st, OpLoad(st.nextId, p.ty, p.id));
  }

  lemma {:induction false} EmitLitGood(st: St, lit: Literal)
    requires Good(st)
    ensures var st' := EmitLit(st, lit).0; Good(st') && Extends(st, st')
  {
    match lit
    case IntLit(i) => AddConstGood(st, CWord(Int, Wrap(i)));
    case UintLit(u) => AddConstGood(st, CWord(Uint, Wrap(u)));
    case FloatLit(f) => AddConstGood(st, CFloat(f));
    case BoolLit(b) => AddConstGood(st, CBool(b));
  }

  lemma {:induction false} EmitSwizzleGood(st: St, b: Val, member: string, kind: ScalarKind)
    requires Good(st) && EmitSwizzle(st, b, member, kind).Ok?
    ensures var st' := EmitSwizzle(st, b, member, kind).value.0; Good(st') && Extends(st, st')
  {
    var idx := DecodeSwizzle(member).value;
    if |idx| == 1 {
      PushNewGood(st, OpCompositeExtract(st.nextId, Scalar(kind), b.id, idx[0]));
    } else {
      PushNewGood(st, OpVectorShuffle(st.nextId, Vector(kind, |idx|), b.id, b.id, idx));
    }
  }

  lemma {:induction false} AssembleGood(st: St, ty: Type, vs: seq<Val>)
    requires Good(st) && ty.Vector? && Assemble(st, ty, vs).Ok?
    ensures var st' := Assemble(st, ty, vs).value.0; Good(st') && Extends(st, st')
  {
    var parts := if |vs| == 1 then seq(ty.n, _ => vs[0].id) else Ids(vs);
    PushNewGood(st, OpCompositeConstruct(st.nextId, ty, parts));
  }

  lemma {:induction false} EmitArithGood(g: Globals, st: St, op: BinaryOp, a: Val, b: Val)
    requires Good(st) && EmitArith(g, st, op, a, b).Ok?
    ensures var st' := EmitArith(g, st, op, a, b).value.0; Good(st') && Extends(st, st')
  {
    var ty := if a.ty.IsComposite() then a.ty else b.ty;
    PushNewGood(st, OpBin(st.nextId, ArithOpcode(op, ty).value, ty, a.id, b.id));
  }

  lemma {:induction false} EmitComparisonGood(st: St, op: BinaryOp, a: Val, b: Val)
    requires Good(st) && EmitComparison(st, op, a, b).Ok?
    ensures var st' := EmitComparison(st, op, a, b).value.0; Good(st') && Extends(st, st')
  {
    var isFloat := (a.ty.Scalar? || a.ty.Vector?) && a.ty.kind == Float;
    var ty := if a.ty.Vector? then Vector(Bool, a.ty.n) else Scalar(Bool);
    PushNewGood(st, OpBin(st.nextId, CompareOpcode(op, isFloat).value, ty, a.id, b.id));
  }

  lemma {:induction false} CoerceScalarGood(st: St, v: Val, kind: ScalarKind)
    requires Good(st) && CoerceScalar(st, v, kind).Ok?
    ensures var st' := CoerceScalar(st, v, kind).value.0; Good(st') && Extends(st, st')
  {
    if v.ty != Scalar(kind) && v.ty.Scalar? && CoerceOpcode(v.ty.kind, kind).Some? {
      PushNewGood(st, OpUn(st.nextId, CoerceOpcode(v.ty.kind, kind).value, Scalar(kind), v.id));
    }
  }

  lemma {:induction false} CoerceGood(st: St, v: Val, ty: Type)
    requires Good(st) && Coerce(st, v, ty).Ok?
    ensures var st' := Coerce(st, v, ty).value.0; Good(st') && Extends(st, st')
  {
    if v.ty != ty && v.ty.Scalar? && ty.Scalar? {
      CoerceScalarGood(st, v, ty.kind);
    }
  }

  lemma {:induction false} CoerceToBoolGood(st: St, v: Val)
    requires Good(st) && CoerceToBool(st, v).Ok?
    ensures var st' := CoerceToBool(st, v).value.0; Good(st') && Extends(st, st')
  {
    if v.ty != Scalar(Bool) {
      PushNewGood(st, OpAny(st.nextId, v.id));
    }
  }

  lemma {:induction false} BroadcastConstGood(st: St, c: Id, ty: Type)
    requires Good(st) && BroadcastConst(st, c, ty).Ok?
    ensures var st' := BroadcastConst(st, c, ty).value.0; Good(st') && Extends(st, st')
  {
    if ty.Vector? {
      PushNewGood(st, OpCompositeConstruct(st.nextId, Vector(Float, ty.n), seq(ty.n, _ => c)));
    }
  }

  lemma {:induction false} FinishCallGood(g: Globals, st: St, name: string, vs: seq<Val>)
    requires Good(st) && FinishCall(g, st, name, vs).Ok?
    ensures var st' := FinishCall(g, st, name, vs).value.0; Good(st') && Extends(st, st')
  {
    hide Good, EmitArith, BroadcastConst, ArithOpcode;
    if name == "saturate" && |vs| == 1 {
      SaturateGood(g, st, vs[0]);
    } else if name == "dot" && |vs| == 2 {
      var ty := if vs[0].ty.Vector? then Scalar(vs[0].ty.kind) else vs[0].ty;
      PushNewGood(st, OpDot(st.nextId, ty, vs[0].id, vs[1].id));
    } else if name == "mul" {
      EmitArithGood(g, st, Mul, vs[0], vs[1]);
    } else {
      var ty := if name == "length" || vs == [] then Scalar(Float) else vs[|vs| - 1].ty;
      PushNewGood(st, OpExtInst(st.nextId, ty, ExtInstOf(name).value.0, Ids(vs)));
    }
  }

  lemma {:induction false} SaturateGood(g: Globals, st: St, x: Val)
    requires Good(st) && EmitSaturate(g, st, x).Ok?
    ensures var st' := EmitSaturate(g, st, x).value.0; Good(st') && Extends(st, st')
  {
    hide Good, BroadcastConst;
    var (st1, lo) := AddConst(st, CFloat(F64_ZERO));
    var (st2, hi) := AddConst(st1, CFloat(F64_ONE));
    var (st3, lo') := BroadcastConst(st2, lo, x.ty).value;
    var (st4, hi') := BroadcastConst(st3, hi, x.ty).value;
    AddConstGood(st, CFloat(F64_ZERO));
    AddConstGood(st1, CFloat(F64_ONE));
    BroadcastConstGood(st2, lo, x.ty);
    BroadcastConstGood(st3, hi, x.ty);
    PushNewGood(st4, OpExtInst(st4.nextId, x.ty, FCLAMP, [x.id, lo', hi']));
  }

  lemma {:induction false} EmitExprGood(g: Globals, st: St, e: Expr)
    requires Good(st) && EmitExpr(g, st, e).Ok?
    ensures var st' := EmitExpr(g, st, e).value.0; Good(st') && Extends(st, st')
    decreases e, 1
  {
    hide Good, EmitPlace, EmitLoad, Assemble, CoerceScalar, FinishCall, EmitArgs, EmitSwizzle, EmitLit, InferType;
    match e
    case Lit(lit) => EmitLitGood(st, lit);
    case Construct(ty, args) =>
      if ty.Scalar? {
        var (st1, v) := EmitExpr(g, st, args[0]).value;
        EmitExprGood(g, st, args[0]);
        if ty.kind != Float {
          CoerceScalarGood(st1, v, ty.kind);
        }
      } else {
        var (st1, vs) := EmitArgs(g, st, args).value;
        EmitArgsGood(g, st, args);
        AssembleGood(st1, ty, vs);
      }
    case Ident(_) =>
      var (st1, p) := EmitPlace(g, st, e).value;
      EmitPlaceGood(g, st, e);
      EmitLoadGood(g, st1, p);
    case Member(base, member) =>
      var bt := InferType(g, st.locals, base).value;
      if bt.Struct? {
        var (st1, p) := EmitPlace(g, st, e).value;
        EmitPlaceGood(g, st, e);
        EmitLoadGood(g, st1, p);
      } else {
        var (st1, b) := EmitExpr(g, st, base).value;
        EmitExprGood(g, st, base);
        EmitSwizzleGood(st1, b, member, bt.kind);
      }
    case Call(name, args) =>
      var (st1, vs) := EmitArgs(g, st, args).value;
      EmitArgsGood(g, st, args);
      FinishCallGood(g, st1, name, vs);
    case Binary(op, _, _) =>
      if op == Assign {
        EmitAssignGood(g, st, e);
      } else if IsCompound(op) {
        EmitCompoundGood(g, st, e);
      } else {
        EmitOperatorGood(g, st, e);
      }
    case Unary(op, x) =>
      var (st1, v) := EmitExpr(g, st, x).value;
      EmitExprGood(g, st, x);
      PushNewGood(st1, OpUn(st1.nextId, UnaryOpcode(op, v.ty).value, v.ty, v.id));
    case Cast(ty, x) =>
      var (st1, v) := EmitExpr(g, st, x).value;
      EmitExprGood(g, st, x);
      if v.ty != ty {
        PushNewGood(st1, OpUn(st1.nextId, ConvertOpcode(v.ty.kind, ty.kind).value, ty, v.id));
      }
  }

  lemma {:induction false} EmitAssignGood(g: Globals, st: St, e: Expr)
    requires e.Binary? && e.op == Assign && Good(st) && EmitExpr(g, st, e).Ok?
    ensures var st' := EmitExpr(g, st, e).value.0; Good(st') && Extends(st, st')
    decreases e, 0
  {
    hide Good;
    var (st1, p) := EmitPlace(g, st, e.lhs).value;
    EmitPlaceGood(g, st, e.lhs);
    var (st2, v) := EmitExpr(g, st1, e.rhs).value;
    EmitExprGood(g, st1, e.rhs);
    var (st3, w) := Coerce(st2, v, p.ty).value;
    CoerceGood(st2, v, p.ty);
    PushGood(st3, OpStore(p.id, w.id));
  }

  lemma {:induction false} EmitCompoundGood(g: Globals, st: St, e: Expr)
    requires e.Binary? && IsCompound(e.op) && Good(st) && EmitExpr(g, st, e).Ok?
    ensures var st' := EmitExpr(g, st, e).value.0; Good(st') && Extends(st, st')
    decreases e, 0
  {
    hide Good;
    var (st1, p) := EmitPlace(g, st, e.lhs).value;
    EmitPlaceGood(g, st, e.lhs);
    var (st2, cur) := EmitLoad(g, st1, p).value;
    EmitLoadGood(g, st1, p);
    var (st3, v) := EmitExpr(g, st2, e.rhs).value;
    EmitExprGood(g, st2, e.rhs);
    var (st4, r) := EmitArith(g, st3, CoreOp(e.op), cur, v).value;
    EmitArithGood(g, st3, CoreOp(e.op), cur, v);
    PushGood(st4, OpStore(p.id, r.id));
  }

  lemma {:induction false} EmitOperatorGood(g: Globals, st: St, e: Expr)
    requires e.Binary? && e.op != Assign && !IsCompound(e.op) && Good(st) && EmitExpr(g, st, e).Ok?
    ensures var st' := EmitExpr(g, st, e).value.0; Good(st') && Extends(st, st')
    decreases e, 0
  {
    hide Good;
    var op := e.op;
    var (st1, a) := EmitExpr(g, st, e.lhs).value;
    EmitExprGood(g, st, e.lhs);
    var (st2, b) := EmitExpr(g, st1, e.rhs).value;
    EmitExprGood(g, st1, e.rhs);
    if IsComparison(op) {
      EmitComparisonGood(st2, op, a, b);
    } else if op in {And, Or} {
      PushNewGood(st2, OpBin(st2.nextId, if op == And then LogicalAnd else LogicalOr, Scalar(Bool), a.id, b.id));
    } else {
      EmitArithGood(g, st2, op, a, b);
    }
  }

  lemma {:induction false} EmitArgsGood(g: Globals, st: St, args: seq<Expr>)
    requires Good(st) && EmitArgs(g, st, args).Ok?
    ensures var st' := EmitArgs(g, st, args).value.0; Good(st') && Extends(st, st')
    decreases args, 0
  {
    if args != [] {
      var (st1, v) := EmitExpr(g, st, args[0]).value;
      EmitExprGood(g, st, args[0]);
      EmitArgsGood(g, st1, args[1..]);
    }
  }

  // --- statements ---

  lemma {:induction false} EmitInitGood(g: Globals, st: St, ptr: Id, init: Option<Expr>)
    requires Good(st) && EmitInit(g, st, ptr, init).Ok?
    ensures var st' := EmitInit(g, st, ptr, init).value; Good(st') && Extends(st, st')
  {
    if init.Some? {
      var (st1, v) := EmitExpr(g, st, init.value).value;
      EmitExprGood(g, st, init.value);
      PushGood(st1, OpStore(ptr, v.id));
    }
  }

  lemma {:induction false} EmitUpdateGood(g: Globals, st: St, update: Option<Expr>)
    requires Good(st) && EmitUpdate(g, st, update).Ok?
    ensures var st' := EmitUpdate(g, st, update).value; Good(st') && Extends(st, st')
  {
    if update.Some? {
      EmitExprGood(g, st, update.value);
    }
  }

  lemma {:induction false} EmitTestGood(g: Globals, st: St, test: Option<Expr>, bodyL: Id, merge: Id)
    requires Good(st) && EmitTest(g, st, test, bodyL, merge).Ok?
    ensures var st' := EmitTest(g, st, test, bodyL, merge).value;
      && Good(st') && Grows(st, st', {}) && st'.open.None? && |st'.done| == |st.done| + 1 && st'.locals == st.locals
  {
    if test.Some? {
      var (st1, c) := EmitExpr(g, st, test.value).value;
      EmitExprGood(g, st, test.value);
      var (st2, cid) := CoerceToBool(st1, c).value;
      CoerceToBoolGood(st1, c);
      ExtendsTrans(st, st1, st2);
      ExtendsGrows(st, st2);
      CloseGood(st2, OpBranchConditional(cid, bodyL, merge));
      GrowsThen(st, st2, EmitTest(g, st, test, bodyL, merge).value);
    } else {
      CloseGood(st, OpBranch(bodyL));
    }
  }

  lemma {:induction false} BranchIfOpenGood(st: St, l: Id)
    requires Good(st)
    ensures BranchIfOpen(st, l).Ok?
    ensures var st' := BranchIfOpen(st, l).value; Good(st') && Grows(st, st', {}) && st'.open.None?
  {
    if st.open.Some? {
      CloseGood(st, OpBranch(l));
    }
  }

  lemma {:induction false} EmitStmtsGood(g: Globals, st: St, ss: seq<Stmt>)
    requires Good(st) && EmitStmts(g, st, ss).Ok?
    ensures var st' := EmitStmts(g, st, ss).value; Good(st') && Grows(st, st', {})
    decreases ss, 0
  {
    hide Good;
    if ss != [] {
      var st1 := EmitStmt(g, st, ss[0]).value;
      EmitStmtGood(g, st, ss[0]);
      if st1.open.Some? {
        EmitStmtsGood(g, st1, ss[1..]);
        GrowsThen(st, st1, EmitStmts(g, st, ss).value);
      }
    }
  }

  lemma {:induction false} EmitArmGood(g: Globals, st: St, l: Id, ss: seq<Stmt>, exit: Id)
    requires Good(st) && EmitArm(g, st, l, ss, exit).Ok?
    requires l < st.nextId && Unused(st, l)
    ensures var st' := EmitArm(g, st, l, ss, exit).value;
      Good(st') && Grows(st, st', {l}) && st'.open.None? && |st'.done| > |st.done|
    decreases ss, 1
  {
    hide Good;
    var st1 := Begin(st, l).value;
    BeginGood(st, l);
    var st2 := EmitStmts(g, st1, ss).value;
    EmitStmtsGood(g, st1, ss);
    BranchIfOpenGood(st2, exit);
    var st3 := BranchIfOpen(st2, exit).value;
    GrowsTrans(st, st1, st2, {l}, {});
    GrowsTrans(st, st2, st3, {l} + {}, {});
    assert {l} + {} + {} == {l};
  }

  lemma {:induction false} ExtendsKeepsUnused(st: St, st': St, l: Id)
    requires Extends(st, st') && Unused(st, l)
    ensures Unused(st', l)
  {
    ExtendsGrows(st, st');
    GrowsKeepsLabels(st, st', {});
  }

  lemma {:induction false} CloseKeepsUnused(st: St, i: Instr, l: Id)
    requires Close(st, i).Ok? && Unused(st, l)
    ensures Unused(Close(st, i).value, l)
  {
    var bs, bs' := BlocksOf(st), BlocksOf(Close(st, i).value);
    assert Appended(bs, bs', i);
    AppendKeepsLabels(bs, bs', i);
  }

  lemma {:induction false} LabelsAboveUnused(st: St, l: Id)
    requires Good(st) && st.nextId <= l
    ensures Unused(st, l)
  {
  }

  lemma {:induction false} EmitIfHeadGood(g: Globals, st: St, cond: Expr, hasElse: bool)
    requires Good(st) && EmitIfHead(g, st, cond, hasElse).Ok?
    ensures var (st', thenL) := EmitIfHead(g, st, cond, hasElse).value;
      && Good(st') && Grows(st, st', {}) && st'.open.None? && |st'.done| == |st.done| + 1 && st'.locals == st.locals
      && st'.nextId == (if hasElse then thenL + 3 else thenL + 2) && st.nextId <= thenL
      && (forall l :: l >= thenL ==> Unused(st', l))
  {
    hide Good, Grows, Unused, EmitExpr, CoerceToBool;
    var (st1, c) := EmitExpr(g, st, cond).value;
    EmitExprGood(g, st, cond);
    var (st2, cid) := CoerceToBool(st1, c).value;
    CoerceToBoolGood(st1, c);
    var thenL := st2.nextId;
    var st3 := st2.(nextId := if hasElse then thenL + 3 else thenL + 2);
    BumpGood(st2, st3.nextId);
    var st4 := Push(st3, OpSelectionMerge(thenL + 1)).value;
    PushMarkGood(st3, OpSelectionMerge(thenL + 1));
    var br := OpBranchConditional(cid, thenL, if hasElse then thenL + 2 else thenL + 1);
    var st5 := Close(st4, br).value;
    CloseGood(st4, br);
    ExtendsTrans(st, st1, st2);
    ExtendsTrans(st, st2, st3);
    ExtendsGrows(st, st3);
    GrowsThen(st, st3, st4);
    GrowsThen(st, st4, st5);
    forall l | l >= thenL ensures Unused(st5, l) {
      LabelsAboveUnused(st2, l);
      ExtendsKeepsUnused(st2, st3, l);
      CloseKeepsUnused(st4, br, l);
    }
  }

  lemma {:induction false} EmitIfGood(g: Globals, st: St, s: Stmt)
    requires s.If? && Good(st) && EmitStmt(g, st, s).Ok?
    ensures var st' := EmitStmt(g, st, s).value; Good(st') && Grows(st, st', {})
    decreases s, 0
  {
    hide Good, Grows, Unused, EmitArm, EmitIfHead;
    var (st1, thenL) := EmitIfHead(g, st, s.cond, s.elseBlock.Some?).value;
    EmitIfHeadGood(g, st, s.cond, s.elseBlock.Some?);
    var mergeL, elseL := thenL + 1, thenL + 2;
    var st2 := EmitArm(g, st1, thenL, s.thenBlock.stmts, mergeL).value;
    EmitArmGood(g, st1, thenL, s.thenBlock.stmts, mergeL);
    UnusedStays(st1, st2, {thenL}, mergeL);
    GrowsTrans(st, st1, st2, {}, {thenL});
    var st3, drawn := st2, {} + {thenL};
    if s.elseBlock.Some? {
      UnusedStays(st1, st2, {thenL}, elseL);
      GrowsNextId(st1, st2, {thenL});
      st3 := EmitArm(g, st2, elseL, s.elseBlock.value.stmts, mergeL).value;
      EmitArmGood(g, st2, elseL, s.elseBlock.value.stmts, mergeL);
      UnusedStays(st2, st3, {elseL}, mergeL);
      GrowsTrans(st, st2, st3, drawn, {elseL});
      GrowsNextId(st2, st3, {elseL});
      drawn := drawn + {elseL};
    }
    GrowsNextId(st1, st2, {thenL});
    GrowsNextId(st, st3, drawn);
    BeginGood(st3, mergeL);
    var st4 := Begin(st3, mergeL).value;
    GrowsTrans(st, st3, st4, drawn, {mergeL});
    GrowsForget(st, st4, drawn + {mergeL});
  }

  lemma {:induction false} GrowsNextId(st: St, st': St, drawn: set<Id>)
    requires Grows(st, st', drawn)
    ensures st.nextId <= st'.nextId
  {
  }

  lemma {:induction false} EmitForGood(g: Globals, st: St, s: Stmt)
    requires s.For? && Good(st) && EmitStmt(g, st, s).Ok?
    ensures var st' := EmitStmt(g, st, s).value; Good(st') && Grows(st, st', {})
    decreases s, 1
  {
    hide Good;
    var st1 := match s.init { case Some(i) => EmitStmt(g, st, i).value case None => st };
    if s.init.Some? {
      EmitStmtGood(g, st, s.init.value);
    }
    assert Good(st1) && Grows(st, st1, {});
    if st1.open.Some? {
      EmitLoopGood(g, st1, s);
      GrowsThen(st, st1, EmitStmt(g, st, s).value);
    }
  }

  /** Entering a loop header: the branch to it, its label and its merge declaration. */
  lemma {:induction false} EnterHeaderGood(st: St, st1: St, st2: St, st3: St)
    requires Good(st) && st.open.Some?
    requires Close(st.(nextId := st.nextId + 4), OpBranch(st.nextId)) == Ok(st1)
    requires Begin(st1, st.nextId) == Ok(st2)
    requires Push(st2, OpLoopMerge(st.nextId + 3, st.nextId + 2)) == Ok(st3)
    ensures Good(st3) && Grows(st, st3, {}) && st3.nextId == st.nextId + 4 && |st3.done| == |st.done| + 1
    ensures st3.locals == st.locals
    ensures forall l :: st.nextId < l < st.nextId + 4 ==> Unused(st3, l)
  {
    hide Good, Grows, Unused;
    var header := st.nextId;
    var stb := st.(nextId := header + 4);
    BumpGood(st, header + 4);
    ExtendsGrows(st, stb);
    CloseGood(stb, OpBranch(header));
    GrowsThen(st, stb, st1);
    forall l | header <= l < header + 4 ensures Unused(st1, l) {
      LabelsAboveUnused(st, l);
      ExtendsKeepsUnused(st, stb, l);
      CloseKeepsUnused(stb, OpBranch(header), l);
    }
    BeginGood(st1, header);
    PushMarkGood(st2, OpLoopMerge(header + 3, header + 2));
    GrowsTrans(st, st1, st2, {}, {header});
    GrowsTrans(st, st2, st3, {} + {header}, {});
    GrowsForget(st, st3, {} + {header} + {});
    forall l | header < l < header + 4 ensures Unused(st3, l) {
      UnusedStays(st1, st2, {header}, l);
    }
  }

  lemma {:induction false} EmitHeaderGood(g: Globals, st: St, test: Option<Expr>)
    requires Good(st) && st.open.Some? && EmitHeader(g, st, test).Ok?
    ensures var st' := EmitHeader(g, st, test).value;
      && Good(st') && Grows(st, st', {}) && st'.open.None? && st'.nextId >= st.nextId + 4
      && |st'.done| == |st.done| + 2 && st'.locals == st.locals
      && (forall l :: st.nextId < l < st.nextId + 4 ==> Unused(st', l))
  {
    hide Good, Grows, Unused, EmitTest;
    var header := st.nextId;
    var st1 := Close(st.(nextId := header + 4), OpBranch(header)).value;
    var st2 := Begin(st1, header).value;
    var st3 := Push(st2, OpLoopMerge(header + 3, header + 2)).value;
    EnterHeaderGood(st, st1, st2, st3);
    var st4 := EmitTest(g, st3, test, header + 1, header + 3).value;
    EmitTestGood(g, st3, test, header + 1, header + 3);
    GrowsThen(st, st3, st4);
    GrowsNextId(st3, st4, {});
    forall l | header < l < header + 4 ensures Unused(st4, l) {
      UnusedStays(st3, st4, {}, l);
    }
  }

  lemma {:induction false} EmitContinueGood(g: Globals, st: St, update: Option<Expr>, header: Id, cont: Id)
    requires Good(st) && EmitContinue(g, st, update, header, cont).Ok?
    requires cont < st.nextId && Unused(st, cont)
    ensures var st' := EmitContinue(g, st, update, header, cont).value;
      Good(st') && Grows(st, st', {cont}) && st'.open.None?
  {
    hide Good;
    var st1 := Begin(st, cont).value;
    BeginGood(st, cont);
    var st2 := EmitUpdate(g, st1, update).value;
    EmitUpdateGood(g, st1, update);
    ExtendsGrows(st1, st2);
    var st3 := Close(st2, OpBranch(header)).value;
    CloseGood(st2, OpBranch(header));
    GrowsTrans(st, st1, st2, {cont}, {});
    GrowsTrans(st, st2, st3, {cont} + {}, {});
    assert {cont} + {} + {} == {cont};
  }

  lemma {:induction false} EmitLoopGood(g: Globals, st: St, s: Stmt)
    requires s.For? && Good(st) && st.open.Some? && EmitLoop(g, st, s).Ok?
    ensures var st' := EmitLoop(g, st, s).value; Good(st') && Grows(st, st', {})
    decreases s, 0
  {
    hide Good, Grows, Unused, EmitArm, EmitHeader, EmitContinue;
    var header := st.nextId;
    var bodyL, cont, merge := header + 1, header + 2, header + 3;
    var st1 := EmitHeader(g, st, s.test).value;
    EmitHeaderGood(g, st, s.test);
    var st2 := EmitArm(g, st1, bodyL, s.body.stmts, cont).value;
    EmitArmGood(g, st1, bodyL, s.body.stmts, cont);
    UnusedStays(st1, st2, {bodyL}, cont);
    UnusedStays(st1, st2, {bodyL}, merge);
    GrowsNextId(st1, st2, {bodyL});
    GrowsTrans(st, st1, st2, {}, {bodyL});
    var st3 := EmitContinue(g, st2, s.update, header, cont).value;
    EmitContinueGood(g, st2, s.update, header, cont);
    UnusedStays(st2, st3, {cont}, merge);
    GrowsNextId(st2, st3, {cont});
    GrowsTrans(st, st2, st3, {} + {bodyL}, {cont});
    var st4 := Begin(st3, merge).value;
    BeginGood(st3, merge);
    GrowsTrans(st, st3, st4, {} + {bodyL} + {cont}, {merge});
    GrowsForget(st, st4, {} + {bodyL} + {cont} + {merge});
  }

  lemma {:induction false} EmitStmtGood(g: Globals, st: St, s: Stmt)
    requires Good(st) && EmitStmt(g, st, s).Ok?
    ensures var st' := EmitStmt(g, st, s).value; Good(st') && Grows(st, st', {})
    decreases s, 2
  {
    hide Good;
    match s
    case Return(None) => CloseGood(st, OpReturn);
    case Return(Some(e)) =>
      var (st1, v) := EmitExpr(g, st, e).value;
      EmitExprGood(g, st, e);
      var st2 := if g.outVar.Some? then Push(st1, OpStore(g.outVar.value, v.id)).value else st1;
      if g.outVar.Some? {
        PushGood(st1, OpStore(g.outVar.value, v.id));
        ExtendsTrans(st, st1, st2);
      }
      ExtendsGrows(st, st2);
      CloseGood(st2, OpReturn);
      GrowsThen(st, st2, EmitStmt(g, st, s).value);
    case Decl(d) => EmitDeclGood(g, st, d);
    case ExprStmt(e) =>
      EmitExprGood(g, st, e);
    case If(_, _, _) => EmitIfGood(g, st, s);
    case For(_, _, _, _) => EmitForGood(g, st, s);
    case Nested(b) => EmitStmtsGood(g, st, b.stmts);
  }

  lemma {:induction false} EmitDeclGood(g: Globals, st: St, d: VarDecl)
    requires Good(st) && EmitStmt(g, st, Decl(d)).Ok?
    ensures var st' := EmitStmt(g, st, Decl(d)).value; Good(st') && Grows(st, st', {})
  {
    hide Good;
    var (st1, ptr) := AllocLocal(g, st, d.ty).value;
    AllocGood(g, st, d.ty);
    var st2 := EmitInit(g, st1, ptr, d.init).value;
    EmitInitGood(g, st1, ptr, d.init);
    ExtendsGrows(st1, st2);
    GrowsThen(st, st1, st2);
    AddLocalGood(st2, Local(d.name, ptr, d.ty));
    GrowsThen(st, st2, st2.(locals := st2.locals + [Local(d.name, ptr, d.ty)]));
  }

  lemma {:induction false} EmitParamsGood(g: Globals, st: St, params: seq<Param>, inputs: seq<Id>)
    requires |params| == |inputs| && Good(st) && EmitParams(g, st, params, inputs).Ok?
    ensures var st' := EmitParams(g, st, params, inputs).value; Good(st') && Grows(st, st', {})
    decreases |params|
  {
    hide Good;
    if params != [] {
      var p := params[0];
      var (st1, ptr) := AllocLocal(g, st, p.ty).value;
      AllocGood(g, st, p.ty);
      var (st2, v) := EmitLoad(g, st1, Val(inputs[0], p.ty)).value;
      EmitLoadGood(g, st1, Val(inputs[0], p.ty));
      var st3 := Push(st2, OpStore(ptr, v.id)).value;
      PushGood(st2, OpStore(ptr, v.id));
      ExtendsTrans(st1, st2, st3);
      ExtendsGrows(st1, st3);
      GrowsThen(st, st1, st3);
      var st4 := st3.(locals := st3.locals + [Local(p.name, ptr, p.ty)]);
      AddLocalGood(st3, Local(p.name, ptr, p.ty));
      GrowsThen(st, st3, st4);
      EmitParamsGood(g, st4, params[1..], inputs[1..]);
      GrowsThen(st, st4, EmitParams(g, st, params, inputs).value);
    }
  }

  lemma {:induction false} EntryGood(entry: Id)
    ensures Good(EntrySt(entry))
  {
  }
}
