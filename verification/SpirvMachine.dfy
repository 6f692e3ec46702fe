/** The SPIR-V instructions the emitter produces and a small-step machine over basic blocks.
    The machine is strict: an instruction whose operands or result do not have the types the instruction
    names makes the run `Broken`. */
module SpirvMachine {
  import opened Wrappers
  import opened Ast
  import opened Values

  /** A result id or a label. */
  type Id = nat

  datatype BinOpcode =
    | IAdd | ISub | IMul | SDiv | UDiv | FAdd | FSub | FMul | FDiv
    | IEqual | INotEqual | SLessThan | SLessThanEqual | SGreaterThan | SGreaterThanEqual
    | FOrdEqual | FOrdNotEqual | FOrdLessThan | FOrdLessThanEqual | FOrdGreaterThan | FOrdGreaterThanEqual
    | LogicalAnd | LogicalOr

  datatype UnOpcode =
    | SNegate | FNegate | LogicalNot | BitwiseNot
    | ConvertSToF | ConvertUToF | ConvertFToS | ConvertFToU

  datatype Instr =
    | OpVariable(id: Id, ty: Type)
    | OpLoad(id: Id, ty: Type, ptr: Id)
    | OpStore(ptr: Id, val: Id)
    | OpAccessChain(id: Id, base: Id, index: Id)
    | OpBin(id: Id, bop: BinOpcode, ty: Type, a: Id, b: Id)
    | OpUn(id: Id, uop: UnOpcode, ty: Type, a: Id)
    | OpAny(id: Id, a: Id)
    | OpCompositeConstruct(id: Id, ty: Type, parts: seq<Id>)
    | OpCompositeExtract(id: Id, ty: Type, a: Id, idx: nat)
    | OpVectorShuffle(id: Id, ty: Type, a: Id, b: Id, idxs: seq<nat>)
    | OpExtInst(id: Id, ty: Type, number: nat, args: seq<Id>)
    | OpDot(id: Id, ty: Type, a: Id, b: Id)
    | OpSelectionMerge(merge: Id)
    | OpLoopMerge(merge: Id, cont: Id)
    | OpBranch(target: Id)
    | OpBranchConditional(cond: Id, onTrue: Id, onFalse: Id)
    | OpReturn

  predicate IsTerminator(i: Instr) {
    i.OpBranch? || i.OpBranchConditional? || i.OpReturn?
  }

  /** The result id an instruction defines. */
  function DefOf(i: Instr): Option<Id> {
    match i
    case OpVariable(id, _) => Some(id)
    case OpLoad(id, _, _) => Some(id)
    case OpAccessChain(id, _, _) => Some(id)
    case OpBin(id, _, _, _, _) => Some(id)
    case OpUn(id, _, _, _) => Some(id)
    case OpAny(id, _) => Some(id)
    case OpCompositeConstruct(id, _, _) => Some(id)
    case OpCompositeExtract(id, _, _, _) => Some(id)
    case OpVectorShuffle(id, _, _, _, _) => Some(id)
    case OpExtInst(id, _, _, _) => Some(id)
    case OpDot(id, _, _, _) => Some(id)
    case _ => None
  }

  /** Labels an instruction refers to. */
  function TargetsOf(i: Instr): set<Id> {
    match i
    case OpSelectionMerge(l) => {l}
    case OpLoopMerge(l, c) => {l, c}
    case OpBranch(l) => {l}
    case OpBranchConditional(_, t, f) => {t, f}
    case _ => {}
  }

  /** A module-level constant. */
  datatype Const = CWord(kind: ScalarKind, w: Word) | CFloat(f: F64) | CBool(b: bool)

  function ConstValue(fo: FloatOps, c: Const): Value {
    match c
    case CWord(kind, w) => VScalar(if kind == Int then EInt(w) else EUint(w))
    case CFloat(f) => VScalar(EFloat(fo.round(f)))
    case CBool(b) => VScalar(EBool(b))
  }

  datatype BasicBlock = BasicBlock(lbl: Id, instrs: seq<Instr>)

  // --- meaning of opcodes ---

  function Bits(e: Elem): Option<Word> {
    match e
    case EInt(w) => Some(w)
    case EUint(w) => Some(w)
    case _ => None
  }

  function IntElem(kind: ScalarKind, w: Word): Option<Elem> {
    match kind
    case Int => Some(EInt(w))
    case Uint => Some(EUint(w))
    case _ => None
  }

  predicate IsFloatOpcode(op: BinOpcode) {
    op in {FAdd, FSub, FMul, FDiv, FOrdEqual, FOrdNotEqual, FOrdLessThan, FOrdLessThanEqual, FOrdGreaterThan,
           FOrdGreaterThanEqual}
  }

  /** Meaning of a binary opcode on one component; `kind` is the component kind of the result type. */
  function BinElem(fo: FloatOps, op: BinOpcode, kind: ScalarKind, a: Elem, b: Elem): Option<Elem> {
    if IsFloatOpcode(op) then
      if a.EFloat? && b.EFloat? then FloatElem(fo, op, a.w, b.w) else None
    else if op in {LogicalAnd, LogicalOr} then
      if a.EBool? && b.EBool? then Some(EBool(if op == LogicalAnd then a.b && b.b else a.b || b.b)) else None
    else
      var x :- Bits(a);
      var y :- Bits(b);
      IntegerElem(op, kind, x, y)
  }

  /** Integer opcodes work on bit patterns of either signedness. */
  function IntegerElem(op: BinOpcode, kind: ScalarKind, x: Word, y: Word): Option<Elem> {
    match op
    case IAdd => IntElem(kind, Wrap(x + y))
    case ISub => IntElem(kind, Wrap(x - y))
    case IMul => IntElem(kind, Wrap(x * y))
    case SDiv =>
      if Signed(y) == 0 || (Signed(x) == -TWO_31 && Signed(y) == -1) then None
      else IntElem(kind, Wrap(TruncDiv(Signed(x), Signed(y))))
    case UDiv => if y == 0 then None else IntElem(kind, Wrap(x / y))
    case IEqual => Some(EBool(x == y))
    case INotEqual => Some(EBool(x != y))
    case SLessThan => Some(EBool(Signed(x) < Signed(y)))
    case SLessThanEqual => Some(EBool(Signed(x) <= Signed(y)))
    case SGreaterThan => Some(EBool(Signed(x) > Signed(y)))
    case SGreaterThanEqual => Some(EBool(Signed(x) >= Signed(y)))
    case _ => None
  }

  /** The `FOrd` comparisons are false as soon as an operand is a NaN. */
  function FloatElem(fo: FloatOps, op: BinOpcode, x: Word, y: Word): Option<Elem> {
    var ordered := !fo.isNan(x) && !fo.isNan(y);
    match op
    case FAdd => Some(EFloat(fo.add(x, y)))
    case FSub => Some(EFloat(fo.sub(x, y)))
    case FMul => Some(EFloat(fo.mul(x, y)))
    case FDiv => Some(EFloat(fo.div(x, y)))
    case FOrdEqual => Some(EBool(ordered && fo.equal(x, y)))
    case FOrdNotEqual => Some(EBool(ordered && !fo.equal(x, y)))
    case FOrdLessThan => Some(EBool(ordered && fo.less(x, y)))
    case FOrdLessThanEqual => Some(EBool(ordered && (fo.less(x, y) || fo.equal(x, y))))
    case FOrdGreaterThan => Some(EBool(ordered && fo.less(y, x)))
    case FOrdGreaterThanEqual => Some(EBool(ordered && (fo.less(y, x) || fo.equal(y, x))))
    case _ => None
  }

  function UnElem(fo: FloatOps, op: UnOpcode, kind: ScalarKind, a: Elem): Option<Elem> {
    match op
    case FNegate => if a.EFloat? then Some(EFloat(fo.neg(a.w))) else None
    case LogicalNot => if a.EBool? then Some(EBool(!a.b)) else None
    case SNegate =>
      var x :- Bits(a);
      IntElem(kind, Wrap(0 - x))
    case BitwiseNot =>
      var x :- Bits(a);
      IntElem(kind, TWO_32 - 1 - x)
    case ConvertSToF =>
      var x :- Bits(a);
      if kind == Float then Some(EFloat(fo.sToF(Signed(x)))) else None
    case ConvertUToF =>
      var x :- Bits(a);
      if kind == Float then Some(EFloat(fo.uToF(x))) else None
    case ConvertFToS => if a.EFloat? then IntElem(kind, fo.fToS(a.w)) else None
    case ConvertFToU => if a.EFloat? then IntElem(kind, fo.fToU(a.w)) else None
  }

  function BinFn(fo: FloatOps, op: BinOpcode, kind: ScalarKind): (Elem, Elem) -> Option<Elem> {
    (x, y) => BinElem(fo, op, kind, x, y)
  }

  function UnFn(fo: FloatOps, op: UnOpcode, kind: ScalarKind): (Elem, Elem) -> Option<Elem> {
    (x, _) => UnElem(fo, op, kind, x)
  }

  /** Numbers of the GLSL.std.450 extended instruction set. */
  function FnOfNumber(n: nat): Option<Fn> {
    match n
    case 4 => Some(FAbs)
    case 8 => Some(Floor)
    case 9 => Some(Ceil)
    case 10 => Some(Fract)
    case 13 => Some(Sin)
    case 14 => Some(Cos)
    case 15 => Some(Tan)
    case 16 => Some(Asin)
    case 17 => Some(Acos)
    case 18 => Some(Atan)
    case 26 => Some(Pow)
    case 27 => Some(Exp)
    case 28 => Some(Log)
    case 31 => Some(Sqrt)
    case 32 => Some(InverseSqrt)
    case 37 => Some(FMin)
    case 40 => Some(FMax)
    case 43 => Some(FClamp)
    case 46 => Some(FMix)
    case 66 => Some(Length)
    case 68 => Some(Cross)
    case 69 => Some(Normalize)
    case _ => None
  }

  // --- machine states ---

  /** A pointer into variable `base`; `ty` is the type it points to. */
  datatype Pointer = Pointer(base: Id, path: Path, ty: Type)

  datatype RegVal = RV(v: Value) | RP(p: Pointer)

  datatype Mach = Mach(regs: map<Id, RegVal>, mem: map<Id, Value>)

  /** Fixed surroundings of a run: float arithmetic, struct types, the arbitrary initial contents of
      variables, and the program. */
  datatype Cx = Cx(fo: FloatOps, structs: Structs, seed: Id -> Value, prog: seq<BasicBlock>)

  datatype Config =
    | Running(block: nat, pos: nat, m: Mach)
    | Halted(m: Mach)
    | Broken

  function ValueOf(m: Mach, id: Id): Option<Value> {
    if id in m.regs && m.regs[id].RV? then Some(m.regs[id].v) else None
  }

  function PointerOf(m: Mach, id: Id): Option<Pointer> {
    if id in m.regs && m.regs[id].RP? then Some(m.regs[id].p) else None
  }

  function ValuesOf(m: Mach, ids: seq<Id>): (r: Option<seq<Value>>)
    ensures r.Some? ==> |r.value| == |ids|
  {
    if ids == [] then Some([])
    else
      var v :- ValueOf(m, ids[0]);
      var vs :- ValuesOf(m, ids[1..]);
      Some([v] + vs)
  }

  /** The value a value-producing instruction computes, before its result type is checked. */
  ghost function Compute(cx: Cx, i: Instr, m: Mach): Option<Value> {
    match i
    case OpLoad(_, ty, ptr) =>
      var p :- PointerOf(m, ptr);
      if p.base in m.mem && p.ty == ty then Some(GetPath(m.mem[p.base], p.path)) else None
    case OpBin(_, op, ty, a, b) =>
      var x :- ValueOf(m, a);
      var y :- ValueOf(m, b);
      if ty.Scalar? || ty.Vector? then Lift2(BinFn(cx.fo, op, ty.kind), x, y) else None
    case OpUn(_, op, ty, a) =>
      var x :- ValueOf(m, a);
      if ty.Scalar? || ty.Vector? then Lift2(UnFn(cx.fo, op, ty.kind), x, x) else None
    case OpAny(_, a) =>
      var x :- ValueOf(m, a);
      if x.VVec? && forall j :: 0 <= j < |x.c| ==> x.c[j].EBool? then
        Some(VScalar(EBool(exists j :: 0 <= j < |x.c| && x.c[j].b)))
      else None
    case OpCompositeConstruct(_, _, parts) =>
      var vs :- ValuesOf(m, parts);
      var c :- Flatten(vs);
      Some(VVec(c))
    case OpCompositeExtract(_, _, a, idx) =>
      var x :- ValueOf(m, a);
      if x.VVec? && idx < |x.c| then Some(VScalar(x.c[idx])) else None
    case OpVectorShuffle(_, _, a, b, idxs) =>
      var x :- ValueOf(m, a);
      var y :- ValueOf(m, b);
      if x.VVec? && y.VVec? && (forall j :: 0 <= j < |idxs| ==> idxs[j] < |x.c| + |y.c|) then
        Some(VVec(seq(|idxs|, j requires 0 <= j < |idxs| && idxs[j] < |x.c| + |y.c| => (x.c + y.c)[idxs[j]])))
      else None
    case OpExtInst(_, _, number, args) =>
      var vs :- ValuesOf(m, args);
      var fn :- FnOfNumber(number);
      ApplyFn(cx.fo, fn, vs)
    case OpDot(_, _, a, b) =>
      var x :- ValueOf(m, a);
      var y :- ValueOf(m, b);
      DotValue(cx.fo, x, y)
    case _ => None
  }

  /** The result type a value-producing instruction names. */
  function ResultType(i: Instr): Type {
    match i
    case OpLoad(_, ty, _) => ty
    case OpBin(_, _, ty, _, _) => ty
    case OpUn(_, _, ty, _) => ty
    case OpCompositeConstruct(_, ty, _) => ty
    case OpCompositeExtract(_, ty, _, _) => ty
    case OpVectorShuffle(_, ty, _, _, _) => ty
    case OpExtInst(_, ty, _, _) => ty
    case OpDot(_, ty, _, _) => ty
    case _ => Scalar(Bool)
  }

  /** Execute an instruction that is not a terminator. */
  ghost function ExecInstr(cx: Cx, i: Instr, m: Mach): Option<Mach> {
    match i
    case OpVariable(id, ty) =>
      Some(Mach(m.regs[id := RP(Pointer(id, [], ty))], m.mem[id := cx.seed(id)]))
    case OpStore(ptr, val) =>
      var p :- PointerOf(m, ptr);
      var v :- ValueOf(m, val);
      if p.base in m.mem && HasType(cx.structs, v, p.ty) then
        Some(m.(mem := m.mem[p.base := SetPath(m.mem[p.base], p.path, v)]))
      else None
    case OpAccessChain(id, base, index) =>
      var p :- PointerOf(m, base);
      var k :- ValueOf(m, index);
      if k.VScalar? && k.e.EInt? && p.ty.Struct? && p.ty.name in cx.structs && k.e.w < |cx.structs[p.ty.name]| then
        var members := cx.structs[p.ty.name];
        Some(m.(regs := m.regs[id := RP(Pointer(p.base, p.path + [Step(k.e.w, |members|)], members[k.e.w].ty))]))
      else None
    case OpSelectionMerge(_) => Some(m)
    case OpLoopMerge(_, _) => Some(m)
    case _ =>
      var v :- Compute(cx, i, m);
      var id :- DefOf(i);
      if HasType(cx.structs, v, ResultType(i)) then Some(m.(regs := m.regs[id := RV(v)])) else None
  }

  /** The first block labelled `l`. */
  function FindBlock(prog: seq<BasicBlock>, l: Id): (r: Option<nat>)
    ensures r.Some? ==> r.value < |prog| && prog[r.value].lbl == l
    ensures r.None? ==> forall i :: 0 <= i < |prog| ==> prog[i].lbl != l
  {
    if prog == [] then None
    else if prog[0].lbl == l then Some(0)
    else match FindBlock(prog[1..], l)
      case Some(i) => Some(i + 1)
      case None => None
  }

  function Jump(cx: Cx, l: Id, m: Mach): Config {
    match FindBlock(cx.prog, l)
    case Some(b) => Running(b, 0, m)
    case None => Broken
  }

  ghost function StepConfig(cx: Cx, c: Config): Config {
    match c
    case Running(b, pos, m) => (
      if !(b < |cx.prog| && pos < |cx.prog[b].instrs|) then Broken
      else match cx.prog[b].instrs[pos]
        case OpBranch(l) => Jump(cx, l, m)
        case OpBranchConditional(cond, t, f) => (
          match ValueOf(m, cond)
          case Some(VScalar(EBool(x))) => Jump(cx, if x then t else f, m)
          case _ => Broken)
        case OpReturn => Halted(m)
        case i =>
          match ExecInstr(cx, i, m)
          case Some(m') => Running(b, pos + 1, m')
          case None => Broken)
    case _ => c
  }

  ghost function Steps(cx: Cx, c: Config, n: nat): Config
    decreases n
  {
    if n == 0 then c else Steps(cx, StepConfig(cx, c), n - 1)
  }

  lemma {:induction false} StepsAdd(cx: Cx, c: Config, a: nat, b: nat)
    ensures Steps(cx, c, a + b) == Steps(cx, Steps(cx, c, a), b)
    decreases a
  {
    if a > 0 {
      StepsAdd(cx, StepConfig(cx, c), a - 1, b);
    }
  }

  /** A run that has stopped stays stopped. */
  lemma {:induction false} StoppedStays(cx: Cx, c: Config, n: nat)
    requires !c.Running?
    ensures Steps(cx, c, n) == c
    decreases n
  {
    if n > 0 {
      StoppedStays(cx, c, n - 1);
    }
  }

  /** A run still going after `n` steps was going all along. */
  lemma {:induction false} RunningBefore(cx: Cx, c: Config, j: nat, n: nat)
    requires j <= n && Steps(cx, c, n).Running?
    ensures Steps(cx, c, j).Running?
  {
    StepsAdd(cx, c, j, n - j);
    if !Steps(cx, c, j).Running? {
      StoppedStays(cx, Steps(cx, c, j), n - j);
    }
  }

  lemma {:induction false} FindBlockUnique(prog: seq<BasicBlock>, i: nat)
    requires i < |prog|
    requires forall a, b :: 0 <= a < b < |prog| ==> prog[a].lbl != prog[b].lbl
    ensures FindBlock(prog, prog[i].lbl) == Some(i)
  {
  }
}
