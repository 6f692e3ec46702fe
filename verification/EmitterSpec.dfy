/** What codegen.rs emits, as functions from one emitter state to the next. `CodegenContext.Ctx` is the
    stateful emitter itself and is proved to compute exactly these functions. */
module EmitterSpec {
  import opened Wrappers
  import opened Ast
  import opened Values
  import opened SpirvMachine

  /** A result id with its HLSL type. */
  datatype Val = Val(id: Id, ty: Type)

  /** A named Function-storage pointer. */
  datatype Local = Local(name: string, ptr: Id, ty: Type)

  datatype Var = Var(id: Id, ty: Type)

  /** What was emitted before the function body: registered structs and interface variables. */
  datatype Globals = Globals(structs: Structs, outVar: Option<Id>, outTy: Type, inputs: seq<Id>)

  /** `done` are the closed blocks, `open` the block being filled, `vars` the hoisted variables, newest first.
      Ids below `first` belong to the module outside the function. */
  datatype St = St(
    first: Id,
    nextId: Id,
    consts: map<Id, Const>,
    vars: seq<Var>,
    locals: seq<Local>,
    done: seq<BasicBlock>,
    open: Option<BasicBlock>)

  // --- builder primitives ---

  function Push(st: St, i: Instr): Result<St> {
    match st.open
    case Some(b) => Ok(st.(open := Some(b.(instrs := b.instrs + [i]))))
    case None => Err("instruction insert failed")
  }

  /** Append an instruction that defines the next fresh id. */
  function PushNew(st: St, i: Instr): Result<(St, Id)>
    requires DefOf(i) == Some(st.nextId)
  {
    var st1 :- Push(st.(nextId := st.nextId + 1), i);
    Ok((st1, st.nextId))
  }

  function AddConst(st: St, c: Const): (St, Id) {
    (st.(nextId := st.nextId + 1, consts := st.consts[st.nextId := c]), st.nextId)
  }

  /** Terminate the open block. */
  function Close(st: St, terminator: Instr): Result<St> {
    match st.open
    case Some(b) => Ok(st.(done := st.done + [b.(instrs := b.instrs + [terminator])], open := None))
    case None => Err("no open block")
  }

  function Begin(st: St, l: Id): Result<St> {
    if st.open.Some? then Err("nested block") else Ok(st.(open := Some(BasicBlock(l, []))))
  }

  /** Close the open block, if there is one, with a branch. */
  function BranchIfOpen(st: St, l: Id): Result<St> {
    if st.open.Some? then Close(st, OpBranch(l)) else Ok(st)
  }

  /** Whether a type has a SPIR-V value type. */
  predicate HasTypeId(g: Globals, ty: Type) {
    match ty
    case Struct(name) => name in g.structs
    case Texture2D => false
    case SamplerState => false
    case _ => true
  }

  function AllocLocal(g: Globals, st: St, ty: Type): Result<(St, Id)> {
    if !HasTypeId(g, ty) then Err("no value type")
    else if st.done == [] && st.open.None? then Err("function has no entry block yet")
    else Ok((st.(nextId := st.nextId + 1, vars := [Var(st.nextId, ty)] + st.vars), st.nextId))
  }

  // --- tables ---

  function LookupLocal(locals: seq<Local>, name: string): (r: Option<nat>)
    ensures r.Some? ==> r.value < |locals| && locals[r.value].name == name
    ensures r.Some? ==> forall i :: r.value < i < |locals| ==> locals[i].name != name
    ensures r.None? ==> forall i :: 0 <= i < |locals| ==> locals[i].name != name
  {
    if locals == [] then None
    else if locals[|locals| - 1].name == name then Some(|locals| - 1)
    else LookupLocal(locals[..|locals| - 1], name)
  }

  function ArithOpcode(op: BinaryOp, ty: Type): Option<BinOpcode> {
    if !(ty.Scalar? || ty.Vector?) then None
    else
      var isFloat := ty.kind == Float;
      var isInteger := ty.Vector? || ty.kind in {Int, Uint};
      match op
      case Add => if isFloat then Some(FAdd) else if isInteger then Some(IAdd) else None
      case Sub => if isFloat then Some(FSub) else if isInteger then Some(ISub) else None
      case Mul => if isFloat then Some(FMul) else if isInteger then Some(IMul) else None
      case Div =>
        if isFloat then Some(FDiv)
        else if ty.kind == Int then Some(SDiv)
        else if ty.kind == Uint then Some(UDiv)
        else None
      case _ => None
  }

  function CompareOpcode(op: BinaryOp, isFloat: bool): Option<BinOpcode> {
    match op
    case Eq => Some(if isFloat then FOrdEqual else IEqual)
    case Ne => Some(if isFloat then FOrdNotEqual else INotEqual)
    case Lt => Some(if isFloat then FOrdLessThan else SLessThan)
    case Le => Some(if isFloat then FOrdLessThanEqual else SLessThanEqual)
    case Gt => Some(if isFloat then FOrdGreaterThan else SGreaterThan)
    case Ge => Some(if isFloat then FOrdGreaterThanEqual else SGreaterThanEqual)
    case _ => None
  }

  function UnaryOpcode(op: UnaryOp, ty: Type): Option<UnOpcode> {
    match op
    case Neg =>
      if (ty.Scalar? || ty.Vector?) && ty.kind == Float then Some(FNegate)
      else if ty.Vector? || (ty.Scalar? && ty.kind in {Int, Uint}) then Some(SNegate)
      else None
    case Not => if (ty.Scalar? || ty.Vector?) && ty.kind == Bool then Some(LogicalNot) else Some(BitwiseNot)
    case BitNot => Some(BitwiseNot)
  }

  /** Conversions with an opcode of their own. */
  function ConvertOpcode(from: ScalarKind, to: ScalarKind): Option<UnOpcode> {
    match (from, to)
    case (Int, Float) => Some(ConvertSToF)
    case (Uint, Float) => Some(ConvertUToF)
    case (Float, Int) => Some(ConvertFToS)
    case (Float, Uint) => Some(ConvertFToU)
    case _ => None
  }

  /** The opcode an implicit conversion uses: chosen by the source kind alone for int and uint. */
  function CoerceOpcode(from: ScalarKind, to: ScalarKind): Option<UnOpcode> {
    match from
    case Int => Some(ConvertSToF)
    case Uint => Some(ConvertUToF)
    case Float => ConvertOpcode(Float, to)
    case Bool => None
  }

  /** Extended-instruction number and operand count of an intrinsic. */
  function ExtInstOf(name: string): Option<(nat, nat)> {
    match name
    case "abs" => Some((4, 1))
    case "sqrt" => Some((31, 1))
    case "rsqrt" => Some((32, 1))
    case "sin" => Some((13, 1))
    case "cos" => Some((14, 1))
    case "tan" => Some((15, 1))
    case "asin" => Some((16, 1))
    case "acos" => Some((17, 1))
    case "atan" => Some((18, 1))
    case "exp" => Some((27, 1))
    case "log" => Some((28, 1))
    case "normalize" => Some((69, 1))
    case "length" => Some((66, 1))
    case "floor" => Some((8, 1))
    case "ceil" => Some((9, 1))
    case "frac" => Some((10, 1))
    case "cross" => Some((68, 2))
    case "pow" => Some((26, 2))
    case "min" => Some((37, 2))
    case "max" => Some((40, 2))
    case "clamp" => Some((43, 3))
    case "lerp" => Some((46, 3))
    case _ => None
  }

  const FCLAMP: nat := 43

  // --- type inference ---

  function InferType(g: Globals, locals: seq<Local>, e: Expr): Result<Type>
    decreases e
  {
    match e
    case Lit(IntLit(_)) => Ok(Scalar(Int))
    case Lit(UintLit(_)) => Ok(Scalar(Uint))
    case Lit(FloatLit(_)) => Ok(Scalar(Float))
    case Lit(BoolLit(_)) => Ok(Scalar(Bool))
    case Construct(ty, _) => Ok(ty)
    case Cast(ty, _) => Ok(ty)
    case Ident(name) => (
      match LookupLocal(locals, name)
      case Some(i) => Ok(locals[i].ty)
      case None => Err("undefined identifier"))
    case Member(base, member) =>
      var bt :- InferType(g, locals, base);
      MemberType(g, bt, member)
    case Call(name, args) =>
      if name == "length" then Ok(Scalar(Float))
      else if name == "mul" then
        if |args| < 2 then Err("index out of bounds") else
        var a :- InferType(g, locals, args[0]);
        var b :- InferType(g, locals, args[1]);
        if a.Matrix? || b.Matrix? then Err("matrix product") else Ok(a)
      else if name in INFERRED_FROM_FIRST then
        if |args| < 1 then Err("index out of bounds") else
        var a :- InferType(g, locals, args[0]);
        Ok(if name == "dot" && a.Vector? then Scalar(a.kind) else a)
      else Err("cannot infer result type")
    case MethodCall(_, method', _) => if method' == "Sample" then Ok(Vector(Float, 4)) else Err("unknown method")
    case Binary(op, lhs, rhs) =>
      if IsComparison(op) then
        var lt :- InferType(g, locals, lhs);
        Ok(if lt.Vector? then Vector(Bool, lt.n) else Scalar(Bool))
      else if op in {And, Or} then Ok(Scalar(Bool))
      else
        var lt :- InferType(g, locals, lhs);
        if lt.IsComposite() then Ok(lt) else InferType(g, locals, rhs)
    case Unary(_, x) => InferType(g, locals, x)
  }

  /** Intrinsics whose inferred type follows the first argument. */
  const INFERRED_FROM_FIRST: set<string> := {
    "dot", "normalize", "abs", "sqrt", "rsqrt", "sin", "cos", "tan", "exp", "log", "floor", "ceil", "frac",
    "saturate", "clamp", "lerp", "min", "max", "pow", "cross"}

  /** Type of `.member` on a value of type `ty`: a struct field or a swizzle. */
  function MemberType(g: Globals, ty: Type, member: string): Result<Type> {
    match ty
    case Struct(name) => (
      if name !in g.structs then Err("unknown struct")
      else match FindMember(g.structs[name], member)
        case Some(i) => Ok(g.structs[name][i].ty)
        case None => Err("no member"))
    case Vector(kind, _) => (
      match DecodeSwizzle(member)
      case Some(idx) => Ok(if |idx| == 1 then Scalar(kind) else Vector(kind, |idx|))
      case None => Err("invalid swizzle"))
    case _ => Err("member access")
  }

  // --- expressions ---

  function EmitPlace(g: Globals, st: St, e: Expr): Result<(St, Val)>
    decreases e, 0
  {
    match e
    case Ident(name) => (
      match LookupLocal(st.locals, name)
      case Some(i) => Ok((st, Val(st.locals[i].ptr, st.locals[i].ty)))
      case None => Err("undefined identifier"))
    case Member(base, member) =>
      var (st1, b) :- EmitPlace(g, st, base);
      if !b.ty.Struct? then Err("cannot take address of member") else
      if b.ty.name !in g.structs then Err("unknown struct") else (
      match FindMember(g.structs[b.ty.name], member)
      case None => Err("no member")
      case Some(idx) =>
        var ty := g.structs[b.ty.name][idx].ty;
        if !HasTypeId(g, ty) then Err("no value type") else
        var (st2, k) := AddConst(st1, CWord(Int, Wrap(idx)));
        var (st3, id) :- PushNew(st2, OpAccessChain(st2.nextId, b.id, k));
        Ok((st3, Val(id, ty))))
    case _ => Err("expression is not assignable")
  }

  function EmitExpr(g: Globals, st: St, e: Expr): Result<(St, Val)>
    decreases e, 1
  {
    match e
    case Lit(lit) => Ok(EmitLit(st, lit))
    case Construct(ty, args) =>
      if ty.Scalar? then
        if |args| != 1 then Err("one argument expected") else
        var (st1, v) :- EmitExpr(g, st, args[0]);
        if ty.kind == Float then Ok((st1, v)) else CoerceScalar(st1, v, ty.kind)
      else if ty.Vector? then
        var (st1, vs) :- EmitArgs(g, st, args);
        Assemble(st1, ty, vs)
      else Err("constructor not supported")
    case Ident(_) =>
      var (st1, p) :- EmitPlace(g, st, e);
      EmitLoad(g, st1, p)
    case Member(base, member) =>
      var bt :- InferType(g, st.locals, base);
      if bt.Struct? then
        var (st1, p) :- EmitPlace(g, st, e);
        EmitLoad(g, st1, p)
      else if bt.Vector? then
        var (st1, b) :- EmitExpr(g, st, base);
        EmitSwizzle(st1, b, member, bt.kind)
      else Err("member access")
    case Call(name, args) =>
      var (st1, vs) :- EmitArgs(g, st, args);
      FinishCall(g, st1, name, vs)
    case MethodCall(_, _, _) => Err("textures are not modelled")
    case Binary(op, lhs, rhs) =>
      if op == Assign then
        var (st1, p) :- EmitPlace(g, st, lhs);
        var (st2, v) :- EmitExpr(g, st1, rhs);
        var (st3, w) :- Coerce(st2, v, p.ty);
        var st4 :- Push(st3, OpStore(p.id, w.id));
        Ok((st4, w))
      else if IsCompound(op) then
        var (st1, p) :- EmitPlace(g, st, lhs);
        var (st2, cur) :- EmitLoad(g, st1, p);
        var (st3, v) :- EmitExpr(g, st2, rhs);
        var (st4, r) :- EmitArith(g, st3, CoreOp(op), cur, v);
        var st5 :- Push(st4, OpStore(p.id, r.id));
        Ok((st5, r))
      else
        var (st1, a) :- EmitExpr(g, st, lhs);
        var (st2, b) :- EmitExpr(g, st1, rhs);
        if IsComparison(op) then EmitComparison(st2, op, a, b)
        else if op in {And, Or} then
          var (st3, id) :- PushNew(st2, OpBin(st2.nextId, if op == And then LogicalAnd else LogicalOr, Scalar(Bool), a.id, b.id));
          Ok((st3, Val(id, Scalar(Bool))))
        else EmitArith(g, st2, op, a, b)
    case Unary(op, x) =>
      var (st1, v) :- EmitExpr(g, st, x);
      if !HasTypeId(g, v.ty) then Err("no value type") else (
      match UnaryOpcode(op, v.ty)
      case None => Err("unsupported unary")
      case Some(opc) =>
        var (st2, id) :- PushNew(st1, OpUn(st1.nextId, opc, v.ty, v.id));
        Ok((st2, Val(id, v.ty))))
    case Cast(ty, x) =>
      var (st1, v) :- EmitExpr(g, st, x);
      if !HasTypeId(g, ty) then Err("no value type")
      else if v.ty == ty then Ok((st1, v))
      else if !(v.ty.Scalar? && ty.Scalar? && ConvertOpcode(v.ty.kind, ty.kind).Some?) then Err("unsupported cast")
      else
        var (st2, id) :- PushNew(st1, OpUn(st1.nextId, ConvertOpcode(v.ty.kind, ty.kind).value, ty, v.id));
        Ok((st2, Val(id, ty)))
  }

  function EmitArgs(g: Globals, st: St, args: seq<Expr>): (r: Result<(St, seq<Val>)>)
    ensures r.Ok? ==> |r.value.1| == |args|
    decreases args, 0
  {
    if args == [] then Ok((st, []))
    else
      var (st1, v) :- EmitExpr(g, st, args[0]);
      var (st2, vs) :- EmitArgs(g, st1, args[1..]);
      Ok((st2, [v] + vs))
  }

  function EmitLit(st: St, lit: Literal): (St, Val) {
    match lit
    case IntLit(i) => (var (st1, id) := AddConst(st, CWord(Int, Wrap(i))); (st1, Val(id, Scalar(Int))))
    case UintLit(u) => (var (st1, id) := AddConst(st, CWord(Uint, Wrap(u))); (st1, Val(id, Scalar(Uint))))
    case FloatLit(f) => (var (st1, id) := AddConst(st, CFloat(f)); (st1, Val(id, Scalar(Float))))
    case BoolLit(b) => (var (st1, id) := AddConst(st, CBool(b)); (st1, Val(id, Scalar(Bool))))
  }

  function EmitLoad(g: Globals, st: St, p: Val): Result<(St, Val)> {
    if !HasTypeId(g, p.ty) then Err("no value type") else
    var (st1, id) :- PushNew(st, OpLoad(st.nextId, p.ty, p.id));
    Ok((st1, Val(id, p.ty)))
  }

  function EmitSwizzle(st: St, b: Val, member: string, kind: ScalarKind): Result<(St, Val)> {
    match DecodeSwizzle(member)
    case None => Err("invalid swizzle")
    case Some(idx) =>
      if |idx| == 1 then
        var (st1, id) :- PushNew(st, OpCompositeExtract(st.nextId, Scalar(kind), b.id, idx[0]));
        Ok((st1, Val(id, Scalar(kind))))
      else
        var ty := Vector(kind, |idx|);
        var (st1, id) :- PushNew(st, OpVectorShuffle(st.nextId, ty, b.id, b.id, idx));
        Ok((st1, Val(id, ty)))
  }

  function Ids(vs: seq<Val>): (r: seq<Id>)
    ensures |r| == |vs|
  {
    seq(|vs|, i requires 0 <= i < |vs| => vs[i].id)
  }

  /** Vector constructor: one scalar is replicated, several parts are laid end to end. */
  function Assemble(st: St, ty: Type, vs: seq<Val>): Result<(St, Val)>
    requires ty.Vector?
  {
    if |vs| == 1 && !vs[0].ty.Scalar? then Err("broadcast needs a scalar argument") else
    var parts := if |vs| == 1 then seq(ty.n, _ => vs[0].id) else Ids(vs);
    var (st1, id) :- PushNew(st, OpCompositeConstruct(st.nextId, ty, parts));
    Ok((st1, Val(id, ty)))
  }

  function EmitArith(g: Globals, st: St, op: BinaryOp, a: Val, b: Val): Result<(St, Val)> {
    var ty := if a.ty.IsComposite() then a.ty else b.ty;
    if !HasTypeId(g, ty) then Err("no value type") else
    match ArithOpcode(op, ty)
    case None => Err("unsupported arithmetic op")
    case Some(opc) =>
      var (st1, id) :- PushNew(st, OpBin(st.nextId, opc, ty, a.id, b.id));
      Ok((st1, Val(id, ty)))
  }

  function EmitComparison(st: St, op: BinaryOp, a: Val, b: Val): Result<(St, Val)> {
    var isFloat := (a.ty.Scalar? || a.ty.Vector?) && a.ty.kind == Float;
    var ty := if a.ty.Vector? then Vector(Bool, a.ty.n) else Scalar(Bool);
    match CompareOpcode(op, isFloat)
    case None => Err("unsupported comparison")
    case Some(opc) =>
      var (st1, id) :- PushNew(st, OpBin(st.nextId, opc, ty, a.id, b.id));
      Ok((st1, Val(id, ty)))
  }

  /** Scalar coercion; where there is no opcode the value passes unchanged. */
  function CoerceScalar(st: St, v: Val, kind: ScalarKind): Result<(St, Val)> {
    if v.ty == Scalar(kind) || !v.ty.Scalar? then Ok((st, v)) else
    match CoerceOpcode(v.ty.kind, kind)
    case None => Ok((st, v))
    case Some(opc) =>
      var (st1, id) :- PushNew(st, OpUn(st.nextId, opc, Scalar(kind), v.id));
      Ok((st1, Val(id, Scalar(kind))))
  }

  function Coerce(st: St, v: Val, ty: Type): Result<(St, Val)> {
    if v.ty != ty && v.ty.Scalar? && ty.Scalar? then CoerceScalar(st, v, ty.kind) else Ok((st, v))
  }

  /** Conditions: a bool, or `OpAny` of a bool vector. */
  function CoerceToBool(st: St, v: Val): Result<(St, Id)> {
    if v.ty == Scalar(Bool) then Ok((st, v.id))
    else if v.ty.Vector? && v.ty.kind == Bool then PushNew(st, OpAny(st.nextId, v.id))
    else Err("expected bool condition")
  }

  /** Spread a scalar constant over the shape of `ty`. */
  function BroadcastConst(st: St, c: Id, ty: Type): Result<(St, Id)> {
    match ty
    case Scalar(_) => Ok((st, c))
    case Vector(_, n) => PushNew(st, OpCompositeConstruct(st.nextId, Vector(Float, n), seq(n, _ => c)))
    case _ => Err("cannot broadcast")
  }

  /** `saturate(x)` is `clamp(x, 0, 1)`. */
  function EmitSaturate(g: Globals, st: St, x: Val): Result<(St, Val)> {
    var (st1, lo) := AddConst(st, CFloat(F64_ZERO));
    var (st2, hi) := AddConst(st1, CFloat(F64_ONE));
    if !HasTypeId(g, x.ty) then Err("no value type") else
    var (st3, lo') :- BroadcastConst(st2, lo, x.ty);
    var (st4, hi') :- BroadcastConst(st3, hi, x.ty);
    var (st5, id) :- PushNew(st4, OpExtInst(st4.nextId, x.ty, FCLAMP, [x.id, lo', hi']));
    Ok((st5, Val(id, x.ty)))
  }

  function FinishCall(g: Globals, st: St, name: string, vs: seq<Val>): Result<(St, Val)> {
    if name == "saturate" && |vs| == 1 then EmitSaturate(g, st, vs[0])
    else if name == "dot" && |vs| == 2 then
      var ty := if vs[0].ty.Vector? then Scalar(vs[0].ty.kind) else vs[0].ty;
      if !HasTypeId(g, ty) then Err("no value type") else
      var (st1, id) :- PushNew(st, OpDot(st.nextId, ty, vs[0].id, vs[1].id));
      Ok((st1, Val(id, ty)))
    else if name == "mul" then
      if |vs| != 2 then Err("mul expects 2 arguments")
      else if vs[0].ty.Matrix? || vs[1].ty.Matrix? then Err("matrix products are not modelled")
      else EmitArith(g, st, Mul, vs[0], vs[1])
    else match ExtInstOf(name)
      case None => Err("unknown intrinsic")
      case Some((number, arity)) =>
        if |vs| != arity then Err("wrong number of arguments") else
        var ty := if name == "length" || vs == [] then Scalar(Float) else vs[|vs| - 1].ty;
        if !HasTypeId(g, ty) then Err("no value type") else
        var (st1, id) :- PushNew(st, OpExtInst(st.nextId, ty, number, Ids(vs)));
        Ok((st1, Val(id, ty)))
  }

  // --- statements ---

  function EmitStmts(g: Globals, st: St, ss: seq<Stmt>): Result<St>
    decreases ss, 0
  {
    if ss == [] then Ok(st)
    else
      var st1 :- EmitStmt(g, st, ss[0]);
      if st1.open.None? then Ok(st1) else EmitStmts(g, st1, ss[1..])
  }

  function EmitStmt(g: Globals, st: St, s: Stmt): Result<St>
    decreases s, 1
  {
    match s
    case Return(None) => Close(st, OpReturn)
    case Return(Some(e)) =>
      var (st1, v) :- EmitExpr(g, st, e);
      var st2 :- if g.outVar.Some? then Push(st1, OpStore(g.outVar.value, v.id)) else Ok(st1);
      Close(st2, OpReturn)
    case Decl(d) =>
      var (st1, ptr) :- AllocLocal(g, st, d.ty);
      var st2 :- EmitInit(g, st1, ptr, d.init);
      Ok(st2.(locals := st2.locals + [Local(d.name, ptr, d.ty)]))
    case ExprStmt(e) =>
      var (st1, _) :- EmitExpr(g, st, e);
      Ok(st1)
    case If(cond, thenBlock, elseBlock) =>
      var (st1, thenL) :- EmitIfHead(g, st, cond, elseBlock.Some?);
      var mergeL := thenL + 1;
      var st2 :- EmitArm(g, st1, thenL, thenBlock.stmts, mergeL);
      var st3 :- match elseBlock { case Some(b) => EmitArm(g, st2, thenL + 2, b.stmts, mergeL) case None => Ok(st2) };
      Begin(st3, mergeL)
    case For(init, _, _, _) =>
      var st1 :- match init { case Some(i) => EmitStmt(g, st, i) case None => Ok(st) };
      if st1.open.None? then Ok(st1) else EmitLoop(g, st1, s)
    case Nested(b) => EmitStmts(g, st, b.stmts)
  }

  /** Evaluate a condition and branch on it. Labels: then, then merge, then (if there is one) else. */
  function EmitIfHead(g: Globals, st: St, cond: Expr, hasElse: bool): Result<(St, Id)> {
    var (st1, c) :- EmitExpr(g, st, cond);
    var (st2, cid) :- CoerceToBool(st1, c);
    var thenL := st2.nextId;
    var st3 := st2.(nextId := if hasElse then thenL + 3 else thenL + 2);
    var st4 :- Push(st3, OpSelectionMerge(thenL + 1));
    var st5 :- Close(st4, OpBranchConditional(cid, thenL, if hasElse then thenL + 2 else thenL + 1));
    Ok((st5, thenL))
  }

  /** A loop after its initialiser. Labels: header, body, continue, merge. */
  function EmitLoop(g: Globals, st: St, s: Stmt): Result<St>
    requires s.For?
    decreases s, 0
  {
    var header := st.nextId;
    var (bodyL, cont, merge) := (header + 1, header + 2, header + 3);
    var st1 :- EmitHeader(g, st, s.test);
    var st2 :- EmitArm(g, st1, bodyL, s.body.stmts, cont);
    var st3 :- EmitContinue(g, st2, s.update, header, cont);
    Begin(st3, merge)
  }

  /** Enter the header block, declare the loop and test its condition. */
  function EmitHeader(g: Globals, st: St, test: Option<Expr>): Result<St> {
    var header := st.nextId;
    var st1 :- Close(st.(nextId := header + 4), OpBranch(header));
    var st2 :- Begin(st1, header);
    var st3 :- Push(st2, OpLoopMerge(header + 3, header + 2));
    EmitTest(g, st3, test, header + 1, header + 3)
  }

  /** The continue block: run the update and go back to the header. */
  function EmitContinue(g: Globals, st: St, update: Option<Expr>, header: Id, cont: Id): Result<St> {
    var st1 :- Begin(st, cont);
    var st2 :- EmitUpdate(g, st1, update);
    Close(st2, OpBranch(header))
  }

  /** A block that ends, unless it already ended, with a branch to `exit`. */
  function EmitArm(g: Globals, st: St, l: Id, ss: seq<Stmt>, exit: Id): Result<St>
    decreases ss, 1
  {
    var st1 :- Begin(st, l);
    var st2 :- EmitStmts(g, st1, ss);
    BranchIfOpen(st2, exit)
  }

  function EmitInit(g: Globals, st: St, ptr: Id, init: Option<Expr>): Result<St> {
    match init
    case None => Ok(st)
    case Some(e) =>
      var (st1, v) :- EmitExpr(g, st, e);
      Push(st1, OpStore(ptr, v.id))
  }

  /** End a loop header: to the body while the condition holds. */
  function EmitTest(g: Globals, st: St, test: Option<Expr>, bodyL: Id, merge: Id): Result<St> {
    match test
    case None => Close(st, OpBranch(bodyL))
    case Some(e) =>
      var (st1, c) :- EmitExpr(g, st, e);
      var (st2, cid) :- CoerceToBool(st1, c);
      Close(st2, OpBranchConditional(cid, bodyL, merge))
  }

  function EmitUpdate(g: Globals, st: St, update: Option<Expr>): Result<St> {
    match update
    case None => Ok(st)
    case Some(e) =>
      var (st1, _) :- EmitExpr(g, st, e);
      Ok(st1)
  }

  // --- function bodies ---

  /** Copy each input into a local named after the parameter. */
  function EmitParams(g: Globals, st: St, params: seq<Param>, inputs: seq<Id>): Result<St>
    requires |params| == |inputs|
    decreases |params|
  {
    if params == [] then Ok(st)
    else
      var (st1, ptr) :- AllocLocal(g, st, params[0].ty);
      var (st2, v) :- EmitLoad(g, st1, Val(inputs[0], params[0].ty));
      var st3 :- Push(st2, OpStore(ptr, v.id));
      EmitParams(g, st3.(locals := st3.locals + [Local(params[0].name, ptr, params[0].ty)]), params[1..], inputs[1..])
  }

  /** The state when the entry block has just been begun; every earlier id is below `entry`. */
  function EntrySt(entry: Id): St {
    St(entry, entry + 1, map[], [], [], [], Some(BasicBlock(entry, [])))
  }

  function EmitBody(g: Globals, entry: Id, params: seq<Param>, body: Block): Result<St>
    requires |g.inputs| == |params|
  {
    var st1 :- EmitParams(g, EntrySt(entry), params, g.inputs);
    var st2 :- EmitStmts(g, st1, body.stmts);
    if st2.open.Some? then Close(st2, OpReturn) else Ok(st2)
  }

  // --- the program a final state stands for ---

  function VariableInstrs(vars: seq<Var>): (r: seq<Instr>)
    ensures |r| == |vars|
  {
    seq(|vars|, i requires 0 <= i < |vars| => OpVariable(vars[i].id, vars[i].ty))
  }

  function BlocksOf(st: St): seq<BasicBlock> {
    st.done + (match st.open { case Some(b) => [b] case None => [] })
  }

  /** All blocks, with the hoisted variables at the front of the first. */
  function ProgramOf(st: St): (r: seq<BasicBlock>)
    ensures |r| == |BlocksOf(st)|
  {
    var bs := BlocksOf(st);
    if bs == [] then [] else [bs[0].(instrs := VariableInstrs(st.vars) + bs[0].instrs)] + bs[1..]
  }
}
