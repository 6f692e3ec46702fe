/** A lexically scoped interpreter for the HLSL fragment, the meaning the emitted code is measured against.
    Operators, conversions, constructors and intrinsics mean what `HlslMeaning` says, on the operands the emitter
    translates; on all others, and where the result is undefined, evaluation stops with a `Fault` that says why.
    `Coverage` shows the operands left out to be exactly those on which the emitted code computes something else. */
module HlslSemantics {
  import opened Wrappers
  import opened Ast
  import opened Values
  import opened HlslMeaning

  // --- results ---

  /** Why evaluation stopped: an undefined integer division, a read of what was never written, a comparison the
      emitted opcode gets wrong, or operands of types the emitter does not translate. */
  datatype Trap =
    | DivisionUndefined
    | ReadsUnwritten
    | ComparesUncovered
    | IllTyped

  datatype Eval<+T> = Done(value: T) | Fault(trap: Trap) {
    predicate IsFailure() { Fault? }

    function PropagateFailure<U>(): Eval<U>
      requires Fault?
    {
      Fault(trap)
    }

    function Extract(): T
      requires Done?
    {
      value
    }
  }

  function OrTrap<T>(o: Option<T>, trap: Trap): Eval<T> {
    match o
    case Some(v) => Done(v)
    case None => Fault(trap)
  }

  // --- the operands the emitter translates ---

  /** Type of an arithmetic result: that of the operands, or, where an int meets a uint, the type the emitter gives
      it if that is uint. */
  function ArithResult(op: BinaryOp, ta: Type, tb: Type): Option<Type> {
    if !(op in {Add, Sub, Mul, Div} && (ta.Scalar? || ta.Vector?)) then None
    else if ta == tb then (if ta.kind == Bool then None else Some(ta))
    else if ta == Scalar(Int) && tb == Scalar(Uint) then Some(tb)
    else if ta.Vector? && ta.kind == Uint && tb == Vector(Int, ta.n) then Some(ta)
    else None
  }

  /** Type of a scalar or vector value. */
  function FlatType(v: Value): Option<Type> {
    match v
    case VScalar(e) => Some(Scalar(KindOf(e)))
    case VVec(c) =>
      if c != [] && forall i :: 0 <= i < |c| ==> KindOf(c[i]) == KindOf(c[0]) then Some(Vector(KindOf(c[0]), |c|)) else None
    case _ => None
  }

  function ValueResult(op: BinaryOp, a: Value, b: Value): Option<Type> {
    var ta :- FlatType(a);
    var tb :- FlatType(b);
    ArithResult(op, ta, tb)
  }

  function ArithValue(fo: FloatOps, op: BinaryOp, a: Value, b: Value): Option<Value> {
    if ValueResult(op, a, b).Some? then HlslArith(fo, op, a, b) else None
  }

  /** An int vector updated by a uint vector: the bit pattern is that of the uint result. */
  predicate IntByUint(op: BinaryOp, ta: Type, tb: Type) {
    op in {Add, Sub, Mul} && ta.Vector? && ta.kind == Int && tb == Vector(Uint, ta.n)
  }

  predicate CompoundCovered(op: BinaryOp, ta: Type, tb: Type) {
    ArithResult(op, ta, tb) == Some(ta) || IntByUint(op, ta, tb)
  }

  /** Unsigned and signed division of two bit patterns give the same bit pattern. */
  predicate QuotientsAgree(x: Word, y: Word) {
    if x < TWO_31 then y < TWO_31 || x < TWO_32 - y
    else if y < TWO_31 then y == 1
    else x == y
  }

  /** An int vector divided by a uint vector, where signed division does what unsigned division should. */
  predicate AllQuotientsAgree(op: BinaryOp, ta: Type, tb: Type, x: Value, y: Value) {
    && op == Div && ta.Vector? && ta.kind == Int && tb == Vector(Uint, ta.n)
    && x.VVec? && y.VVec? && |x.c| == |y.c|
    && forall i :: 0 <= i < |x.c| ==> x.c[i].EInt? && y.c[i].EUint? && QuotientsAgree(x.c[i].w, y.c[i].w)
  }

  /** `x op= y` where `x` has type `ty`: the result is converted back. */
  function HlslCompound(fo: FloatOps, op: BinaryOp, ty: Type, a: Value, b: Value): Option<Value> {
    var r :- HlslArith(fo, op, a, b);
    ConvertFlat(fo, r, ty)
  }

  function CompoundValue(fo: FloatOps, op: BinaryOp, ty: Type, a: Value, b: Value): (r: Option<Value>)
    ensures r.Some? ==> !r.value.VUndef?
  {
    var ta :- FlatType(a);
    var tb :- FlatType(b);
    if ta == ty && (CompoundCovered(op, ta, tb) || AllQuotientsAgree(op, ta, tb, a, b)) then HlslCompound(fo, op, ty, a, b)
    else None
  }

  /** Operand types a comparison is emitted for: one kind, or ints and uints. */
  predicate Comparable(ta: Type, tb: Type) {
    && (ta.Scalar? || ta.Vector?)
    && (if ta.Scalar? then tb.Scalar? else tb.Vector? && tb.n == ta.n)
    && ta.kind != Bool && (ta.kind == tb.kind || (ta.kind in {Int, Uint} && tb.kind in {Int, Uint}))
  }

  /** The component comparisons the emitted opcode gets right. */
  predicate CompareCovered(fo: FloatOps, op: BinaryOp, a: Elem, b: Elem) {
    match (a, b)
    case (EInt(_), EInt(_)) => true
    case (EFloat(x), EFloat(y)) => op != Ne || Ordered(fo, x, y)
    case (EBool(_), _) => false
    case (_, EBool(_)) => false
    case (EFloat(_), _) => false
    case (_, EFloat(_)) => false
    case (x, y) => op in {Eq, Ne} || (x.w < TWO_31 <==> y.w < TWO_31)
  }

  function CoveredCompare(fo: FloatOps, op: BinaryOp, a: Elem, b: Elem): Option<Elem> {
    if !CompareCovered(fo, op, a, b) then None else
    var r :- HlslCompareElem(fo, op, a, b);
    Some(EBool(r))
  }

  function LogicalElem(fo: FloatOps, op: BinaryOp, a: Elem, b: Elem): Option<Elem> {
    if a.EBool? && b.EBool? then HlslLogicalFn(fo, op)(a, b) else None
  }

  predicate UnaryCovered(op: UnaryOp, kind: ScalarKind) {
    match op
    case Neg => kind != Bool
    case Not => kind == Bool
    case BitNot => kind in {Int, Uint}
  }

  function UnaryElem(fo: FloatOps, op: UnaryOp, a: Elem): Option<Elem> {
    if UnaryCovered(op, KindOf(a)) then HlslUnaryElem(fo, op, a) else None
  }

  /** The conversions of scalars the emitter performs. */
  predicate CoerceCovered(from: ScalarKind, to: ScalarKind) {
    from == to || (from, to) in {(Int, Float), (Uint, Float), (Float, Int), (Float, Uint)}
  }

  function ConvertScalar(fo: FloatOps, v: Value, kind: ScalarKind): Option<Value> {
    if v.VScalar? && CoerceCovered(KindOf(v.e), kind) then Some(VScalar(ConvertElem(fo, v.e, kind))) else None
  }

  /** The value an assignment stores into a place of type `ty`. */
  ghost function ConvertTo(fo: FloatOps, structs: Structs, v: Value, ty: Type): (r: Option<Value>)
    ensures r.Some? && !v.VUndef? ==> !r.value.VUndef?
  {
    if HasType(structs, v, ty) then Some(v)
    else if ty.Scalar? then ConvertScalar(fo, v, ty.kind)
    else None
  }

  // --- the same as first-class operations, for lifting to vectors ---

  function CompareFn(fo: FloatOps, op: BinaryOp): (Elem, Elem) -> Option<Elem> { (x, y) => CoveredCompare(fo, op, x, y) }

  function LogicalFn(fo: FloatOps, op: BinaryOp): (Elem, Elem) -> Option<Elem> { (x, y) => LogicalElem(fo, op, x, y) }

  function UnaryFn(fo: FloatOps, op: UnaryOp): (Elem, Elem) -> Option<Elem> { (x, _) => UnaryElem(fo, op, x) }

  // --- literals, constructors, calls, swizzles ---

  function LitValue(fo: FloatOps, lit: Literal): Value {
    match lit
    case IntLit(i) => VScalar(EInt(Wrap(i)))
    case UintLit(u) => VScalar(EUint(Wrap(u)))
    case FloatLit(f) => VScalar(EFloat(fo.round(f)))
    case BoolLit(b) => VScalar(EBool(b))
  }

  function AssembleVector(kind: ScalarKind, n: nat, parts: seq<Value>): Option<Value> {
    var c :- Flatten(parts);
    if |c| == n && n >= 1 && (forall i :: 0 <= i < n ==> KindOf(c[i]) == kind) then Some(VVec(c)) else None
  }

  function ConstructValue(fo: FloatOps, ty: Type, vs: seq<Value>): (r: Option<Value>)
    ensures r.Some? ==> !r.value.VUndef?
  {
    match ty
    case Scalar(kind) =>
      if |vs| != 1 then None
      else if kind == Float then (if vs[0].VScalar? && vs[0].e.EFloat? then Some(vs[0]) else None)
      else ConvertScalar(fo, vs[0], kind)
    case Vector(kind, n) =>
      if |vs| == 1 then
        if vs[0].VScalar? then AssembleVector(kind, n, seq(n, _ => vs[0])) else None
      else AssembleVector(kind, n, vs)
    case _ => None
  }

  function SaturateValue(fo: FloatOps, v: Value): Option<Value> {
    ApplyFn(fo, FClamp, [v, Broadcast(v, fo.round(F64_ZERO)), Broadcast(v, fo.round(F64_ONE))])
  }

  /** Intrinsics are translated for float arguments of one shape, `mul` for two scalars. */
  function CallValue(fo: FloatOps, name: string, vs: seq<Value>): (r: Option<Value>)
    ensures r.Some? ==> !r.value.VUndef?
  {
    if name == "saturate" then
      if |vs| != 1 then None else SaturateValue(fo, vs[0])
    else if name == "dot" then
      if |vs| == 2 then DotValue(fo, vs[0], vs[1]) else None
    else if name == "mul" then
      if |vs| == 2 && vs[0].VScalar? && vs[1].VScalar? then ArithValue(fo, Mul, vs[0], vs[1]) else None
    else
      var fn :- FnOfName(name);
      ApplyFn(fo, fn, vs)
  }

  /** `v.xyz`: one letter gives a scalar, several a vector. */
  function SwizzleValue(v: Value, member: string): (r: Option<Value>)
    ensures r.Some? ==> !r.value.VUndef?
  {
    if !v.VVec? then None else
    var idx :- DecodeSwizzle(member);
    if exists i :: 0 <= i < |idx| && idx[i] >= |v.c| then None
    else if |idx| == 1 then Some(VScalar(v.c[idx[0]]))
    else Some(VVec(seq(|idx|, i requires 0 <= i < |idx| => v.c[idx[i]])))
  }

  /** A condition: a bool, or any component of a bool vector. */
  function Truth(v: Value): Option<bool> {
    match v
    case VScalar(EBool(b)) => Some(b)
    case VVec(c) =>
      if forall i :: 0 <= i < |c| ==> c[i].EBool? then Some(exists i :: 0 <= i < |c| && c[i].b) else None
    case _ => None
  }

  // --- environments: innermost binding last ---

  datatype Binding = Binding(name: string, ty: Type, value: Value)

  type Env = seq<Binding>

  function LookupEnv(env: Env, name: string): (r: Option<nat>)
    ensures r.Some? ==> r.value < |env| && env[r.value].name == name
    ensures r.Some? ==> forall i :: r.value < i < |env| ==> env[i].name != name
    ensures r.None? ==> forall i :: 0 <= i < |env| ==> env[i].name != name
  {
    if env == [] then None
    else if env[|env| - 1].name == name then Some(|env| - 1)
    else LookupEnv(env[..|env| - 1], name)
  }

  /** An assignable place: a binding and a path into its struct. */
  datatype Place = Place(index: nat, path: Path, ty: Type)

  function PlaceOf(structs: Structs, env: Env, e: Expr): (r: Option<Place>)
    ensures r.Some? ==> r.value.index < |env|
    ensures r.Some? ==> PathType(structs, env[r.value.index].ty, r.value.path) == Some(r.value.ty)
  {
    match e
    case Ident(name) =>
      var i :- LookupEnv(env, name);
      Some(Place(i, [], env[i].ty))
    case Member(base, member) =>
      var p :- PlaceOf(structs, env, base);
      if !(p.ty.Struct? && p.ty.name in structs) then None else
      var members := structs[p.ty.name];
      var idx :- FindMember(members, member);
      var step := Step(idx, |members|);
      assert PathType(structs, env[p.index].ty, p.path + [step]) == Some(members[idx].ty) by {
        PathTypeAppend(structs, env[p.index].ty, p.path, step);
      }
      Some(Place(p.index, p.path + [step], members[idx].ty))
    case _ => None
  }

  /** Read a place; reading anything that was never written is undefined. */
  ghost function ReadPlace(env: Env, p: Place): Option<Value>
    requires p.index < |env|
  {
    var v := GetPath(env[p.index].value, p.path);
    if Defined(v) then Some(v) else None
  }

  function WritePlace(env: Env, p: Place, v: Value): Env
    requires p.index < |env|
  {
    env[p.index := env[p.index].(value := SetPath(env[p.index].value, p.path, v))]
  }

  // --- expressions ---

  ghost function EvalExpr(fo: FloatOps, structs: Structs, env: Env, e: Expr): (r: Eval<(Value, Env)>)
    ensures r.Done? ==> |r.value.1| == |env| && !r.value.0.VUndef?
    decreases e
  {
    match e
    case Lit(lit) => Done((LitValue(fo, lit), env))
    case Ident(_) =>
      var p :- OrTrap(PlaceOf(structs, env, e), IllTyped);
      var v :- OrTrap(ReadPlace(env, p), ReadsUnwritten);
      Done((v, env))
    case Member(base, member) => (
      match PlaceOf(structs, env, e)
      case Some(p) =>
        var v :- OrTrap(ReadPlace(env, p), ReadsUnwritten);
        Done((v, env))
      case None =>
        var (b, env1) :- EvalExpr(fo, structs, env, base);
        var v :- OrTrap(SwizzleValue(b, member), IllTyped);
        Done((v, env1)))
    case Construct(ty, args) =>
      var (vs, env1) :- EvalArgs(fo, structs, env, args);
      var v :- OrTrap(ConstructValue(fo, ty, vs), IllTyped);
      Done((v, env1))
    case Call(name, args) =>
      var (vs, env1) :- EvalArgs(fo, structs, env, args);
      var v :- OrTrap(CallValue(fo, name, vs), IllTyped);
      Done((v, env1))
    case MethodCall(_, _, _) => Fault(IllTyped)
    case Unary(op, x) =>
      var (a, env1) :- EvalExpr(fo, structs, env, x);
      var v :- OrTrap(Lift2(UnaryFn(fo, op), a, a), IllTyped);
      Done((v, env1))
    case Cast(ty, x) =>
      var (a, env1) :- EvalExpr(fo, structs, env, x);
      var v :- OrTrap(HlslConvert(fo, structs, a, ty), IllTyped);
      Done((v, env1))
    case Binary(op, lhs, rhs) =>
      if op == Assign then
        var p :- OrTrap(PlaceOf(structs, env, lhs), IllTyped);
        var (a, env1) :- EvalExpr(fo, structs, env, rhs);
        var v :- OrTrap(ConvertTo(fo, structs, a, p.ty), IllTyped);
        Done((v, WritePlace(env1, p, v)))
      else if IsCompound(op) then
        var p :- OrTrap(PlaceOf(structs, env, lhs), IllTyped);
        var cur :- OrTrap(ReadPlace(env, p), ReadsUnwritten);
        var (a, env1) :- EvalExpr(fo, structs, env, rhs);
        var v :- OrTrap(CompoundValue(fo, CoreOp(op), p.ty, cur, a), ArithTrap(CoreOp(op), cur, a));
        Done((v, WritePlace(env1, p, v)))
      else
        var (a, env1) :- EvalExpr(fo, structs, env, lhs);
        var (b, env2) :- EvalExpr(fo, structs, env1, rhs);
        var v :- OrTrap(BinaryValue(fo, op, a, b), BinaryTrap(op, a, b));
        Done((v, env2))
  }

  function BinaryValue(fo: FloatOps, op: BinaryOp, a: Value, b: Value): (r: Option<Value>)
    ensures r.Some? ==> !r.value.VUndef?
  {
    if IsComparison(op) then Lift2(CompareFn(fo, op), a, b)
    else if op in {And, Or} then
      if a.VScalar? && b.VScalar? then Lift2(LogicalFn(fo, op), a, b) else None
    else ArithValue(fo, op, a, b)
  }

  /** Arithmetic on operands of the right types fails only where division is undefined. */
  function ArithTrap(op: BinaryOp, a: Value, b: Value): Trap {
    if ValueResult(op, a, b).Some? then DivisionUndefined else IllTyped
  }

  function BinaryTrap(op: BinaryOp, a: Value, b: Value): Trap {
    if !IsComparison(op) then ArithTrap(op, a, b)
    else match (FlatType(a), FlatType(b))
      case (Some(ta), Some(tb)) => if Comparable(ta, tb) then ComparesUncovered else IllTyped
      case _ => IllTyped
  }

  ghost function EvalArgs(fo: FloatOps, structs: Structs, env: Env, args: seq<Expr>): (r: Eval<(seq<Value>, Env)>)
    ensures r.Done? ==> |r.value.0| == |args| && |r.value.1| == |env|
    ensures r.Done? ==> forall i :: 0 <= i < |args| ==> !r.value.0[i].VUndef?
    decreases args
  {
    if args == [] then Done(([], env))
    else
      var (v, env1) :- EvalExpr(fo, structs, env, args[0]);
      var (vs, env2) :- EvalArgs(fo, structs, env1, args[1..]);
      Done(([v] + vs, env2))
  }

  // --- what evaluation keeps ---

  ghost predicate EnvTyped(structs: Structs, env: Env) {
    forall i :: 0 <= i < |env| ==> HasType(structs, env[i].value, env[i].ty)
  }

  /** The same bindings up to values. */
  ghost predicate SameNames(env: Env, env': Env) {
    |env'| == |env| && forall i :: 0 <= i < |env| ==> env'[i].name == env[i].name && env'[i].ty == env[i].ty
  }

  lemma {:induction false} LookupSameNames(env: Env, env': Env, name: string)
    requires SameNames(env, env')
    ensures LookupEnv(env', name) == LookupEnv(env, name)
  {
    if env != [] && env[|env| - 1].name != name {
      LookupSameNames(env[..|env| - 1], env'[..|env| - 1], name);
    }
  }

  lemma {:induction false} WriteKeeps(structs: Structs, env: Env, p: Place, v: Value)
    requires EnvTyped(structs, env) && p.index < |env|
    requires PathType(structs, env[p.index].ty, p.path) == Some(p.ty) && HasType(structs, v, p.ty)
    ensures EnvTyped(structs, WritePlace(env, p, v)) && SameNames(env, WritePlace(env, p, v))
  {
    SetPathTyped(structs, env[p.index].value, env[p.index].ty, p.path, v);
  }

  lemma {:induction false} ReadTyped(structs: Structs, env: Env, p: Place)
    requires EnvTyped(structs, env) && p.index < |env|
    requires PathType(structs, env[p.index].ty, p.path) == Some(p.ty)
    ensures HasType(structs, GetPath(env[p.index].value, p.path), p.ty)
  {
    GetPathTyped(structs, env[p.index].value, env[p.index].ty, p.path);
  }

  lemma {:induction false} ConvertToTyped(fo: FloatOps, structs: Structs, v: Value, ty: Type)
    requires ConvertTo(fo, structs, v, ty).Some?
    ensures HasType(structs, ConvertTo(fo, structs, v, ty).value, ty)
  {
  }

  lemma {:induction false} FlatTyped(structs: Structs, v: Value, ty: Type)
    requires HasType(structs, v, ty) && !v.VUndef?
    ensures FlatType(v) == if ty.Scalar? || ty.Vector? then Some(ty) else None
  {
    if v.VVec? {
      assert forall i :: 0 <= i < |v.c| ==> KindOf(v.c[i]) == ty.kind;
    }
  }

  lemma {:induction false} ArithElemKind(fo: FloatOps, op: BinaryOp, x: Elem, y: Elem)
    requires ArithFn(fo, op)(x, y).Some?
    ensures KindOf(ArithFn(fo, op)(x, y).value) == CommonKind(KindOf(x), KindOf(y))
  {
  }

  /** An arithmetic result has the type computed for it. */
  lemma {:induction false} ArithTyped(fo: FloatOps, structs: Structs, op: BinaryOp, a: Value, b: Value)
    requires ArithValue(fo, op, a, b).Some?
    ensures HasType(structs, ArithValue(fo, op, a, b).value, ValueResult(op, a, b).value)
    ensures SameShape(a, b) && ArithValue(fo, op, a, b) == Lift2(ArithFn(fo, op), a, b)
  {
    hide ArithFn;
    var r := ArithValue(fo, op, a, b).value;
    if a.VScalar? {
      ArithElemKind(fo, op, a.e, b.e);
    } else {
      var kind := ValueResult(op, a, b).value.kind;
      forall i | 0 <= i < |r.c| ensures KindOf(r.c[i]) == kind {
        assert ArithFn(fo, op)(a.c[i], b.c[i]) == Some(r.c[i]);
        ArithElemKind(fo, op, a.c[i], b.c[i]);
      }
    }
  }

  lemma {:induction false} ConvertFlatTyped(fo: FloatOps, structs: Structs, v: Value, ty: Type)
    requires ConvertFlat(fo, v, ty).Some?
    ensures HasType(structs, ConvertFlat(fo, v, ty).value, ty)
    ensures HasType(structs, v, ty) ==> ConvertFlat(fo, v, ty) == Some(v)
  {
    forall e: Elem ensures KindOf(ConvertElem(fo, e, ty.kind)) == ty.kind && (KindOf(e) == ty.kind ==> ConvertElem(fo, e, ty.kind) == e) {
      ConvertedKind(fo, e, ty.kind);
    }
    hide ConvertElem;
    var r := ConvertFlat(fo, v, ty).value;
    if v.VVec? && ty.Vector? && HasType(structs, v, ty) {
      assert r.c == v.c;
    }
  }

  lemma {:induction false} CompoundTyped(fo: FloatOps, structs: Structs, op: BinaryOp, ty: Type, a: Value, b: Value)
    requires CompoundValue(fo, op, ty, a, b).Some?
    ensures HasType(structs, CompoundValue(fo, op, ty, a, b).value, ty)
  {
    ConvertFlatTyped(fo, structs, HlslArith(fo, op, a, b).value, ty);
  }

  lemma {:induction false} EvalKeeps(fo: FloatOps, structs: Structs, env: Env, e: Expr)
    requires EnvTyped(structs, env) && EvalExpr(fo, structs, env, e).Done?
    ensures var env' := EvalExpr(fo, structs, env, e).value.1; EnvTyped(structs, env') && SameNames(env, env')
    decreases e, 1
  {
    hide EnvTyped, HasType, HlslConvert, ConstructValue, CallValue, SwizzleValue, BinaryValue, CompoundValue, ConvertTo;
    match e
    case Lit(_) =>
    case Ident(_) =>
    case Member(base, _) =>
      if PlaceOf(structs, env, e).None? {
        EvalKeeps(fo, structs, env, base);
      }
    case Construct(_, args) => EvalArgsKeeps(fo, structs, env, args);
    case Call(_, args) => EvalArgsKeeps(fo, structs, env, args);
    case Unary(_, x) => EvalKeeps(fo, structs, env, x);
    case Cast(_, x) => EvalKeeps(fo, structs, env, x);
    case Binary(op, lhs, rhs) =>
      if op == Assign || IsCompound(op) {
        EvalUpdateKeeps(fo, structs, env, e);
      } else {
        EvalKeeps(fo, structs, env, lhs);
        EvalKeeps(fo, structs, EvalExpr(fo, structs, env, lhs).value.1, rhs);
      }
  }

  lemma {:induction false} EvalUpdateKeeps(fo: FloatOps, structs: Structs, env: Env, e: Expr)
    requires e.Binary? && (e.op == Assign || IsCompound(e.op))
    requires EnvTyped(structs, env) && EvalExpr(fo, structs, env, e).Done?
    ensures var env' := EvalExpr(fo, structs, env, e).value.1; EnvTyped(structs, env') && SameNames(env, env')
    decreases e, 0
  {
    hide EnvTyped, HasType, CompoundValue, ConvertTo, PathType, WritePlace;
    var p := PlaceOf(structs, env, e.lhs).value;
    var (a, env1) := EvalExpr(fo, structs, env, e.rhs).value;
    EvalKeeps(fo, structs, env, e.rhs);
    if e.op == Assign {
      ConvertToTyped(fo, structs, a, p.ty);
      WriteKeeps(structs, env1, p, ConvertTo(fo, structs, a, p.ty).value);
    } else {
      var cur := ReadPlace(env, p).value;
      CompoundTyped(fo, structs, CoreOp(e.op), p.ty, cur, a);
      WriteKeeps(structs, env1, p, CompoundValue(fo, CoreOp(e.op), p.ty, cur, a).value);
    }
  }

  lemma {:induction false} EvalArgsKeeps(fo: FloatOps, structs: Structs, env: Env, args: seq<Expr>)
    requires EnvTyped(structs, env) && EvalArgs(fo, structs, env, args).Done?
    ensures var env' := EvalArgs(fo, structs, env, args).value.1; EnvTyped(structs, env') && SameNames(env, env')
    decreases args, 0
  {
    if args != [] {
      EvalKeeps(fo, structs, env, args[0]);
      EvalArgsKeeps(fo, structs, EvalExpr(fo, structs, env, args[0]).value.1, args[1..]);
    }
  }

  // --- statements ---

  /** Outcome of running a statement with a bound on loop nesting and iteration. */
  datatype Outcome =
    | Normal(env: Env)
    | Returned(result: Option<Value>)
    | Timeout
    | Stuck(trap: Trap)

  /** Leave a scope: keep the updated outer bindings. */
  function Leave(env: Env, size: nat): Env {
    if size <= |env| then env[..size] else env
  }

  function LeaveScope(o: Outcome, size: nat): Outcome {
    match o
    case Normal(env) => Normal(Leave(env, size))
    case _ => o
  }

  ghost function ExecStmt(fo: FloatOps, structs: Structs, outTy: Type, fuel: nat, env: Env, s: Stmt): Outcome
    decreases fuel, s, 1
  {
    match s
    case Return(None) => Returned(None)
    case Return(Some(e)) => (
      match EvalExpr(fo, structs, env, e)
      case Done((v, _)) => if HasType(structs, v, outTy) then Returned(Some(v)) else Stuck(IllTyped)
      case Fault(t) => Stuck(t))
    case Decl(d) => (
      match d.init
      case None => Normal(env + [Binding(d.name, d.ty, VUndef)])
      case Some(e) =>
        match EvalExpr(fo, structs, env, e)
        case Done((v, env1)) =>
          if HasType(structs, v, d.ty) then Normal(env1 + [Binding(d.name, d.ty, v)]) else Stuck(IllTyped)
        case Fault(t) => Stuck(t))
    case ExprStmt(e) => (
      match EvalExpr(fo, structs, env, e)
      case Done((_, env1)) => Normal(env1)
      case Fault(t) => Stuck(t))
    case If(cond, thenBlock, elseBlock) => (
      match EvalCond(fo, structs, env, Some(cond))
      case Fault(t) => Stuck(t)
      case Done((true, env1)) => LeaveScope(ExecStmts(fo, structs, outTy, fuel, env1, thenBlock.stmts), |env|)
      case Done((false, env1)) =>
        match elseBlock
        case None => Normal(env1)
        case Some(b) => LeaveScope(ExecStmts(fo, structs, outTy, fuel, env1, b.stmts), |env|))
    case For(init, _, _, _) => (
      match init
      case None => LeaveScope(ExecLoop(fo, structs, outTy, fuel, env, s), |env|)
      case Some(i) =>
        match ExecStmt(fo, structs, outTy, fuel, env, i)
        case Normal(env1) => LeaveScope(ExecLoop(fo, structs, outTy, fuel, env1, s), |env|)
        case o => o)
    case Nested(b) => LeaveScope(ExecStmts(fo, structs, outTy, fuel, env, b.stmts), |env|)
  }

  /** A missing loop condition is true. */
  ghost function EvalCond(fo: FloatOps, structs: Structs, env: Env, cond: Option<Expr>): (r: Eval<(bool, Env)>)
    ensures r.Done? ==> |r.value.1| == |env|
  {
    match cond
    case None => Done((true, env))
    case Some(e) =>
      var (v, env1) :- EvalExpr(fo, structs, env, e);
      var b :- OrTrap(Truth(v), IllTyped);
      Done((b, env1))
  }

  /** The loop proper, after its initialiser; each iteration spends one unit of fuel. */
  ghost function ExecLoop(fo: FloatOps, structs: Structs, outTy: Type, fuel: nat, env: Env, s: Stmt): Outcome
    requires s.For?
    decreases fuel, s, 0
  {
    if fuel == 0 then Timeout
    else match EvalCond(fo, structs, env, s.test)
      case Fault(t) => Stuck(t)
      case Done((false, env1)) => Normal(env1)
      case Done((true, env1)) =>
        match LeaveScope(ExecStmts(fo, structs, outTy, fuel - 1, env1, s.body.stmts), |env|)
        case Normal(env2) => (
          match s.update
          case None => ExecLoop(fo, structs, outTy, fuel - 1, env2, s)
          case Some(u) =>
            match EvalExpr(fo, structs, env2, u)
            case Fault(t) => Stuck(t)
            case Done((_, env3)) => ExecLoop(fo, structs, outTy, fuel - 1, env3, s))
        case o => o
  }

  ghost function ExecStmts(fo: FloatOps, structs: Structs, outTy: Type, fuel: nat, env: Env, ss: seq<Stmt>): Outcome
    decreases fuel, ss, 0
  {
    if ss == [] then Normal(env)
    else match ExecStmt(fo, structs, outTy, fuel, env, ss[0])
      case Normal(env1) => ExecStmts(fo, structs, outTy, fuel, env1, ss[1..])
      case o => o
  }

  /** Run a function body on argument values; falling off the end returns nothing. */
  ghost function RunBody(
    fo: FloatOps, structs: Structs, outTy: Type, fuel: nat, params: seq<Param>, args: seq<Value>, body: Block): Outcome
    requires |params| == |args|
  {
    match ExecStmts(fo, structs, outTy, fuel, ParamEnv(params, args), body.stmts)
    case Normal(_) => Returned(None)
    case o => o
  }

  function ParamEnv(params: seq<Param>, args: seq<Value>): (env: Env)
    requires |params| == |args|
    ensures |env| == |params|
  {
    seq(|params|, i requires 0 <= i < |params| => Binding(params[i].name, params[i].ty, args[i]))
  }
}
