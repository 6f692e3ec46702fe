/** Static typing of function bodies: a well-typed body gets stuck only on undefined division, on reading what was
    never written or on an uncovered comparison, and a strictly typed one never does. */
module Typing {
  import opened Wrappers
  import opened Ast
  import opened Values
  import opened HlslMeaning
  import opened HlslSemantics
  import opened SpirvMachine
  import opened EmitterSpec
  import opened OperatorAgreement
  import opened StmtPreservation
  import opened BodyPreservation
  import opened Coverage

  // --- expressions ---

  /** A divisor that is neither 0 nor -1, by its text. */
  predicate SafeDivisor(e: Expr) {
    match e
    case Lit(IntLit(i)) => Wrap(i) != 0 && Wrap(i) != TWO_32 - 1
    case Lit(UintLit(u)) => Wrap(u) != 0
    case _ => false
  }

  predicate SafeDivision(op: BinaryOp, kind: ScalarKind, divisor: Expr) {
    op != Div || kind == Float || SafeDivisor(divisor)
  }

  /** Comparisons that are covered whatever the values. */
  predicate SafeComparison(op: BinaryOp, ka: ScalarKind, kb: ScalarKind) {
    if ka == Float then op != Ne else (ka == Int && kb == Int) || op in {Eq, Ne}
  }

  function LitType(lit: Literal): Type {
    match lit
    case IntLit(_) => Scalar(Int)
    case UintLit(_) => Scalar(Uint)
    case FloatLit(_) => Scalar(Float)
    case BoolLit(_) => Scalar(Bool)
  }

  function SwizzleType(ty: Type, member: string): Option<Type> {
    if !ty.Vector? then None else
    var idx :- DecodeSwizzle(member);
    if exists i :: 0 <= i < |idx| && idx[i] >= ty.n then None
    else if |idx| == 1 then Some(Scalar(ty.kind))
    else Some(Vector(ty.kind, |idx|))
  }

  function Components(ts: seq<Type>): nat {
    if ts == [] then 0 else (if ts[0].Vector? then ts[0].n else 1) + Components(ts[1..])
  }

  predicate Constructs(ty: Type, ts: seq<Type>) {
    match ty
    case Scalar(kind) =>
      |ts| == 1 && ts[0].Scalar? && (if kind == Float then ts[0].kind == Float else CoerceCovered(ts[0].kind, kind))
    case Vector(kind, n) =>
      && n >= 1 && (|ts| == 1 ==> ts[0].Scalar?) && (forall i :: 0 <= i < |ts| ==> OfKind(ts[i], kind))
      && (|ts| != 1 ==> Components(ts) == n)
    case _ => false
  }

  function CallType(name: string, ts: seq<Type>): Option<Type> {
    if !CallCovered(name, ts) then None
    else if name == "mul" then ArithResult(Mul, ts[0], ts[1])
    else if name == "dot" then Some(Scalar(Float))
    else if name == "saturate" then (if |ts| == 1 then Some(ts[0]) else None)
    else
      var fn :- FnOfName(name);
      if |ts| != Arity(fn) || (fn == Cross && ts[0] != Vector(Float, 3)) then None
      else Some(if fn == Length then Scalar(Float) else ts[0])
  }

  predicate Assignable(from: Type, to: Type) {
    from == to || (from.Scalar? && to.Scalar? && CoerceCovered(from.kind, to.kind))
  }

  /** Type of an expression. Of the bindings in `scope` only names and types matter. With `strict`, integers are
      divided by safe literals only and compared only where that is covered whatever the values. */
  function TypeOf(structs: Structs, strict: bool, scope: Env, e: Expr): Option<Type>
    decreases e
  {
    match e
    case Lit(lit) => Some(LitType(lit))
    case Ident(_) =>
      var p :- PlaceOf(structs, scope, e);
      Some(p.ty)
    case Member(base, member) => (
      match PlaceOf(structs, scope, e)
      case Some(p) => Some(p.ty)
      case None =>
        var t :- TypeOf(structs, strict, scope, base);
        SwizzleType(t, member))
    case Construct(ty, args) =>
      var ts :- TypesOfAll(structs, strict, scope, args);
      if Constructs(ty, ts) then Some(ty) else None
    case Call(name, args) =>
      var ts :- TypesOfAll(structs, strict, scope, args);
      CallType(name, ts)
    case MethodCall(_, _, _) => None
    case Unary(op, x) =>
      var t :- TypeOf(structs, strict, scope, x);
      if (t.Scalar? || t.Vector?) && UnaryCovered(op, t.kind) then Some(t) else None
    case Cast(ty, x) =>
      var t :- TypeOf(structs, strict, scope, x);
      if t == ty || (t.Scalar? && ty.Scalar?) then Some(ty) else None
    case Binary(op, lhs, rhs) =>
      if op == Assign then
        var p :- PlaceOf(structs, scope, lhs);
        var t :- TypeOf(structs, strict, scope, rhs);
        if Assignable(t, p.ty) then Some(p.ty) else None
      else if IsCompound(op) then
        var p :- PlaceOf(structs, scope, lhs);
        var t :- TypeOf(structs, strict, scope, rhs);
        if CompoundCovered(CoreOp(op), p.ty, t) && (strict ==> SafeDivision(CoreOp(op), p.ty.kind, rhs)) then Some(p.ty) else None
      else
        var ta :- TypeOf(structs, strict, scope, lhs);
        var tb :- TypeOf(structs, strict, scope, rhs);
        OperatorType(strict, op, ta, tb, rhs)
  }

  function OperatorType(strict: bool, op: BinaryOp, ta: Type, tb: Type, rhs: Expr): Option<Type> {
    if IsComparison(op) then
      if Comparable(ta, tb) && (strict ==> SafeComparison(op, ta.kind, tb.kind)) then
        Some(if ta.Vector? then Vector(Bool, ta.n) else Scalar(Bool))
      else None
    else if op in {And, Or} then
      if ta == Scalar(Bool) && tb == Scalar(Bool) then Some(Scalar(Bool)) else None
    else
      var t :- ArithResult(op, ta, tb);
      if strict && !SafeDivision(op, t.kind, rhs) then None else Some(t)
  }

  function TypesOfAll(structs: Structs, strict: bool, scope: Env, args: seq<Expr>): (r: Option<seq<Type>>)
    ensures r.Some? ==> |r.value| == |args|
    decreases args
  {
    if args == [] then Some([])
    else
      var t :- TypeOf(structs, strict, scope, args[0]);
      var ts :- TypesOfAll(structs, strict, scope, args[1..]);
      Some([t] + ts)
  }

  // --- evaluation of well-typed expressions ---

  ghost predicate EnvDefined(env: Env) {
    forall i :: 0 <= i < |env| ==> Defined(env[i].value)
  }

  /** `env` is a run-time instance of `scope`. */
  ghost predicate Instance(structs: Structs, strict: bool, scope: Env, env: Env) {
    SameNames(scope, env) && EnvTyped(structs, env) && (strict ==> EnvDefined(env))
  }

  /** A defined value of the right type, or one of the permitted reasons to stop. */
  ghost predicate Sound(structs: Structs, strict: bool, ty: Type, scope: Env, r: Eval<(Value, Env)>) {
    match r
    case Done((v, env')) => HasType(structs, v, ty) && Defined(v) && Instance(structs, strict, scope, env')
    case Fault(trap) => !strict && trap != IllTyped
  }

  ghost predicate AllSound(structs: Structs, strict: bool, ts: seq<Type>, scope: Env, r: Eval<(seq<Value>, Env)>) {
    match r
    case Done((vs, env')) =>
      && |vs| == |ts| && (forall i :: 0 <= i < |vs| ==> HasType(structs, vs[i], ts[i]) && Defined(vs[i]))
      && Instance(structs, strict, scope, env')
    case Fault(trap) => !strict && trap != IllTyped
  }

  lemma {:induction false} PlaceSameNames(structs: Structs, env: Env, env': Env, e: Expr)
    requires SameNames(env, env')
    ensures PlaceOf(structs, env', e) == PlaceOf(structs, env, e)
  {
    if e.Ident? {
      LookupSameNames(env, env', e.name);
    } else if e.Member? {
      PlaceSameNames(structs, env, env', e.base);
    }
  }

  lemma {:induction false} GetPathDefined(structs: Structs, v: Value, ty: Type, path: Path)
    requires HasType(structs, v, ty) && Defined(v) && PathType(structs, ty, path).Some?
    ensures Defined(GetPath(v, path))
    decreases |path|
  {
    if path != [] {
      GetPathDefined(structs, v.fields[path[0].idx], structs[ty.name][path[0].idx].ty, path[1..]);
    }
  }

  lemma {:induction false} SetPathDefined(structs: Structs, v: Value, ty: Type, path: Path, x: Value)
    requires HasType(structs, v, ty) && Defined(v) && Defined(x) && PathType(structs, ty, path).Some?
    ensures Defined(SetPath(v, path, x))
    decreases |path|
  {
    if path != [] {
      SetPathDefined(structs, v.fields[path[0].idx], structs[ty.name][path[0].idx].ty, path[1..], x);
    }
  }

  lemma {:induction false} ReadSound(structs: Structs, strict: bool, scope: Env, env: Env, e: Expr)
    requires Instance(structs, strict, scope, env) && PlaceOf(structs, scope, e).Some?
    ensures PlaceOf(structs, env, e) == PlaceOf(structs, scope, e)
    ensures var p := PlaceOf(structs, env, e).value; match ReadPlace(env, p)
      case Some(v) => HasType(structs, v, p.ty) && Defined(v)
      case None => !strict
  {
    PlaceSameNames(structs, scope, env, e);
    var p := PlaceOf(structs, env, e).value;
    ReadTyped(structs, env, p);
    if strict {
      GetPathDefined(structs, env[p.index].value, env[p.index].ty, p.path);
    }
  }

  lemma {:induction false} WriteSound(structs: Structs, strict: bool, scope: Env, env: Env, p: Place, v: Value)
    requires Instance(structs, strict, scope, env) && p.index < |scope|
    requires PathType(structs, scope[p.index].ty, p.path) == Some(p.ty) && HasType(structs, v, p.ty) && Defined(v)
    ensures Instance(structs, strict, scope, WritePlace(env, p, v))
  {
    WriteKeeps(structs, env, p, v);
    if strict {
      SetPathDefined(structs, env[p.index].value, env[p.index].ty, p.path, v);
    }
  }

  /** Evaluating a well-typed expression gives a value of its type, or stops for a permitted reason. */
  lemma {:induction false} ExprSound(fo: FloatOps, structs: Structs, strict: bool, scope: Env, env: Env, e: Expr)
    requires Instance(structs, strict, scope, env) && TypeOf(structs, strict, scope, e).Some?
    ensures Sound(structs, strict, TypeOf(structs, strict, scope, e).value, scope, EvalExpr(fo, structs, env, e))
    decreases e, 1
  {
    hide Instance, HasType, ConstructValue, CallValue, SwizzleValue, HlslConvert, SwizzleType, Constructs, CallType, ReadPlace;
    match e
    case Lit(lit) => LitSound(fo, structs, lit);
    case Ident(_) => ReadSound(structs, strict, scope, env, e);
    case Member(base, member) =>
      PlaceSame(structs, strict, scope, env, e);
      if PlaceOf(structs, scope, e).Some? {
        ReadSound(structs, strict, scope, env, e);
      } else {
        ExprSound(fo, structs, strict, scope, env, base);
        if EvalExpr(fo, structs, env, base).Done? {
          SwizzleSound(structs, EvalExpr(fo, structs, env, base).value.0, TypeOf(structs, strict, scope, base).value, member);
        }
      }
    case Construct(ty, args) =>
      ArgsSound(fo, structs, strict, scope, env, args);
      if EvalArgs(fo, structs, env, args).Done? {
        ConstructSound(fo, structs, ty, EvalArgs(fo, structs, env, args).value.0, TypesOfAll(structs, strict, scope, args).value);
      }
    case Call(name, args) =>
      ArgsSound(fo, structs, strict, scope, env, args);
      if EvalArgs(fo, structs, env, args).Done? {
        CallSound(fo, structs, name, EvalArgs(fo, structs, env, args).value.0, TypesOfAll(structs, strict, scope, args).value);
      }
    case Unary(op, x) =>
      ExprSound(fo, structs, strict, scope, env, x);
      if EvalExpr(fo, structs, env, x).Done? {
        UnarySound(fo, structs, op, EvalExpr(fo, structs, env, x).value.0, TypeOf(structs, strict, scope, x).value);
      }
    case Cast(ty, x) =>
      ExprSound(fo, structs, strict, scope, env, x);
      if EvalExpr(fo, structs, env, x).Done? {
        CastSound(fo, structs, EvalExpr(fo, structs, env, x).value.0, TypeOf(structs, strict, scope, x).value, ty);
      }
    case Binary(op, _, _) =>
      if op == Assign || IsCompound(op) {
        UpdateSound(fo, structs, strict, scope, env, e);
      } else {
        OperatorSound(fo, structs, strict, scope, env, e);
      }
  }

  lemma {:induction false} PlaceSame(structs: Structs, strict: bool, scope: Env, env: Env, e: Expr)
    requires Instance(structs, strict, scope, env)
    ensures PlaceOf(structs, env, e) == PlaceOf(structs, scope, e)
  {
    PlaceSameNames(structs, scope, env, e);
  }

  lemma {:induction false} LitSound(fo: FloatOps, structs: Structs, lit: Literal)
    ensures HasType(structs, LitValue(fo, lit), LitType(lit)) && Defined(LitValue(fo, lit))
  {
  }

  lemma {:induction false} SwizzleSound(structs: Structs, v: Value, ty: Type, member: string)
    requires HasType(structs, v, ty) && !v.VUndef? && SwizzleType(ty, member).Some?
    ensures SwizzleValue(v, member).Some?
    ensures HasType(structs, SwizzleValue(v, member).value, SwizzleType(ty, member).value) && Defined(SwizzleValue(v, member).value)
  {
    SwizzleTyped(structs, v, ty.kind, ty.n, member);
  }

  lemma {:induction false} FlattenSound(structs: Structs, vs: seq<Value>, ts: seq<Type>, k: ScalarKind)
    requires |vs| == |ts| && forall i :: 0 <= i < |vs| ==> HasType(structs, vs[i], ts[i]) && !vs[i].VUndef? && OfKind(ts[i], k)
    ensures Flatten(vs).Some? && |Flatten(vs).value| == Components(ts) && AllKind(Flatten(vs).value, k)
  {
    if vs != [] {
      FlattenSound(structs, vs[1..], ts[1..], k);
      var first := if vs[0].VScalar? then [vs[0].e] else vs[0].c;
      assert Flatten(vs) == Some(first + Flatten(vs[1..]).value);
      AllKindAppend(first, Flatten(vs[1..]).value, k);
    }
  }

  lemma {:induction false} ConstructSound(fo: FloatOps, structs: Structs, ty: Type, vs: seq<Value>, ts: seq<Type>)
    requires |vs| == |ts| && (forall i :: 0 <= i < |vs| ==> HasType(structs, vs[i], ts[i]) && !vs[i].VUndef?) && Constructs(ty, ts)
    ensures ConstructValue(fo, ty, vs).Some?
    ensures HasType(structs, ConstructValue(fo, ty, vs).value, ty) && Defined(ConstructValue(fo, ty, vs).value)
  {
    if ty.Vector? {
      if |vs| == 1 {
        FlattenCopies(vs[0].e, ty.n);
        assert seq(ty.n, _ => vs[0]) == seq(ty.n, _ => VScalar(vs[0].e));
      } else {
        FlattenSound(structs, vs, ts, ty.kind);
      }
    }
    ConstructTyped(fo, structs, ty, vs);
  }

  lemma {:induction false} AllFloatsSound(structs: Structs, vs: seq<Value>, t: Type)
    requires OfKind(t, Float) && forall i :: 0 <= i < |vs| ==> HasType(structs, vs[i], t) && !vs[i].VUndef?
    ensures AllFloats(vs).Some?
  {
    if vs != [] {
      FloatsDefined(structs, t, vs[0]);
      AllFloatsSound(structs, vs[1..], t);
    }
  }

  lemma {:induction false} FnSound(fo: FloatOps, structs: Structs, fn: Fn, vs: seq<Value>, t: Type)
    requires |vs| == Arity(fn) && OfKind(t, Float) && (fn == Cross ==> t == Vector(Float, 3))
    requires forall i :: 0 <= i < |vs| ==> HasType(structs, vs[i], t) && !vs[i].VUndef?
    ensures ApplyFn(fo, fn, vs).Some?
    ensures HasType(structs, ApplyFn(fo, fn, vs).value, if fn == Length then Scalar(Float) else t) && Defined(ApplyFn(fo, fn, vs).value)
  {
    AllFloatsSound(structs, vs, t);
    assert forall i :: 0 <= i < |vs| ==> SameShape(vs[0], vs[i]);
    ApplyFnTyped(structs, fo, fn, vs, 0, t);
  }

  lemma {:induction false} CallSound(fo: FloatOps, structs: Structs, name: string, vs: seq<Value>, ts: seq<Type>)
    requires |vs| == |ts| && (forall i :: 0 <= i < |vs| ==> HasType(structs, vs[i], ts[i]) && !vs[i].VUndef?) && CallType(name, ts).Some?
    ensures CallValue(fo, name, vs).Some?
    ensures HasType(structs, CallValue(fo, name, vs).value, CallType(name, ts).value) && Defined(CallValue(fo, name, vs).value)
  {
    hide ApplyFn, DotValue, HasType, Broadcast, ArithValue;
    if name == "mul" {
      MulSound(fo, structs, vs[0], vs[1], ts[0], ts[1]);
    } else if name == "dot" {
      DotSound(fo, structs, vs[0], vs[1], ts[0]);
    } else if name == "saturate" {
      SaturateSound(fo, structs, vs[0], ts[0]);
    } else {
      FnSound(fo, structs, FnOfName(name).value, vs, ts[0]);
    }
  }

  lemma {:induction false} MulSound(fo: FloatOps, structs: Structs, x: Value, y: Value, ta: Type, tb: Type)
    requires HasType(structs, x, ta) && HasType(structs, y, tb) && !x.VUndef? && !y.VUndef? && ta.Scalar? && tb.Scalar?
    requires ArithResult(Mul, ta, tb).Some?
    ensures x.VScalar? && y.VScalar? && ArithValue(fo, Mul, x, y).Some?
    ensures HasType(structs, ArithValue(fo, Mul, x, y).value, ArithResult(Mul, ta, tb).value) && Defined(ArithValue(fo, Mul, x, y).value)
  {
  }

  lemma {:induction false} DotSound(fo: FloatOps, structs: Structs, x: Value, y: Value, t: Type)
    requires HasType(structs, x, t) && HasType(structs, y, t) && !x.VUndef? && !y.VUndef? && t.Vector? && t.kind == Float
    ensures DotValue(fo, x, y).Some? && HasType(structs, DotValue(fo, x, y).value, Scalar(Float)) && Defined(DotValue(fo, x, y).value)
  {
    FloatsDefined(structs, t, x);
    FloatsDefined(structs, t, y);
  }

  lemma {:induction false} SaturateSound(fo: FloatOps, structs: Structs, x: Value, t: Type)
    requires HasType(structs, x, t) && !x.VUndef? && OfKind(t, Float)
    ensures SaturateValue(fo, x).Some? && HasType(structs, SaturateValue(fo, x).value, t) && Defined(SaturateValue(fo, x).value)
  {
    var y, z := Broadcast(x, fo.round(F64_ZERO)), Broadcast(x, fo.round(F64_ONE));
    var vs := [x, y, z];
    assert HasType(structs, y, t) && HasType(structs, z, t) by {
      BroadcastTyped(structs, x, t, fo.round(F64_ZERO));
      BroadcastTyped(structs, x, t, fo.round(F64_ONE));
    }
    hide Broadcast, ApplyFn, HasType;
    FnSound(fo, structs, FClamp, vs, t);
  }

  lemma {:induction false} BroadcastTyped(structs: Structs, x: Value, t: Type, w: Word)
    requires HasType(structs, x, t) && !x.VUndef? && OfKind(t, Float)
    ensures HasType(structs, Broadcast(x, w), t) && !Broadcast(x, w).VUndef?
  {
  }

  lemma {:induction false} UnarySound(fo: FloatOps, structs: Structs, op: UnaryOp, x: Value, t: Type)
    requires HasType(structs, x, t) && !x.VUndef? && (t.Scalar? || t.Vector?) && UnaryCovered(op, t.kind)
    ensures Lift2(UnaryFn(fo, op), x, x).Some?
    ensures HasType(structs, Lift2(UnaryFn(fo, op), x, x).value, t) && Defined(Lift2(UnaryFn(fo, op), x, x).value)
  {
    var f := UnaryFn(fo, op);
    forall p | KindOf(p) == t.kind ensures f(p, p).Some? && KindOf(f(p, p).value) == t.kind {
      UnaryElemKind(fo, op, p);
    }
    hide UnaryFn;
    if x.VVec? {
      assert forall i :: 0 <= i < |x.c| ==> KindOf(x.c[i]) == t.kind;
      var r := ZipMap(f, x.c, x.c).value;
      assert forall i :: 0 <= i < |r| ==> f(x.c[i], x.c[i]) == Some(r[i]);
    }
  }

  lemma {:induction false} CastSound(fo: FloatOps, structs: Structs, x: Value, t: Type, ty: Type)
    requires HasType(structs, x, t) && Defined(x) && (t == ty || (t.Scalar? && ty.Scalar?))
    ensures HlslConvert(fo, structs, x, ty).Some?
    ensures HasType(structs, HlslConvert(fo, structs, x, ty).value, ty) && Defined(HlslConvert(fo, structs, x, ty).value)
  {
    if t != ty {
      ConvertedKind(fo, x.e, ty.kind);
    }
  }

  lemma {:induction false} ArgsSound(fo: FloatOps, structs: Structs, strict: bool, scope: Env, env: Env, args: seq<Expr>)
    requires Instance(structs, strict, scope, env) && TypesOfAll(structs, strict, scope, args).Some?
    ensures AllSound(structs, strict, TypesOfAll(structs, strict, scope, args).value, scope, EvalArgs(fo, structs, env, args))
    decreases args, 0
  {
    hide Instance, HasType, Defined;
    if args != [] {
      ExprSound(fo, structs, strict, scope, env, args[0]);
      if EvalExpr(fo, structs, env, args[0]).Done? {
        ArgsSound(fo, structs, strict, scope, EvalExpr(fo, structs, env, args[0]).value.1, args[1..]);
      }
    }
  }

  lemma {:induction false} UpdateSound(fo: FloatOps, structs: Structs, strict: bool, scope: Env, env: Env, e: Expr)
    requires e.Binary? && (e.op == Assign || IsCompound(e.op))
    requires Instance(structs, strict, scope, env) && TypeOf(structs, strict, scope, e).Some?
    ensures Sound(structs, strict, TypeOf(structs, strict, scope, e).value, scope, EvalExpr(fo, structs, env, e))
    decreases e, 0
  {
    hide Instance, HasType, CompoundValue, ConvertTo, CompoundCovered, SafeDivision, PathType, WritePlace, ArithTrap;
    var p := PlaceOf(structs, scope, e.lhs).value;
    ReadSound(structs, strict, scope, env, e.lhs);
    var t := TypeOf(structs, strict, scope, e.rhs).value;
    ExprSound(fo, structs, strict, scope, env, e.rhs);
    if EvalExpr(fo, structs, env, e.rhs).Done? {
      var (a, env1) := EvalExpr(fo, structs, env, e.rhs).value;
      if e.op == Assign {
        AssignSound(fo, structs, a, t, p.ty);
        WriteSound(structs, strict, scope, env1, p, ConvertTo(fo, structs, a, p.ty).value);
      } else if ReadPlace(env, p).Some? {
        var cur := ReadPlace(env, p).value;
        CompoundSound(fo, structs, strict, CoreOp(e.op), cur, a, p.ty, t, e.rhs, env);
        if CompoundValue(fo, CoreOp(e.op), p.ty, cur, a).Some? {
          WriteSound(structs, strict, scope, env1, p, CompoundValue(fo, CoreOp(e.op), p.ty, cur, a).value);
        }
      }
    }
  }

  lemma {:induction false} AssignSound(fo: FloatOps, structs: Structs, a: Value, t: Type, ty: Type)
    requires HasType(structs, a, t) && Defined(a) && Assignable(t, ty)
    ensures ConvertTo(fo, structs, a, ty).Some?
    ensures HasType(structs, ConvertTo(fo, structs, a, ty).value, ty) && Defined(ConvertTo(fo, structs, a, ty).value)
  {
    if t != ty {
      ConvertedKind(fo, a.e, ty.kind);
    }
  }

  /** Where the divisor is a literal its value is known. */
  ghost predicate DivisorOf(fo: FloatOps, structs: Structs, env: Env, e: Expr, v: Value) {
    EvalExpr(fo, structs, env, e).Done? && EvalExpr(fo, structs, env, e).value.0 == v
  }

  /** Arithmetic on well-typed operands is defined unless it is an unsafe division. */
  lemma {:induction false} ArithDefined(
    fo: FloatOps, structs: Structs, op: BinaryOp, x: Value, y: Value, ta: Type, tb: Type, kind: ScalarKind, rhs: Expr, env: Env)
    requires HasType(structs, x, ta) && HasType(structs, y, tb) && !x.VUndef? && !y.VUndef?
    requires ArithResult(op, ta, tb).Some? || IntByUint(op, ta, tb)
    requires ArithResult(op, ta, tb).Some? ==> kind == ArithResult(op, ta, tb).value.kind
    requires DivisorOf(fo, structs, env, rhs, y)
    ensures SameShape(x, y)
    ensures op != Div || SafeDivision(op, kind, rhs) ==> HlslArith(fo, op, x, y).Some?
  {
    if op != Div || SafeDivision(op, kind, rhs) {
      if x.VScalar? {
        ArithElemDefined(fo, op, x.e, y.e, ta, tb, kind, rhs);
      } else {
        forall i | 0 <= i < |x.c| ensures ArithFn(fo, op)(x.c[i], y.c[i]).Some? {
          assert KindOf(x.c[i]) == ta.kind && KindOf(y.c[i]) == tb.kind;
          VectorDivision(fo, op, x.c[i], y.c[i], ta, tb, kind, rhs);
        }
      }
    }
  }

  lemma {:induction false} ArithElemDefined(
    fo: FloatOps, op: BinaryOp, x: Elem, y: Elem, ta: Type, tb: Type, kind: ScalarKind, rhs: Expr)
    requires ArithResult(op, ta, tb).Some? && ta.Scalar? && KindOf(x) == ta.kind && KindOf(y) == tb.kind
    requires kind == ArithResult(op, ta, tb).value.kind && (op != Div || SafeDivision(op, kind, rhs))
    requires SafeDivisor(rhs) ==> LitValue(fo, rhs.lit) == VScalar(y)
    ensures ArithFn(fo, op)(x, y).Some?
  {
  }

  /** Vectors are never divided by a literal. */
  lemma {:induction false} VectorDivision(
    fo: FloatOps, op: BinaryOp, x: Elem, y: Elem, ta: Type, tb: Type, kind: ScalarKind, rhs: Expr)
    requires (ArithResult(op, ta, tb).Some? || IntByUint(op, ta, tb)) && ta.Vector?
    requires KindOf(x) == ta.kind && KindOf(y) == tb.kind
    requires ArithResult(op, ta, tb).Some? ==> kind == ArithResult(op, ta, tb).value.kind
    requires op != Div || kind == Float
    ensures ArithFn(fo, op)(x, y).Some?
  {
  }

  lemma {:induction false} CompoundSound(
    fo: FloatOps, structs: Structs, strict: bool, op: BinaryOp, cur: Value, a: Value, ty: Type, t: Type, rhs: Expr, env: Env)
    requires HasType(structs, cur, ty) && HasType(structs, a, t) && Defined(cur) && Defined(a) && CompoundCovered(op, ty, t)
    requires DivisorOf(fo, structs, env, rhs, a) && (strict ==> SafeDivision(op, ty.kind, rhs))
    ensures match CompoundValue(fo, op, ty, cur, a)
      case Some(v) => HasType(structs, v, ty) && Defined(v)
      case None => !strict && ArithTrap(op, cur, a) != IllTyped
  {
    FlatTyped(structs, cur, ty);
    FlatTyped(structs, a, t);
    ArithDefined(fo, structs, op, cur, a, ty, t, ty.kind, rhs, env);
    hide HlslArith, HasType, Defined, SafeDivision;
    if HlslArith(fo, op, cur, a).Some? {
      ArithConverts(fo, structs, op, cur, a, ty, t);
      CompoundTyped(fo, structs, op, ty, cur, a);
      FlatDefined(structs, CompoundValue(fo, op, ty, cur, a).value, ty);
    }
  }

  lemma {:induction false} FlatDefined(structs: Structs, v: Value, ty: Type)
    requires HasType(structs, v, ty) && !v.VUndef? && (ty.Scalar? || ty.Vector?)
    ensures Defined(v)
  {
  }

  lemma {:induction false} ArithConverts(fo: FloatOps, structs: Structs, op: BinaryOp, cur: Value, a: Value, ty: Type, t: Type)
    requires HasType(structs, cur, ty) && HasType(structs, a, t) && !cur.VUndef? && !a.VUndef? && SameShape(cur, a)
    requires CompoundCovered(op, ty, t) && HlslArith(fo, op, cur, a).Some?
    ensures CompoundValue(fo, op, ty, cur, a).Some?
  {
    FlatTyped(structs, cur, ty);
    FlatTyped(structs, a, t);
  }

  lemma {:induction false} OperatorSound(fo: FloatOps, structs: Structs, strict: bool, scope: Env, env: Env, e: Expr)
    requires e.Binary? && e.op != Assign && !IsCompound(e.op)
    requires Instance(structs, strict, scope, env) && TypeOf(structs, strict, scope, e).Some?
    ensures Sound(structs, strict, TypeOf(structs, strict, scope, e).value, scope, EvalExpr(fo, structs, env, e))
    decreases e, 0
  {
    hide Instance, HasType, Defined, BinaryValue, BinaryTrap, OperatorType;
    ExprSound(fo, structs, strict, scope, env, e.lhs);
    if EvalExpr(fo, structs, env, e.lhs).Done? {
      var (a, env1) := EvalExpr(fo, structs, env, e.lhs).value;
      ExprSound(fo, structs, strict, scope, env1, e.rhs);
      if EvalExpr(fo, structs, env1, e.rhs).Done? {
        var b := EvalExpr(fo, structs, env1, e.rhs).value.0;
        BinarySound(fo, structs, strict, e.op, a, b, TypeOf(structs, strict, scope, e.lhs).value,
                    TypeOf(structs, strict, scope, e.rhs).value, e.rhs, env1);
      }
    }
  }

  lemma {:induction false} BinarySound(
    fo: FloatOps, structs: Structs, strict: bool, op: BinaryOp, a: Value, b: Value, ta: Type, tb: Type, rhs: Expr, env: Env)
    requires HasType(structs, a, ta) && HasType(structs, b, tb) && Defined(a) && Defined(b)
    requires op != Assign && !IsCompound(op) && OperatorType(strict, op, ta, tb, rhs).Some? && DivisorOf(fo, structs, env, rhs, b)
    ensures match BinaryValue(fo, op, a, b)
      case Some(v) => HasType(structs, v, OperatorType(strict, op, ta, tb, rhs).value) && Defined(v)
      case None => !strict && BinaryTrap(op, a, b) != IllTyped
  {
    hide HlslArith, HasType, Defined, ArithResult, ArithValue, SafeDivision, Comparable, SafeComparison, FlatType, DivisorOf, IntByUint;
    DefinedValue(a);
    DefinedValue(b);
    FlatTyped(structs, a, ta);
    FlatTyped(structs, b, tb);
    if IsComparison(op) {
      ComparableFlat(ta, tb);
      CompareSound(fo, structs, strict, op, a, b, ta, tb);
    } else if op in {And, Or} {
      LogicalSound(fo, structs, op, a, b);
    } else {
      ArithSound(fo, structs, strict, op, a, b, ta, tb, rhs, env);
    }
  }

  lemma {:induction false} ArithSound(
    fo: FloatOps, structs: Structs, strict: bool, op: BinaryOp, a: Value, b: Value, ta: Type, tb: Type, rhs: Expr, env: Env)
    requires HasType(structs, a, ta) && HasType(structs, b, tb) && Defined(a) && Defined(b)
    requires ArithResult(op, ta, tb).Some? && DivisorOf(fo, structs, env, rhs, b)
    requires strict ==> SafeDivision(op, ArithResult(op, ta, tb).value.kind, rhs)
    ensures match ArithValue(fo, op, a, b)
      case Some(v) => HasType(structs, v, ArithResult(op, ta, tb).value) && Defined(v)
      case None => !strict && ArithTrap(op, a, b) != IllTyped
  {
    hide HlslArith, HasType, Defined, ArithResult, FlatType, DivisorOf, IntByUint;
    DefinedValue(a);
    DefinedValue(b);
    FlatTyped(structs, a, ta);
    FlatTyped(structs, b, tb);
    ArithFlat(op, ta, tb);
    var t := ArithResult(op, ta, tb).value;
    ArithDefined(fo, structs, op, a, b, ta, tb, t.kind, rhs, env);
    if ArithValue(fo, op, a, b).Some? {
      ArithTyped(fo, structs, op, a, b);
      FlatDefined(structs, ArithValue(fo, op, a, b).value, t);
    }
  }

  lemma {:induction false} DefinedValue(v: Value)
    requires Defined(v)
    ensures !v.VUndef?
  {
  }

  lemma {:induction false} ComparableFlat(ta: Type, tb: Type)
    requires Comparable(ta, tb)
    ensures (ta.Scalar? || ta.Vector?) && (tb.Scalar? || tb.Vector?)
  {
  }

  lemma {:induction false} ArithFlat(op: BinaryOp, ta: Type, tb: Type)
    requires ArithResult(op, ta, tb).Some?
    ensures (ta.Scalar? || ta.Vector?) && (tb.Scalar? || tb.Vector?)
    ensures var t := ArithResult(op, ta, tb).value; t.Scalar? || t.Vector?
  {
  }

  lemma {:induction false} LogicalSound(fo: FloatOps, structs: Structs, op: BinaryOp, a: Value, b: Value)
    requires HasType(structs, a, Scalar(Bool)) && HasType(structs, b, Scalar(Bool)) && Defined(a) && Defined(b) && op in {And, Or}
    ensures BinaryValue(fo, op, a, b).Some?
    ensures HasType(structs, BinaryValue(fo, op, a, b).value, Scalar(Bool)) && Defined(BinaryValue(fo, op, a, b).value)
  {
  }

  lemma {:induction false} CompareSound(
    fo: FloatOps, structs: Structs, strict: bool, op: BinaryOp, a: Value, b: Value, ta: Type, tb: Type)
    requires HasType(structs, a, ta) && HasType(structs, b, tb) && Defined(a) && Defined(b)
    requires IsComparison(op) && Comparable(ta, tb)
    ensures strict && SafeComparison(op, ta.kind, tb.kind) ==> BinaryValue(fo, op, a, b).Some?
    ensures BinaryValue(fo, op, a, b).Some? ==>
      && HasType(structs, BinaryValue(fo, op, a, b).value, if ta.Vector? then Vector(Bool, ta.n) else Scalar(Bool))
      && Defined(BinaryValue(fo, op, a, b).value)
  {
    hide CompareFn, CompareCovered;
    if SafeComparison(op, ta.kind, tb.kind) {
      if a.VVec? {
        forall i | 0 <= i < |a.c| ensures CompareCovered(fo, op, a.c[i], b.c[i]) {
          assert KindOf(a.c[i]) == ta.kind && KindOf(b.c[i]) == tb.kind;
          SafeCovered(fo, op, a.c[i], b.c[i]);
        }
      } else {
        SafeCovered(fo, op, a.e, b.e);
      }
      ComparisonCoveredLifts(fo, op, a, b);
    }
    if Lift2(CompareFn(fo, op), a, b).Some? {
      CompareAgrees(fo, structs, op, ta, tb, a, b);
    }
  }

  lemma {:induction false} SafeCovered(fo: FloatOps, op: BinaryOp, x: Elem, y: Elem)
    requires KindOf(x) != Bool && (KindOf(x) == KindOf(y) || (KindOf(x) in {Int, Uint} && KindOf(y) in {Int, Uint}))
    requires SafeComparison(op, KindOf(x), KindOf(y)) && IsComparison(op)
    ensures CompareCovered(fo, op, x, y)
  {
  }

  // --- statements ---

  predicate IsCondition(t: Option<Type>) {
    t == Some(Scalar(Bool)) || (t.Some? && t.value.Vector? && t.value.kind == Bool)
  }

  /** The scope after a statement. */
  function After(scope: Env, s: Stmt): Env {
    if s.Decl? then scope + [Binding(s.decl.name, s.decl.ty, VUndef)] else scope
  }

  /** With `strict`, every declaration has an initialiser. */
  predicate WellTyped(structs: Structs, strict: bool, outTy: Type, scope: Env, s: Stmt)
    decreases s, 1
  {
    match s
    case Return(value) => value.Some? ==> TypeOf(structs, strict, scope, value.value) == Some(outTy)
    case Decl(d) => if d.init.None? then !strict else TypeOf(structs, strict, scope, d.init.value) == Some(d.ty)
    case ExprStmt(e) => TypeOf(structs, strict, scope, e).Some?
    case If(cond, thenBlock, elseBlock) =>
      && IsCondition(TypeOf(structs, strict, scope, cond)) && WellTypedAll(structs, strict, outTy, scope, thenBlock.stmts)
      && (match elseBlock { case Some(b) => WellTypedAll(structs, strict, outTy, scope, b.stmts) case None => true })
    case For(init, _, _, _) => (
      match init
      case Some(i) =>
        WellTyped(structs, strict, outTy, scope, i) && WellTypedLoop(structs, strict, outTy, After(scope, i), s)
      case None => WellTypedLoop(structs, strict, outTy, scope, s))
    case Nested(b) => WellTypedAll(structs, strict, outTy, scope, b.stmts)
  }

  predicate WellTypedLoop(structs: Structs, strict: bool, outTy: Type, scope: Env, s: Stmt)
    requires s.For?
    decreases s, 0
  {
    && (s.test.Some? ==> IsCondition(TypeOf(structs, strict, scope, s.test.value)))
    && (s.update.Some? ==> TypeOf(structs, strict, scope, s.update.value).Some?)
    && WellTypedAll(structs, strict, outTy, scope, s.body.stmts)
  }

  predicate WellTypedAll(structs: Structs, strict: bool, outTy: Type, scope: Env, ss: seq<Stmt>)
    decreases ss, 0
  {
    ss == [] || (WellTyped(structs, strict, outTy, scope, ss[0]) && WellTypedAll(structs, strict, outTy, After(scope, ss[0]), ss[1..]))
  }

  /** What a well-typed statement may do. */
  ghost predicate Safe(structs: Structs, strict: bool, scope: Env, o: Outcome) {
    match o
    case Normal(env') => Instance(structs, strict, scope, env')
    case Stuck(trap) => !strict && trap != IllTyped
    case _ => true
  }

  lemma {:induction false} CondSound(fo: FloatOps, structs: Structs, strict: bool, scope: Env, env: Env, cond: Option<Expr>)
    requires Instance(structs, strict, scope, env)
    requires cond.Some? ==> IsCondition(TypeOf(structs, strict, scope, cond.value))
    ensures match EvalCond(fo, structs, env, cond)
      case Done((_, env')) => Instance(structs, strict, scope, env')
      case Fault(trap) => !strict && trap != IllTyped
  {
    hide Instance;
    if cond.Some? {
      var t := TypeOf(structs, strict, scope, cond.value).value;
      ExprSound(fo, structs, strict, scope, env, cond.value);
      if EvalExpr(fo, structs, env, cond.value).Done? {
        TruthDefined(structs, EvalExpr(fo, structs, env, cond.value).value.0, t);
      }
    }
  }

  lemma {:induction false} TruthDefined(structs: Structs, v: Value, t: Type)
    requires HasType(structs, v, t) && !v.VUndef? && IsCondition(Some(t))
    ensures Truth(v).Some?
  {
    if v.VVec? {
      assert forall i :: 0 <= i < |v.c| ==> KindOf(v.c[i]) == Bool;
    }
  }

  lemma {:induction false} DeclareInstance(structs: Structs, strict: bool, scope: Env, env: Env, d: VarDecl, v: Value)
    requires Instance(structs, strict, scope, env) && HasType(structs, v, d.ty) && (strict ==> Defined(v))
    ensures Instance(structs, strict, After(scope, Decl(d)), env + [Binding(d.name, d.ty, v)])
  {
  }

  lemma {:induction false} LeaveInstance(structs: Structs, strict: bool, scope: Env, inner: Env, env: Env)
    requires scope <= inner && Instance(structs, strict, inner, env)
    ensures Instance(structs, strict, scope, Leave(env, |scope|))
  {
  }

  /** Leaving the scope of a block. */
  lemma {:induction false} LeaveSafe(structs: Structs, strict: bool, scope: Env, inner: Env, o: Outcome)
    requires scope <= inner && Safe(structs, strict, inner, o)
    ensures Safe(structs, strict, scope, LeaveScope(o, |scope|))
  {
    if o.Normal? {
      LeaveInstance(structs, strict, scope, inner, o.env);
    }
  }

  lemma {:induction false} InstanceLength(structs: Structs, strict: bool, scope: Env, env: Env)
    requires Instance(structs, strict, scope, env)
    ensures |env| == |scope|
  {
  }

  lemma {:induction false} DeclSafe(
    fo: FloatOps, structs: Structs, strict: bool, outTy: Type, fuel: nat, scope: Env, env: Env, d: VarDecl)
    requires Instance(structs, strict, scope, env) && WellTyped(structs, strict, outTy, scope, Decl(d))
    ensures Safe(structs, strict, After(scope, Decl(d)), ExecStmt(fo, structs, outTy, fuel, env, Decl(d)))
  {
    hide Instance, HasType, Defined, TypeOf, EvalExpr, After;
    if d.init.Some? {
      ExprSound(fo, structs, strict, scope, env, d.init.value);
      if EvalExpr(fo, structs, env, d.init.value).Done? {
        var (v, env1) := EvalExpr(fo, structs, env, d.init.value).value;
        DeclareInstance(structs, strict, scope, env1, d, v);
      }
    } else {
      UndefTyped(structs, d.ty);
      DeclareInstance(structs, strict, scope, env, d, VUndef);
    }
  }

  /** Executing a well-typed statement. */
  lemma {:induction false} StmtSafe(
    fo: FloatOps, structs: Structs, strict: bool, outTy: Type, fuel: nat, scope: Env, env: Env, s: Stmt)
    requires Instance(structs, strict, scope, env) && WellTyped(structs, strict, outTy, scope, s)
    ensures Safe(structs, strict, After(scope, s), ExecStmt(fo, structs, outTy, fuel, env, s))
    decreases fuel, s, 2
  {
    hide Instance, HasType, Defined, TypeOf, EvalExpr, EvalCond, LeaveScope, ExecLoop;
    match s
    case Return(value) =>
      if value.Some? {
        ExprSound(fo, structs, strict, scope, env, value.value);
      }
    case Decl(d) => DeclSafe(fo, structs, strict, outTy, fuel, scope, env, d);
    case ExprStmt(e) => ExprSound(fo, structs, strict, scope, env, e);
    case If(_, _, _) => IfSafe(fo, structs, strict, outTy, fuel, scope, env, s);
    case For(_, _, _, _) => ForSafe(fo, structs, strict, outTy, fuel, scope, env, s);
    case Nested(b) =>
      InstanceLength(structs, strict, scope, env);
      BlockSafe(fo, structs, strict, outTy, fuel, scope, env, b.stmts);
  }

  lemma {:induction false} IfSafe(
    fo: FloatOps, structs: Structs, strict: bool, outTy: Type, fuel: nat, scope: Env, env: Env, s: Stmt)
    requires s.If? && Instance(structs, strict, scope, env) && WellTyped(structs, strict, outTy, scope, s)
    ensures Safe(structs, strict, scope, ExecStmt(fo, structs, outTy, fuel, env, s))
    decreases fuel, s, 1
  {
    hide Instance, TypeOf, EvalCond, LeaveScope, ExecStmts, WellTypedAll;
    InstanceLength(structs, strict, scope, env);
    CondSound(fo, structs, strict, scope, env, Some(s.cond));
    if EvalCond(fo, structs, env, Some(s.cond)).Done? {
      var (b, env1) := EvalCond(fo, structs, env, Some(s.cond)).value;
      if b {
        BlockSafe(fo, structs, strict, outTy, fuel, scope, env1, s.thenBlock.stmts);
      } else if s.elseBlock.Some? {
        BlockSafe(fo, structs, strict, outTy, fuel, scope, env1, s.elseBlock.value.stmts);
      }
    }
  }

  lemma {:induction false} ForSafe(
    fo: FloatOps, structs: Structs, strict: bool, outTy: Type, fuel: nat, scope: Env, env: Env, s: Stmt)
    requires s.For? && Instance(structs, strict, scope, env) && WellTyped(structs, strict, outTy, scope, s)
    ensures Safe(structs, strict, scope, ExecStmt(fo, structs, outTy, fuel, env, s))
    decreases fuel, s, 1
  {
    hide Instance, LeaveScope, ExecLoop, WellTypedLoop;
    InstanceLength(structs, strict, scope, env);
    if s.init.Some? {
      var i := s.init.value;
      StmtSafe(fo, structs, strict, outTy, fuel, scope, env, i);
      var o := ExecStmt(fo, structs, outTy, fuel, env, i);
      if o.Normal? {
        LoopSafe(fo, structs, strict, outTy, fuel, After(scope, i), o.env, s);
        LeaveSafe(structs, strict, scope, After(scope, i), ExecLoop(fo, structs, outTy, fuel, o.env, s));
      }
    } else {
      LoopSafe(fo, structs, strict, outTy, fuel, scope, env, s);
      LeaveSafe(structs, strict, scope, scope, ExecLoop(fo, structs, outTy, fuel, env, s));
    }
  }

  lemma {:induction false} UndefTyped(structs: Structs, ty: Type)
    ensures HasType(structs, VUndef, ty)
  {
  }

  lemma {:induction false} BlockSafe(
    fo: FloatOps, structs: Structs, strict: bool, outTy: Type, fuel: nat, scope: Env, env: Env, ss: seq<Stmt>)
    requires Instance(structs, strict, scope, env) && WellTypedAll(structs, strict, outTy, scope, ss)
    ensures Safe(structs, strict, scope, LeaveScope(ExecStmts(fo, structs, outTy, fuel, env, ss), |scope|))
    decreases fuel, ss, 1
  {
    hide Instance, LeaveScope, ExecStmts, Safe;
    var inner := AllSafe(fo, structs, strict, outTy, fuel, scope, env, ss);
    LeaveSafe(structs, strict, scope, inner, ExecStmts(fo, structs, outTy, fuel, env, ss));
  }

  lemma {:induction false} AllSafe(
    fo: FloatOps, structs: Structs, strict: bool, outTy: Type, fuel: nat, scope: Env, env: Env, ss: seq<Stmt>)
    returns (inner: Env)
    requires Instance(structs, strict, scope, env) && WellTypedAll(structs, strict, outTy, scope, ss)
    ensures scope <= inner && Safe(structs, strict, inner, ExecStmts(fo, structs, outTy, fuel, env, ss))
    decreases fuel, ss, 0
  {
    hide Instance, ExecStmt, WellTyped;
    inner := scope;
    if ss != [] {
      StmtSafe(fo, structs, strict, outTy, fuel, scope, env, ss[0]);
      var o := ExecStmt(fo, structs, outTy, fuel, env, ss[0]);
      if o.Normal? {
        inner := AllSafe(fo, structs, strict, outTy, fuel, After(scope, ss[0]), o.env, ss[1..]);
      }
    }
  }

  lemma {:induction false} LoopSafe(
    fo: FloatOps, structs: Structs, strict: bool, outTy: Type, fuel: nat, scope: Env, env: Env, s: Stmt)
    requires s.For? && Instance(structs, strict, scope, env) && WellTypedLoop(structs, strict, outTy, scope, s)
    ensures Safe(structs, strict, scope, ExecLoop(fo, structs, outTy, fuel, env, s))
    decreases fuel, s, 0
  {
    hide Instance, TypeOf, EvalExpr, EvalCond, LeaveScope, ExecStmts, WellTypedAll;
    InstanceLength(structs, strict, scope, env);
    if fuel > 0 {
      CondSound(fo, structs, strict, scope, env, s.test);
      if EvalCond(fo, structs, env, s.test).Done? && EvalCond(fo, structs, env, s.test).value.0 {
        var env1 := EvalCond(fo, structs, env, s.test).value.1;
        BlockSafe(fo, structs, strict, outTy, fuel - 1, scope, env1, s.body.stmts);
        var o := LeaveScope(ExecStmts(fo, structs, outTy, fuel - 1, env1, s.body.stmts), |env|);
        if o.Normal? {
          if s.update.Some? {
            ExprSound(fo, structs, strict, scope, o.env, s.update.value);
            if EvalExpr(fo, structs, o.env, s.update.value).Done? {
              LoopSafe(fo, structs, strict, outTy, fuel - 1, scope, EvalExpr(fo, structs, o.env, s.update.value).value.1, s);
            }
          } else {
            LoopSafe(fo, structs, strict, outTy, fuel - 1, scope, o.env, s);
          }
        }
      }
    }
  }

  // --- functions ---

  function ParamScope(params: seq<Param>): (scope: Env)
    ensures |scope| == |params|
  {
    seq(|params|, i requires 0 <= i < |params| => Binding(params[i].name, params[i].ty, VUndef))
  }

  predicate WellTypedBody(structs: Structs, strict: bool, outTy: Type, params: seq<Param>, body: Block) {
    WellTypedAll(structs, strict, outTy, ParamScope(params), body.stmts)
  }

  /** Arguments of the parameters' types; strict bodies also need them defined. */
  ghost predicate Arguments(structs: Structs, strict: bool, params: seq<Param>, args: seq<Value>) {
    && |params| == |args|
    && forall i :: 0 <= i < |args| ==> HasType(structs, args[i], params[i].ty) && (strict ==> Defined(args[i]))
  }

  lemma {:induction false} BodySafe(
    fo: FloatOps, structs: Structs, strict: bool, outTy: Type, fuel: nat, params: seq<Param>, args: seq<Value>, body: Block)
    requires Arguments(structs, strict, params, args) && WellTypedBody(structs, strict, outTy, params, body)
    ensures var o := RunBody(fo, structs, outTy, fuel, params, args, body); o.Stuck? ==> !strict && o.trap != IllTyped
  {
    assert Instance(structs, strict, ParamScope(params), ParamEnv(params, args));
    hide Instance;
    var inner := AllSafe(fo, structs, strict, outTy, fuel, ParamScope(params), ParamEnv(params, args), body.stmts);
  }

  /** A well-typed body gets stuck only where HLSL leaves the result undefined or on an uncovered comparison. */
  lemma {:induction false} StuckOnlyWhenUndefined(
    fo: FloatOps, structs: Structs, outTy: Type, fuel: nat, params: seq<Param>, args: seq<Value>, body: Block)
    requires Arguments(structs, false, params, args) && WellTypedBody(structs, false, outTy, params, body)
    ensures var o := RunBody(fo, structs, outTy, fuel, params, args, body);
      o.Stuck? ==> o.trap in {DivisionUndefined, ReadsUnwritten, ComparesUncovered}
  {
    BodySafe(fo, structs, false, outTy, fuel, params, args, body);
  }

  /** A strictly typed body never gets stuck. */
  lemma {:induction false} StrictNeverStuck(
    fo: FloatOps, structs: Structs, outTy: Type, fuel: nat, params: seq<Param>, args: seq<Value>, body: Block)
    requires Arguments(structs, true, params, args) && WellTypedBody(structs, true, outTy, params, body)
    ensures !RunBody(fo, structs, outTy, fuel, params, args, body).Stuck?
  {
    BodySafe(fo, structs, true, outTy, fuel, params, args, body);
  }

  lemma {:induction false} SettingStructs(
    cx: Cx, g: Globals, entry: Id, params: seq<Param>, body: Block, args: seq<Value>, m: Mach)
    requires Setting(cx, g, entry, params, body, args, m)
    ensures cx.structs == g.structs && |params| == |args|
  {
  }

  /** What is compiled from a strictly typed, scoped body never breaks, on any defined input. */
  lemma {:induction false} WellTypedNeverBroken(
    cx: Cx, g: Globals, entry: Id, params: seq<Param>, body: Block, args: seq<Value>, m: Mach, n: nat)
    requires Setting(cx, g, entry, params, body, args, m)
    requires WellTypedBody(g.structs, true, g.outTy, params, body) && Arguments(g.structs, true, params, args)
    ensures !Steps(cx, Start(m), n).Broken?
  {
    hide Setting, WellTypedBody;
    SettingStructs(cx, g, entry, params, body, args, m);
    StrictNeverStuck(cx.fo, cx.structs, g.outTy, n, params, args, body);
    NeverBroken(cx, g, entry, params, body, args, m, n);
  }

  /** If it halts, the source returns, and the output is the returned value. */
  lemma {:induction false} WellTypedHaltingReflects(
    cx: Cx, g: Globals, entry: Id, params: seq<Param>, body: Block, args: seq<Value>, m: Mach, n: nat)
    requires Setting(cx, g, entry, params, body, args, m) && Steps(cx, Start(m), n).Halted?
    requires WellTypedBody(g.structs, true, g.outTy, params, body) && Arguments(g.structs, true, params, args)
    ensures var o := RunBody(cx.fo, cx.structs, g.outTy, n + 1, params, args, body);
      o.Returned? && Output(g, m, Steps(cx, Start(m), n).m, o.result)
  {
    hide Setting, WellTypedBody;
    SettingStructs(cx, g, entry, params, body, args, m);
    StrictNeverStuck(cx.fo, cx.structs, g.outTy, n + 1, params, args, body);
    HaltingReflectsReturn(cx, g, entry, params, body, args, m, n);
  }

  ghost predicate RunsForever(cx: Cx, m: Mach) {
    forall n: nat :: Steps(cx, Start(m), n).Running?
  }

  ghost predicate LoopsForever(cx: Cx, outTy: Type, params: seq<Param>, body: Block, args: seq<Value>)
    requires |params| == |args|
  {
    forall fuel: nat :: RunBody(cx.fo, cx.structs, outTy, fuel, params, args, body).Timeout?
  }

  /** It runs on for ever exactly when the source does. */
  lemma {:induction false} WellTypedDiverges(
    cx: Cx, g: Globals, entry: Id, params: seq<Param>, body: Block, args: seq<Value>, m: Mach)
    requires Setting(cx, g, entry, params, body, args, m)
    requires WellTypedBody(g.structs, true, g.outTy, params, body) && Arguments(g.structs, true, params, args)
    ensures RunsForever(cx, m) <==> LoopsForever(cx, g.outTy, params, body, args)
  {
    hide Setting, WellTypedBody, RunBody, Steps, Arguments;
    SettingStructs(cx, g, entry, params, body, args, m);
    if RunsForever(cx, m) {
      forall fuel: nat ensures RunBody(cx.fo, cx.structs, g.outTy, fuel, params, args, body).Timeout? {
        var k, m' := BodyPreserved(cx, g, entry, params, body, args, m, fuel);
        StrictNeverStuck(cx.fo, cx.structs, g.outTy, fuel, params, args, body);
        RunBodyReturns(cx.fo, cx.structs, g.outTy, fuel, params, args, body);
        assert Steps(cx, Start(m), k).Running?;
      }
    } else if LoopsForever(cx, g.outTy, params, body, args) {
      var n: nat :| !Steps(cx, Start(m), n).Running?;
      var k, m' := BodyPreserved(cx, g, entry, params, body, args, m, n);
      assert RunBody(cx.fo, cx.structs, g.outTy, n, params, args, body).Timeout?;
      RunningBefore(cx, Start(m), n, k);
      assert false;
    }
  }
}
