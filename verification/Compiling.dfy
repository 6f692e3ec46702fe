/** Which well-typed bodies the emitter accepts, read off the program text. */
module Compiling {
  import opened Wrappers
  import opened Ast
  import opened Values
  import opened HlslMeaning
  import opened HlslSemantics
  import opened SpirvMachine
  import opened EmitterSpec
  import opened EmitterFacts
  import opened OperatorAgreement
  import opened ExprPreservation
  import opened Scoping
  import opened StmtPreservation
  import opened BodyPreservation
  import opened Coverage
  import opened Typing

  // --- inference ---

  /** Expressions whose type can be inferred: the intrinsics inference does not know are the only obstacle, where the
      type of the whole depends on them. */
  predicate Inferable(structs: Structs, strict: bool, scope: Env, e: Expr)
    decreases e
  {
    match e
    case Member(base, _) => Inferable(structs, strict, scope, base)
    case Call(name, args) =>
      name == "length"
      || (if name == "mul" then |args| >= 2 && Inferable(structs, strict, scope, args[0]) && Inferable(structs, strict, scope, args[1])
          else name !in {"asin", "acos", "atan"} && |args| >= 1 && Inferable(structs, strict, scope, args[0]))
    case Binary(op, lhs, rhs) =>
      op in {And, Or}
      || (Inferable(structs, strict, scope, lhs)
          && (IsComparison(op) || Composite(TypeOf(structs, strict, scope, lhs)) || Inferable(structs, strict, scope, rhs)))
    case Unary(_, x) => Inferable(structs, strict, scope, x)
    case _ => true
  }

  predicate Composite(t: Option<Type>) {
    t.Some? && t.value.IsComposite()
  }

  /** An inferred type is the static one, up to the kind of a scalar. */
  predicate Fits(inferred: Type, t: Type) {
    if t.Scalar? then inferred.Scalar? else inferred == t
  }

  /** On well-typed expressions inference succeeds exactly where the text says so. */
  lemma {:induction false} InferExact(g: Globals, strict: bool, scope: Env, locals: seq<Local>, e: Expr)
    requires TypesAgree(scope, locals) && TypeOf(g.structs, strict, scope, e).Some?
    ensures var r := InferType(g, locals, e);
      && (r.Ok? <==> Inferable(g.structs, strict, scope, e))
      && (r.Ok? ==> Fits(r.value, TypeOf(g.structs, strict, scope, e).value))
    decreases e, 1
  {
    hide TypesAgree, CallType, Constructs, OperatorType, PlaceOf, CompoundCovered, SafeDivision, SwizzleIndices;
    match e
    case Ident(_) => PlaceInferred(g, scope, locals, e);
    case Member(base, member) =>
      if PlaceOf(g.structs, scope, e).Some? {
        PlaceInferred(g, scope, locals, e);
        PlaceInferable(g.structs, strict, scope, e);
      } else {
        InferExact(g, strict, scope, locals, base);
      }
    case Call(_, _) => InferCallExact(g, strict, scope, locals, e);
    case Unary(_, x) => InferExact(g, strict, scope, locals, x);
    case Binary(_, _, _) => InferBinaryExact(g, strict, scope, locals, e);
    case _ =>
  }

  lemma {:induction false} PlaceInferable(structs: Structs, strict: bool, scope: Env, e: Expr)
    requires PlaceOf(structs, scope, e).Some?
    ensures Inferable(structs, strict, scope, e)
    decreases e
  {
    if e.Member? {
      PlaceInferable(structs, strict, scope, e.base);
    }
  }

  lemma {:induction false} ArgumentType(structs: Structs, strict: bool, scope: Env, args: seq<Expr>, i: nat)
    requires i < |args| && TypesOfAll(structs, strict, scope, args).Some?
    ensures TypeOf(structs, strict, scope, args[i]) == Some(TypesOfAll(structs, strict, scope, args).value[i])
    decreases i
  {
    if i > 0 {
      ArgumentType(structs, strict, scope, args[1..], i - 1);
    }
  }

  /** A well-typed intrinsic has an argument; its result has the type of the first unless it is a scalar. */
  lemma {:induction false} CallTyped(name: string, ts: seq<Type>)
    requires CallType(name, ts).Some?
    ensures |ts| >= 1 && (name == "mul" ==> |ts| == 2 && ts[0].Scalar? && ts[1].Scalar?)
    ensures var t := CallType(name, ts).value;
      (name in {"mul", "dot", "length"} ==> t.Scalar?) && (name !in {"mul", "dot", "length"} ==> t == ts[0] && OfKind(t, Float))
    ensures name == "length" ==> CallType(name, ts) == Some(Scalar(Float))
    ensures name == "dot" ==> ts[0].Vector?
    ensures name !in {"mul", "length"} ==> (name in INFERRED_FROM_FIRST <==> name !in {"asin", "acos", "atan"})
  {
    if name !in {"mul", "length"} {
      InferredExact(name);
    }
    hide INFERRED_FROM_FIRST;
    if name !in {"mul", "dot", "saturate"} {
      IntrinsicTablesAgree(name);
    }
  }

  /** Inference knows all intrinsics but three. */
  lemma {:induction false} InferredExact(name: string)
    requires FnOfName(name).Some? || name in {"dot", "saturate"}
    requires name !in {"mul", "length"}
    ensures name in INFERRED_FROM_FIRST <==> name !in {"asin", "acos", "atan"}
  {
  }

  lemma {:induction false} InferCallExact(g: Globals, strict: bool, scope: Env, locals: seq<Local>, e: Expr)
    requires e.Call? && TypesAgree(scope, locals) && TypeOf(g.structs, strict, scope, e).Some?
    ensures var r := InferType(g, locals, e);
      && (r.Ok? <==> Inferable(g.structs, strict, scope, e))
      && (r.Ok? ==> Fits(r.value, TypeOf(g.structs, strict, scope, e).value))
    decreases e, 0
  {
    hide TypesAgree, CallType, INFERRED_FROM_FIRST;
    var ts := TypesOfAll(g.structs, strict, scope, e.args).value;
    CallTyped(e.name, ts);
    ArgumentType(g.structs, strict, scope, e.args, 0);
    InferExact(g, strict, scope, locals, e.args[0]);
    if e.name == "mul" {
      ArgumentType(g.structs, strict, scope, e.args, 1);
      InferExact(g, strict, scope, locals, e.args[1]);
    }
  }

  lemma {:induction false} InferBinaryExact(g: Globals, strict: bool, scope: Env, locals: seq<Local>, e: Expr)
    requires e.Binary? && TypesAgree(scope, locals) && TypeOf(g.structs, strict, scope, e).Some?
    ensures var r := InferType(g, locals, e);
      && (r.Ok? <==> Inferable(g.structs, strict, scope, e))
      && (r.Ok? ==> Fits(r.value, TypeOf(g.structs, strict, scope, e).value))
    decreases e, 0
  {
    hide TypesAgree, PlaceOf, SafeDivision;
    if e.op == Assign || IsCompound(e.op) {
      PlaceTyped(g.structs, strict, scope, e.lhs);
    }
    InferExact(g, strict, scope, locals, e.lhs);
    InferExact(g, strict, scope, locals, e.rhs);
  }

  lemma {:induction false} PlaceTyped(structs: Structs, strict: bool, scope: Env, e: Expr)
    requires PlaceOf(structs, scope, e).Some?
    ensures TypeOf(structs, strict, scope, e) == Some(PlaceOf(structs, scope, e).value.ty)
  {
  }

  // --- expressions ---

  /** Types of values that can be variables: neither textures nor samplers nor unknown structs. */
  predicate InSpirv(structs: Structs, ty: Type) {
    ty != Texture2D && ty != SamplerState && (ty.Struct? ==> ty.name in structs)
  }

  lemma {:induction false} InSpirvExact(g: Globals, ty: Type)
    ensures HasTypeId(g, ty) <==> InSpirv(g.structs, ty)
  {
  }

  /** A place can be loaded from: its type exists in SPIR-V. */
  predicate Loadable(g: Globals, scope: Env, e: Expr) {
    var p := PlaceOf(g.structs, scope, e);
    p.Some? && InSpirv(g.structs, p.value.ty)
  }

  /** Well-typed expressions the emitter accepts: what is loaded or cast to has a SPIR-V type, swizzled values have
      inferable types, and casts between scalars have an opcode. */
  predicate Compiles(g: Globals, strict: bool, scope: Env, e: Expr)
    decreases e
  {
    match e
    case Ident(_) => Loadable(g, scope, e)
    case Member(base, _) =>
      if PlaceOf(g.structs, scope, e).Some? then Loadable(g, scope, e)
      else Inferable(g.structs, strict, scope, base) && Compiles(g, strict, scope, base)
    case Construct(_, args) => forall i :: 0 <= i < |args| ==> Compiles(g, strict, scope, args[i])
    case Call(_, args) => forall i :: 0 <= i < |args| ==> Compiles(g, strict, scope, args[i])
    case Unary(_, x) => Compiles(g, strict, scope, x)
    case Cast(ty, x) =>
      Compiles(g, strict, scope, x) && InSpirv(g.structs, ty) && Castable(TypeOf(g.structs, strict, scope, x), ty)
    case Binary(op, lhs, rhs) =>
      && Compiles(g, strict, scope, rhs)
      && (if op == Assign then lhs.Ident? || Loadable(g, scope, lhs)
          else if IsCompound(op) then Loadable(g, scope, lhs)
          else Compiles(g, strict, scope, lhs))
    case _ => true
  }

  predicate Castable(from: Option<Type>, to: Type) {
    from == Some(to)
    || (from.Some? && from.value.Scalar? && to.Scalar?
        && (from.value.kind, to.kind) in {(Int, Float), (Uint, Float), (Float, Int), (Float, Uint)})
  }

  /** Ready to emit an expression of this scope. */
  ghost predicate Emits(g: Globals, scope: Env, st: St) {
    Good(st) && st.open.Some? && TypesAgree(scope, st.locals)
  }

  /** The emitter accepts an expression, with its static type, exactly when `ok`. */
  ghost predicate Accepts(g: Globals, scope: Env, r: Result<(St, Val)>, ok: bool, ty: Type) {
    (r.Ok? <==> ok) && (r.Ok? ==> r.value.1.ty == ty && Emits(g, scope, r.value.0))
  }

  lemma {:induction false} EmitsAfter(g: Globals, scope: Env, st: St, e: Expr)
    requires Emits(g, scope, st) && EmitExpr(g, st, e).Ok?
    ensures Emits(g, scope, EmitExpr(g, st, e).value.0)
  {
    hide EmitExpr, TypesAgree, Good;
    EmitExprKeeps(g, st, e);
  }

  /** A place is emitted exactly when the type of its last field exists. */
  lemma {:induction false} PlaceExact(g: Globals, scope: Env, st: St, e: Expr)
    requires Emits(g, scope, st) && PlaceOf(g.structs, scope, e).Some?
    ensures Accepts(g, scope, EmitPlace(g, st, e), e.Ident? || Loadable(g, scope, e), PlaceOf(g.structs, scope, e).value.ty)
    decreases e
  {
    hide Good, TypesAgree, Extends;
    if e.Member? {
      PlaceExact(g, scope, st, e.base);
      if EmitPlace(g, st, e).Ok? {
        EmitPlaceGood(g, st, e);
        PlaceStays(g, st, e);
      }
    } else {
      PlaceInferred(g, scope, st.locals, e);
    }
  }

  lemma {:induction false} PlaceStays(g: Globals, st: St, e: Expr)
    requires Good(st) && st.open.Some? && EmitPlace(g, st, e).Ok?
    ensures var st' := EmitPlace(g, st, e).value.0; Good(st') && st'.open.Some? && st'.locals == st.locals
  {
    hide Good, EmitPlace;
    EmitPlaceGood(g, st, e);
  }

  lemma {:induction false} ReadExact(g: Globals, scope: Env, st: St, e: Expr)
    requires Emits(g, scope, st) && PlaceOf(g.structs, scope, e).Some?
    ensures var r := EmitPlace(g, st, e);
      (r.Ok? && EmitLoad(g, r.value.0, r.value.1).Ok? <==> Loadable(g, scope, e))
    ensures var r := EmitPlace(g, st, e); r.Ok? && EmitLoad(g, r.value.0, r.value.1).Ok? ==>
      Accepts(g, scope, EmitLoad(g, r.value.0, r.value.1), true, PlaceOf(g.structs, scope, e).value.ty)
  {
    hide Good, TypesAgree, Extends, EmitPlace;
    PlaceExact(g, scope, st, e);
    if EmitPlace(g, st, e).Ok? {
      var (st1, p) := EmitPlace(g, st, e).value;
      if EmitLoad(g, st1, p).Ok? {
        EmitLoadGood(g, st1, p);
      }
    }
  }

  /** The emitter accepts a well-typed expression exactly when `Compiles` says so, and gives it its static type. */
  lemma {:induction false} ExprCompiles(g: Globals, strict: bool, scope: Env, st: St, e: Expr)
    requires Emits(g, scope, st) && TypeOf(g.structs, strict, scope, e).Some?
    ensures Accepts(g, scope, EmitExpr(g, st, e), Compiles(g, strict, scope, e), TypeOf(g.structs, strict, scope, e).value)
    decreases e, 1
  {
    hide Emits, TypeOf, Inferable, Loadable, EmitPlace, EmitLoad, EmitSwizzle, PlaceOf;
    match e
    case Lit(lit) => LitCompiles(g, strict, scope, st, lit);
    case Ident(_) => IdentCompiles(g, strict, scope, st, e);
    case Member(_, _) => MemberCompiles(g, strict, scope, st, e);
    case Construct(_, _) => ConstructCompiles(g, strict, scope, st, e);
    case Call(_, _) => CallCompiles(g, strict, scope, st, e);
    case MethodCall(_, _, _) => NoMethods(g.structs, strict, scope, e);
    case Unary(_, _) => UnaryCompiles(g, strict, scope, st, e);
    case Cast(_, _) => CastCompiles(g, strict, scope, st, e);
    case Binary(op, _, _) =>
      if op == Assign {
        AssignCompiles(g, strict, scope, st, e);
      } else if IsCompound(op) {
        CompoundCompiles(g, strict, scope, st, e);
      } else {
        OperatorCompiles(g, strict, scope, st, e);
      }
  }

  lemma {:induction false} NoMethods(structs: Structs, strict: bool, scope: Env, e: Expr)
    ensures e.MethodCall? ==> TypeOf(structs, strict, scope, e).None?
  {
  }

  lemma {:induction false} LitCompiles(g: Globals, strict: bool, scope: Env, st: St, lit: Literal)
    requires Emits(g, scope, st)
    ensures Accepts(g, scope, EmitExpr(g, st, Lit(lit)), true, LitType(lit)) && TypeOf(g.structs, strict, scope, Lit(lit)) == Some(LitType(lit))
  {
    hide Good, TypesAgree;
    EmitExprGood(g, st, Lit(lit));
  }

  lemma {:induction false} IdentCompiles(g: Globals, strict: bool, scope: Env, st: St, e: Expr)
    requires e.Ident? && Emits(g, scope, st) && TypeOf(g.structs, strict, scope, e).Some?
    ensures Accepts(g, scope, EmitExpr(g, st, e), Compiles(g, strict, scope, e), TypeOf(g.structs, strict, scope, e).value)
  {
    hide Emits, EmitPlace, EmitLoad, Loadable;
    ReadExact(g, scope, st, e);
  }

  lemma {:induction false} MemberCompiles(g: Globals, strict: bool, scope: Env, st: St, e: Expr)
    requires e.Member? && Emits(g, scope, st) && TypeOf(g.structs, strict, scope, e).Some?
    ensures Accepts(g, scope, EmitExpr(g, st, e), Compiles(g, strict, scope, e), TypeOf(g.structs, strict, scope, e).value)
    decreases e, 0
  {
    hide Emits, EmitPlace, EmitLoad, Loadable, EmitSwizzle, Inferable, SwizzleType, TypesAgree;
    if PlaceOf(g.structs, scope, e).Some? {
      PlaceBase(g, scope, st, e);
      ReadExact(g, scope, st, e);
    } else {
      assert TypesAgree(scope, st.locals) by { EmitsParts(g, scope, st); }
      var t := TypeOf(g.structs, strict, scope, e.base).value;
      assert t.Vector? by { SwizzledVector(t, e.member); }
      InferExact(g, strict, scope, st.locals, e.base);
      ExprCompiles(g, strict, scope, st, e.base);
      if EmitExpr(g, st, e.base).Ok? {
        var (st1, b) := EmitExpr(g, st, e.base).value;
        SwizzleCompiles(g, scope, st1, b, e.member, t);
      }
    }
  }

  lemma {:induction false} EmitsParts(g: Globals, scope: Env, st: St)
    requires Emits(g, scope, st)
    ensures Good(st) && st.open.Some? && TypesAgree(scope, st.locals)
  {
  }

  lemma {:induction false} PlaceBase(g: Globals, scope: Env, st: St, e: Expr)
    requires e.Member? && Emits(g, scope, st) && PlaceOf(g.structs, scope, e).Some?
    ensures InferType(g, st.locals, e.base).Ok? && InferType(g, st.locals, e.base).value.Struct?
  {
    PlaceInferred(g, scope, st.locals, e.base);
  }

  lemma {:induction false} SwizzledVector(t: Type, member: string)
    requires SwizzleType(t, member).Some?
    ensures t.Vector? && DecodeSwizzle(member).Some?
    ensures SwizzleType(t, member).value
         == if |DecodeSwizzle(member).value| == 1 then Scalar(t.kind) else Vector(t.kind, |DecodeSwizzle(member).value|)
  {
  }

  lemma {:induction false} SwizzleCompiles(g: Globals, scope: Env, st: St, b: Val, member: string, t: Type)
    requires Emits(g, scope, st) && t.Vector? && SwizzleType(t, member).Some?
    ensures Accepts(g, scope, EmitSwizzle(st, b, member, t.kind), true, SwizzleType(t, member).value)
  {
    hide Good, TypesAgree, SwizzleType;
    SwizzledVector(t, member);
    EmitSwizzleGood(st, b, member, t.kind);
  }

  /** Arguments likewise, one by one. */
  lemma {:induction false} ArgsCompile(g: Globals, strict: bool, scope: Env, st: St, args: seq<Expr>)
    requires Emits(g, scope, st) && TypesOfAll(g.structs, strict, scope, args).Some?
    ensures EmitArgs(g, st, args).Ok? <==> forall i :: 0 <= i < |args| ==> Compiles(g, strict, scope, args[i])
    ensures EmitArgs(g, st, args).Ok? ==>
      var (st', vals) := EmitArgs(g, st, args).value; Emits(g, scope, st') && TypesOf(vals) == TypesOfAll(g.structs, strict, scope, args).value
    decreases args, 0
  {
    hide Emits, TypeOf, Compiles, EmitExpr;
    if args != [] {
      ExprCompiles(g, strict, scope, st, args[0]);
      if EmitExpr(g, st, args[0]).Ok? {
        var (st1, v) := EmitExpr(g, st, args[0]).value;
        ArgsCompile(g, strict, scope, st1, args[1..]);
        AllFirstRest(g, strict, scope, args);
        if EmitArgs(g, st1, args[1..]).Ok? {
          var (st2, vals) := EmitArgs(g, st1, args[1..]).value;
          assert TypesOf([v] + vals) == [v.ty] + TypesOf(vals);
        }
      }
    }
  }

  lemma {:induction false} AllFirstRest(g: Globals, strict: bool, scope: Env, args: seq<Expr>)
    requires args != []
    ensures (forall i :: 0 <= i < |args| ==> Compiles(g, strict, scope, args[i]))
       <==> Compiles(g, strict, scope, args[0]) && forall i :: 0 <= i < |args[1..]| ==> Compiles(g, strict, scope, args[1..][i])
  {
    hide Compiles;
    if Compiles(g, strict, scope, args[0]) && forall i :: 0 <= i < |args[1..]| ==> Compiles(g, strict, scope, args[1..][i]) {
      forall i | 0 <= i < |args| ensures Compiles(g, strict, scope, args[i]) {
        if i > 0 {
          assert args[i] == args[1..][i - 1];
        }
      }
    }
  }

  lemma {:induction false} ConstructCompiles(g: Globals, strict: bool, scope: Env, st: St, e: Expr)
    requires e.Construct? && Emits(g, scope, st) && TypeOf(g.structs, strict, scope, e).Some?
    ensures Accepts(g, scope, EmitExpr(g, st, e), Compiles(g, strict, scope, e), TypeOf(g.structs, strict, scope, e).value)
    decreases e, 0
  {
    hide Emits, EmitArgs, Assemble, CoerceScalar, Components, OfKind, CoerceCovered;
    var ts := TypesOfAll(g.structs, strict, scope, e.args).value;
    if e.ty.Scalar? {
      ArgumentType(g.structs, strict, scope, e.args, 0);
      ExprCompiles(g, strict, scope, st, e.args[0]);
      if EmitExpr(g, st, e.args[0]).Ok? && e.ty.kind != Float {
        var (st1, v) := EmitExpr(g, st, e.args[0]).value;
        CoerceAccepts(g, scope, st1, v, e.ty.kind);
      }
    } else {
      ArgsCompile(g, strict, scope, st, e.args);
      if EmitArgs(g, st, e.args).Ok? {
        var (st1, vals) := EmitArgs(g, st, e.args).value;
        assert |vals| == 1 ==> vals[0].ty == TypesOf(vals)[0];
        AssembleAccepts(g, scope, st1, e.ty, vals);
      }
    }
  }

  lemma {:induction false} CoerceAccepts(g: Globals, scope: Env, st: St, v: Val, kind: ScalarKind)
    requires Emits(g, scope, st) && v.ty.Scalar? && CoerceCovered(v.ty.kind, kind)
    ensures Accepts(g, scope, CoerceScalar(st, v, kind), true, Scalar(kind))
  {
    hide Good, TypesAgree;
    CoerceScalarGood(st, v, kind);
  }

  lemma {:induction false} AssembleAccepts(g: Globals, scope: Env, st: St, ty: Type, vals: seq<Val>)
    requires Emits(g, scope, st) && ty.Vector? && (|vals| == 1 ==> vals[0].ty.Scalar?)
    ensures Accepts(g, scope, Assemble(st, ty, vals), true, ty)
  {
    hide Good, TypesAgree;
    AssembleGood(st, ty, vals);
  }

  lemma {:induction false} CallCompiles(g: Globals, strict: bool, scope: Env, st: St, e: Expr)
    requires e.Call? && Emits(g, scope, st) && TypeOf(g.structs, strict, scope, e).Some?
    ensures Accepts(g, scope, EmitExpr(g, st, e), Compiles(g, strict, scope, e), TypeOf(g.structs, strict, scope, e).value)
    decreases e, 0
  {
    hide Emits, EmitArgs, FinishCall, CallType;
    ArgsCompile(g, strict, scope, st, e.args);
    if EmitArgs(g, st, e.args).Ok? {
      var (st1, vals) := EmitArgs(g, st, e.args).value;
      FinishAccepts(g, scope, st1, e.name, vals);
    }
  }

  /** What finishes a well-typed call is always accepted. */
  lemma {:induction false} FinishAccepts(g: Globals, scope: Env, st: St, name: string, vals: seq<Val>)
    requires Emits(g, scope, st) && CallType(name, TypesOf(vals)).Some?
    ensures Accepts(g, scope, FinishCall(g, st, name, vals), true, CallType(name, TypesOf(vals)).value)
  {
    hide Emits, CallType, EmitSaturate, EmitArith, ExtInstOf, PushNew;
    CallTyped(name, TypesOf(vals));
    CallShape(name, vals);
    if name == "saturate" {
      assert TypesOf(vals)[0] == vals[0].ty;
      SaturateAccepted(g, scope, st, vals[0]);
    } else if name == "dot" {
      NewAccepted(g, scope, st, OpDot(st.nextId, Scalar(vals[0].ty.kind), vals[0].id, vals[1].id));
    } else if name == "mul" {
      ArithAccepted(g, scope, st, Mul, vals[0], vals[1]);
    } else {
      var ty := if name == "length" then Scalar(Float) else vals[|vals| - 1].ty;
      NewAccepted(g, scope, st, OpExtInst(st.nextId, ty, ExtInstOf(name).value.0, Ids(vals)));
    }
  }

  lemma {:induction false} ArithAccepted(g: Globals, scope: Env, st: St, op: BinaryOp, a: Val, b: Val)
    requires Emits(g, scope, st) && ArithResult(op, a.ty, b.ty).Some?
    ensures Accepts(g, scope, EmitArith(g, st, op, a, b), true, ArithResult(op, a.ty, b.ty).value)
  {
    hide Emits, PushNew;
    var ty := if a.ty.IsComposite() then a.ty else b.ty;
    NewAccepted(g, scope, st, OpBin(st.nextId, ArithOpcode(op, ty).value, ty, a.id, b.id));
  }

  /** Arity and argument types of a well-typed call. */
  lemma {:induction false} CallShape(name: string, vals: seq<Val>)
    requires CallType(name, TypesOf(vals)).Some?
    ensures name == "saturate" ==> |vals| == 1
    ensures name == "dot" ==>
      |vals| == 2 && vals[0].ty.Vector? && vals[0].ty.kind == Float && CallType(name, TypesOf(vals)) == Some(Scalar(Float))
    ensures name == "mul" ==>
      |vals| == 2 && vals[0].ty.Scalar? && vals[1].ty.Scalar? && CallType(name, TypesOf(vals)) == ArithResult(Mul, vals[0].ty, vals[1].ty)
    ensures name !in {"saturate", "dot", "mul"} ==>
      && ExtInstOf(name).Some? && |vals| == ExtInstOf(name).value.1 > 0
      && (name != "length" ==> CallType(name, TypesOf(vals)) == Some(vals[|vals| - 1].ty) && OfKind(vals[|vals| - 1].ty, Float))
  {
    hide ExtInstOf, FnOfName;
    var ts := TypesOf(vals);
    assert forall i :: 0 <= i < |vals| ==> ts[i] == vals[i].ty;
    if name !in {"saturate", "dot", "mul"} {
      IntrinsicTablesAgree(name);
    }
  }

  lemma {:induction false} SaturateAccepted(g: Globals, scope: Env, st: St, x: Val)
    requires Emits(g, scope, st) && OfKind(x.ty, Float)
    ensures Accepts(g, scope, EmitSaturate(g, st, x), true, x.ty)
  {
    hide Good, TypesAgree;
    if EmitSaturate(g, st, x).Ok? {
      SaturateGood(g, st, x);
    }
  }

  lemma {:induction false} UnaryCompiles(g: Globals, strict: bool, scope: Env, st: St, e: Expr)
    requires e.Unary? && Emits(g, scope, st) && TypeOf(g.structs, strict, scope, e).Some?
    ensures Accepts(g, scope, EmitExpr(g, st, e), Compiles(g, strict, scope, e), TypeOf(g.structs, strict, scope, e).value)
    decreases e, 0
  {
    hide Emits, PushNew;
    ExprCompiles(g, strict, scope, st, e.expr);
    if EmitExpr(g, st, e.expr).Ok? {
      var (st1, v) := EmitExpr(g, st, e.expr).value;
      var opc := UnaryOpcode(e.uop, v.ty).value;
      NewAccepted(g, scope, st1, OpUn(st1.nextId, opc, v.ty, v.id));
    }
  }

  lemma {:induction false} NewAccepted(g: Globals, scope: Env, st: St, i: Instr)
    requires Emits(g, scope, st) && DefOf(i) == Some(st.nextId) && !i.OpVariable?
    ensures PushNew(st, i).Ok? && PushNew(st, i).value.1 == st.nextId && Emits(g, scope, PushNew(st, i).value.0)
  {
    hide Good, TypesAgree;
    PushNewGood(st, i);
  }

  lemma {:induction false} ConversionsExact()
    ensures forall from, to :: ConvertOpcode(from, to).Some? <==>
      (from, to) in {(Int, Float), (Uint, Float), (Float, Int), (Float, Uint)}
  {
  }

  lemma {:induction false} CastCompiles(g: Globals, strict: bool, scope: Env, st: St, e: Expr)
    requires e.Cast? && Emits(g, scope, st) && TypeOf(g.structs, strict, scope, e).Some?
    ensures Accepts(g, scope, EmitExpr(g, st, e), Compiles(g, strict, scope, e), TypeOf(g.structs, strict, scope, e).value)
    decreases e, 0
  {
    InSpirvExact(g, e.ty);
    ConversionsExact();
    hide Emits, PushNew, HasTypeId, ConvertOpcode;
    ExprCompiles(g, strict, scope, st, e.expr);
    if EmitExpr(g, st, e.expr).Ok? {
      var (st1, v) := EmitExpr(g, st, e.expr).value;
      if v.ty.Scalar? && e.ty.Scalar? && ConvertOpcode(v.ty.kind, e.ty.kind).Some? {
        var opc := ConvertOpcode(v.ty.kind, e.ty.kind).value;
        NewAccepted(g, scope, st1, OpUn(st1.nextId, opc, e.ty, v.id));
      }
    }
  }

  lemma {:induction false} AssignCompiles(g: Globals, strict: bool, scope: Env, st: St, e: Expr)
    requires e.Binary? && e.op == Assign && Emits(g, scope, st) && TypeOf(g.structs, strict, scope, e).Some?
    ensures Accepts(g, scope, EmitExpr(g, st, e), Compiles(g, strict, scope, e), TypeOf(g.structs, strict, scope, e).value)
    decreases e, 0
  {
    hide Emits, EmitPlace, Coerce, Push, Loadable, PlaceOf, Assignable;
    PlaceExact(g, scope, st, e.lhs);
    if EmitPlace(g, st, e.lhs).Ok? {
      var (st1, p) := EmitPlace(g, st, e.lhs).value;
      ExprCompiles(g, strict, scope, st1, e.rhs);
      if EmitExpr(g, st1, e.rhs).Ok? {
        var (st2, v) := EmitExpr(g, st1, e.rhs).value;
        AssignedAccepted(g, scope, st2, v, p.ty);
        var (st3, w) := Coerce(st2, v, p.ty).value;
        StoreAccepted(g, scope, st3, OpStore(p.id, w.id));
      }
    }
  }

  lemma {:induction false} AssignedAccepted(g: Globals, scope: Env, st: St, v: Val, ty: Type)
    requires Emits(g, scope, st) && Assignable(v.ty, ty)
    ensures Accepts(g, scope, Coerce(st, v, ty), true, ty)
  {
    hide Emits;
    if v.ty != ty {
      CoerceAccepts(g, scope, st, v, ty.kind);
    }
  }

  lemma {:induction false} StoreAccepted(g: Globals, scope: Env, st: St, i: Instr)
    requires Emits(g, scope, st) && i.OpStore?
    ensures Push(st, i).Ok? && Emits(g, scope, Push(st, i).value)
  {
    hide Good, TypesAgree;
    PushGood(st, i);
  }

  lemma {:induction false} CompoundCompiles(g: Globals, strict: bool, scope: Env, st: St, e: Expr)
    requires e.Binary? && IsCompound(e.op) && Emits(g, scope, st) && TypeOf(g.structs, strict, scope, e).Some?
    ensures Accepts(g, scope, EmitExpr(g, st, e), Compiles(g, strict, scope, e), TypeOf(g.structs, strict, scope, e).value)
    decreases e, 0
  {
    hide Emits, EmitPlace, EmitLoad, EmitArith, Push, Loadable, PlaceOf, CompoundCovered, SafeDivision;
    ReadExact(g, scope, st, e.lhs);
    if EmitPlace(g, st, e.lhs).Ok? && EmitLoad(g, EmitPlace(g, st, e.lhs).value.0, EmitPlace(g, st, e.lhs).value.1).Ok? {
      var (st1, p) := EmitPlace(g, st, e.lhs).value;
      var (st2, cur) := EmitLoad(g, st1, p).value;
      ExprCompiles(g, strict, scope, st2, e.rhs);
      if EmitExpr(g, st2, e.rhs).Ok? {
        var (st3, v) := EmitExpr(g, st2, e.rhs).value;
        CompoundAccepted(g, scope, st3, CoreOp(e.op), cur, v);
        var (st4, r) := EmitArith(g, st3, CoreOp(e.op), cur, v).value;
        StoreAccepted(g, scope, st4, OpStore(p.id, r.id));
      }
    }
  }

  lemma {:induction false} CompoundAccepted(g: Globals, scope: Env, st: St, op: BinaryOp, a: Val, b: Val)
    requires Emits(g, scope, st) && op in {Add, Sub, Mul, Div} && CompoundCovered(op, a.ty, b.ty)
    ensures Accepts(g, scope, EmitArith(g, st, op, a, b), true, a.ty)
  {
    hide Good, TypesAgree;
    if EmitArith(g, st, op, a, b).Ok? {
      EmitArithGood(g, st, op, a, b);
    }
  }

  lemma {:induction false} OperatorCompiles(g: Globals, strict: bool, scope: Env, st: St, e: Expr)
    requires e.Binary? && e.op != Assign && !IsCompound(e.op) && Emits(g, scope, st) && TypeOf(g.structs, strict, scope, e).Some?
    ensures Accepts(g, scope, EmitExpr(g, st, e), Compiles(g, strict, scope, e), TypeOf(g.structs, strict, scope, e).value)
    decreases e, 0
  {
    hide Emits, OperatorType, EmitComparison, EmitArith, FinishOperator;
    ExprCompiles(g, strict, scope, st, e.lhs);
    if EmitExpr(g, st, e.lhs).Ok? {
      var (st1, a) := EmitExpr(g, st, e.lhs).value;
      ExprCompiles(g, strict, scope, st1, e.rhs);
      if EmitExpr(g, st1, e.rhs).Ok? {
        var (st2, b) := EmitExpr(g, st1, e.rhs).value;
        FinishedOperator(g, st, e);
        OperatorAccepted(g, strict, scope, st2, e.op, a, b, e.rhs);
      }
    }
  }

  lemma {:induction false} FinishedOperator(g: Globals, st: St, e: Expr)
    requires e.Binary? && e.op != Assign && !IsCompound(e.op)
    requires EmitExpr(g, st, e.lhs).Ok? && EmitExpr(g, EmitExpr(g, st, e.lhs).value.0, e.rhs).Ok?
    ensures var (st1, a) := EmitExpr(g, st, e.lhs).value; var (st2, b) := EmitExpr(g, st1, e.rhs).value;
      EmitExpr(g, st, e) == FinishOperator(g, st2, e.op, a, b)
  {
  }

  lemma {:induction false} OperatorAccepted(g: Globals, strict: bool, scope: Env, st: St, op: BinaryOp, a: Val, b: Val, rhs: Expr)
    requires Emits(g, scope, st) && op != Assign && !IsCompound(op) && OperatorType(strict, op, a.ty, b.ty, rhs).Some?
    ensures Accepts(g, scope, FinishOperator(g, st, op, a, b), true, OperatorType(strict, op, a.ty, b.ty, rhs).value)
  {
    hide Emits, PushNew, EmitArith, ArithResult, SafeDivision, SafeComparison;
    if IsComparison(op) {
      var opc := CompareOpcode(op, (a.ty.Scalar? || a.ty.Vector?) && a.ty.kind == Float).value;
      NewAccepted(g, scope, st, OpBin(st.nextId, opc, if a.ty.Vector? then Vector(Bool, a.ty.n) else Scalar(Bool), a.id, b.id));
    } else if op in {And, Or} {
      NewAccepted(g, scope, st, OpBin(st.nextId, if op == And then LogicalAnd else LogicalOr, Scalar(Bool), a.id, b.id));
    } else {
      ArithAccepted(g, scope, st, op, a, b);
    }
  }

  // --- statements ---

  predicate MaybeCompiles(g: Globals, strict: bool, scope: Env, e: Option<Expr>) {
    e.Some? ==> Compiles(g, strict, scope, e.value)
  }

  /** Well-typed statements the emitter accepts: declared types exist, and so for the expressions in them; what stands
      behind the end of a block does not matter. */
  predicate StmtCompiles(g: Globals, strict: bool, scope: Env, s: Stmt)
    decreases s, 1
  {
    match s
    case Return(value) => MaybeCompiles(g, strict, scope, value)
    case Decl(d) => InSpirv(g.structs, d.ty) && MaybeCompiles(g, strict, scope, d.init)
    case ExprStmt(e) => Compiles(g, strict, scope, e)
    case If(cond, thenBlock, elseBlock) =>
      && Compiles(g, strict, scope, cond) && StmtsCompile(g, strict, scope, thenBlock.stmts)
      && (match elseBlock { case Some(b) => StmtsCompile(g, strict, scope, b.stmts) case None => true })
    case For(init, _, _, _) => (
      match init
      case Some(i) => StmtCompiles(g, strict, scope, i) && (Ends(i) || LoopCompiles(g, strict, After(scope, i), s))
      case None => LoopCompiles(g, strict, scope, s))
    case Nested(b) => StmtsCompile(g, strict, scope, b.stmts)
  }

  predicate LoopCompiles(g: Globals, strict: bool, scope: Env, s: Stmt)
    requires s.For?
    decreases s, 0
  {
    && MaybeCompiles(g, strict, scope, s.test) && StmtsCompile(g, strict, scope, s.body.stmts)
    && MaybeCompiles(g, strict, scope, s.update)
  }

  predicate StmtsCompile(g: Globals, strict: bool, scope: Env, ss: seq<Stmt>)
    decreases ss, 0
  {
    ss == []
    || (StmtCompiles(g, strict, scope, ss[0]) && (Ends(ss[0]) || StmtsCompile(g, strict, After(scope, ss[0]), ss[1..])))
  }

  /** A declared name resolves to its new local, all others as before. */
  lemma {:induction false} DeclaredAgrees(scope: Env, locals: seq<Local>, b: Binding, l: Local)
    requires TypesAgree(scope, locals) && b.name == l.name && b.ty == l.ty
    ensures TypesAgree(scope + [b], locals + [l])
  {
    var scope', locals' := scope + [b], locals + [l];
    assert scope'[..|scope|] == scope && locals'[..|locals|] == locals;
    forall x: string | LookupEnv(scope', x).Some?
      ensures LookupLocal(locals', x).Some? && locals'[LookupLocal(locals', x).value].ty == scope'[LookupEnv(scope', x).value].ty
    {
      if x != b.name {
        assert LookupEnv(scope', x) == LookupEnv(scope, x) && LookupLocal(locals', x) == LookupLocal(locals, x);
      }
    }
  }

  /** Locals of inner scopes do not matter. */
  lemma {:induction false} InnerAgrees(scope: Env, locals: seq<Local>, locals': seq<Local>, names: set<string>)
    requires TypesAgree(scope, locals) && AddsNone(locals, locals', names) && Names(scope) <= names
    ensures TypesAgree(scope, locals')
  {
    forall x: string | LookupEnv(scope, x).Some?
      ensures LookupLocal(locals', x).Some? && locals'[LookupLocal(locals', x).value].ty == scope[LookupEnv(scope, x).value].ty
    {
      assert scope[LookupEnv(scope, x).value].name == x;
      assert x in Names(scope);
      AddsNoneLookup(locals, locals', names, x);
    }
  }

  lemma {:induction false} ScopedInner(s: Stmt, outer: set<string>, here: set<string>)
    requires !s.Decl? && Scoped(s, outer, here)
    ensures Scoped(s, outer + here, {})
  {
    assert outer + here + {} == outer + here;
  }

  /** After a statement that does not end the block the emitter is ready for the next. */
  lemma {:induction false} StmtEmits(g: Globals, scope: Env, st: St, s: Stmt, outer: set<string>, here: set<string>)
    requires Emits(g, scope, st) && Scoped(s, outer, here) && Names(scope) <= outer + here
    requires EmitStmt(g, st, s).Ok? && EmitStmt(g, st, s).value.open.Some?
    ensures Emits(g, After(scope, s), EmitStmt(g, st, s).value) && Names(After(scope, s)) <= outer + (here + Declared(s))
  {
    hide Good, TypesAgree, Names, AddsNone, EmitExpr, EmitInit;
    var st' := EmitStmt(g, st, s).value;
    EmitStmtGood(g, st, s);
    if s.Decl? {
      var d := s.decl;
      var (st1, ptr) := AllocLocal(g, st, d.ty).value;
      AllocGood(g, st, d.ty);
      EmitInitKeeps(g, st1, ptr, d.init);
      DeclaredAgrees(scope, st.locals, Binding(d.name, d.ty, VUndef), Local(d.name, ptr, d.ty));
      NamesAppend(scope, Binding(d.name, d.ty, VUndef));
    } else {
      ScopedInner(s, outer, here);
      EmitAddsNone(g, st, s, outer + here, {});
      InnerAgrees(scope, st.locals, st'.locals, outer + here);
    }
  }

  /** The emitter accepts a condition exactly when it accepts the expression. */
  lemma {:induction false} ConditionCompiles(g: Globals, strict: bool, scope: Env, st: St, e: Expr)
    requires Emits(g, scope, st) && IsCondition(TypeOf(g.structs, strict, scope, e))
    ensures EmitExpr(g, st, e).Ok? <==> Compiles(g, strict, scope, e)
    ensures EmitExpr(g, st, e).Ok? ==>
      var (st1, c) := EmitExpr(g, st, e).value; CoerceToBool(st1, c).Ok? && Emits(g, scope, CoerceToBool(st1, c).value.0)
  {
    hide Emits, EmitExpr, Compiles, TypeOf, PushNew;
    ExprCompiles(g, strict, scope, st, e);
    if EmitExpr(g, st, e).Ok? {
      var (st1, c) := EmitExpr(g, st, e).value;
      NewAccepted(g, scope, st1, OpAny(st1.nextId, c.id));
    }
  }

  lemma {:induction false} ReturnCompiles(g: Globals, strict: bool, outTy: Type, scope: Env, st: St, s: Stmt)
    requires s.Return? && Emits(g, scope, st) && WellTyped(g.structs, strict, outTy, scope, s)
    ensures EmitStmt(g, st, s).Ok? <==> StmtCompiles(g, strict, scope, s)
  {
    hide Good, TypesAgree, EmitExpr, Compiles, TypeOf;
    if s.value.Some? {
      ExprCompiles(g, strict, scope, st, s.value.value);
    }
  }

  lemma {:induction false} DeclCompiles(g: Globals, strict: bool, outTy: Type, scope: Env, st: St, s: Stmt)
    requires s.Decl? && Emits(g, scope, st) && WellTyped(g.structs, strict, outTy, scope, s)
    ensures EmitStmt(g, st, s).Ok? <==> StmtCompiles(g, strict, scope, s)
  {
    hide Good, TypesAgree, EmitExpr, Compiles, TypeOf, HasTypeId, Extends, Grows;
    var d := s.decl;
    InSpirvExact(g, d.ty);
    if HasTypeId(g, d.ty) {
      var (st1, ptr) := AllocLocal(g, st, d.ty).value;
      AllocGood(g, st, d.ty);
      if d.init.Some? {
        ExprCompiles(g, strict, scope, st1, d.init.value);
      }
    }
  }

  /** The emitter accepts a well-typed, scoped statement exactly when `StmtCompiles` says so. */
  lemma {:induction false} StmtCompilesExact(
    g: Globals, strict: bool, outTy: Type, scope: Env, st: St, s: Stmt, outer: set<string>, here: set<string>)
    requires Emits(g, scope, st) && WellTyped(g.structs, strict, outTy, scope, s)
    requires Scoped(s, outer, here) && Names(scope) <= outer + here
    ensures EmitStmt(g, st, s).Ok? <==> StmtCompiles(g, strict, scope, s)
    decreases s, 3
  {
    hide Emits, Names, EmitExpr, Compiles, TypeOf, EmitStmts, StmtsCompile, WellTypedAll, ScopedAll;
    match s
    case Return(_) => ReturnCompiles(g, strict, outTy, scope, st, s);
    case Decl(_) => DeclCompiles(g, strict, outTy, scope, st, s);
    case ExprStmt(e) => ExprCompiles(g, strict, scope, st, e);
    case If(_, _, _) => IfCompiles(g, strict, outTy, scope, st, s, outer, here);
    case For(_, _, _, _) => ForCompiles(g, strict, outTy, scope, st, s, outer, here);
    case Nested(b) =>
      assert outer + here + {} == outer + here;
      AllCompile(g, strict, outTy, scope, st, b.stmts, outer + here, {});
  }

  lemma {:induction false} AllCompile(
    g: Globals, strict: bool, outTy: Type, scope: Env, st: St, ss: seq<Stmt>, outer: set<string>, here: set<string>)
    requires Emits(g, scope, st) && WellTypedAll(g.structs, strict, outTy, scope, ss)
    requires ScopedAll(ss, outer, here) && Names(scope) <= outer + here
    ensures EmitStmts(g, st, ss).Ok? <==> StmtsCompile(g, strict, scope, ss)
    decreases ss, 0
  {
    hide Emits, Names, EmitStmt, StmtCompiles, WellTyped, Scoped, After, Ends;
    if ss != [] {
      StmtCompilesExact(g, strict, outTy, scope, st, ss[0], outer, here);
      if EmitStmt(g, st, ss[0]).Ok? {
        EmitsParts(g, scope, st);
        EmitDeclares(g, st, ss[0]);
        if EmitStmt(g, st, ss[0]).value.open.Some? {
          StmtEmits(g, scope, st, ss[0], outer, here);
          AllCompile(g, strict, outTy, After(scope, ss[0]), EmitStmt(g, st, ss[0]).value, ss[1..], outer, here + Declared(ss[0]));
        }
      }
    }
  }

  /** A block of its own likewise, and afterwards the names of the scope mean what they meant before. */
  lemma {:induction false} ArmCompiles(
    g: Globals, strict: bool, outTy: Type, scope: Env, st: St, l: Id, ss: seq<Stmt>, exit: Id, names: set<string>)
    requires Good(st) && st.open.None? && TypesAgree(scope, st.locals) && l < st.nextId && Unused(st, l)
    requires WellTypedAll(g.structs, strict, outTy, scope, ss) && ScopedAll(ss, names, {}) && Names(scope) <= names
    ensures EmitArm(g, st, l, ss, exit).Ok? <==> StmtsCompile(g, strict, scope, ss)
    ensures EmitArm(g, st, l, ss, exit).Ok? ==> TypesAgree(scope, EmitArm(g, st, l, ss, exit).value.locals)
    decreases ss, 1
  {
    hide Good, TypesAgree, Names, EmitStmts, StmtsCompile, WellTypedAll, ScopedAll, Unused, AddsNone, BranchIfOpen;
    BeginGood(st, l);
    var st1 := Begin(st, l).value;
    assert names + {} == names;
    AllCompile(g, strict, outTy, scope, st1, ss, names, {});
    if EmitStmts(g, st1, ss).Ok? {
      EmitStmtsGood(g, st1, ss);
      BranchIfOpenGood(EmitStmts(g, st1, ss).value, exit);
      EmitArmAddsNone(g, st, l, ss, exit, names);
      InnerAgrees(scope, st.locals, EmitArm(g, st, l, ss, exit).value.locals, names);
    }
  }

  lemma {:induction false} IfHeadCompiles(g: Globals, strict: bool, scope: Env, st: St, cond: Expr, hasElse: bool)
    requires Emits(g, scope, st) && IsCondition(TypeOf(g.structs, strict, scope, cond))
    ensures EmitIfHead(g, st, cond, hasElse).Ok? <==> Compiles(g, strict, scope, cond)
  {
    hide Good, TypesAgree, EmitExpr, Compiles, TypeOf, CoerceToBool;
    ConditionCompiles(g, strict, scope, st, cond);
  }

  lemma {:induction false} IfCompiles(
    g: Globals, strict: bool, outTy: Type, scope: Env, st: St, s: Stmt, outer: set<string>, here: set<string>)
    requires s.If? && Emits(g, scope, st) && WellTyped(g.structs, strict, outTy, scope, s)
    requires Scoped(s, outer, here) && Names(scope) <= outer + here
    ensures EmitStmt(g, st, s).Ok? <==> StmtCompiles(g, strict, scope, s)
    decreases s, 2
  {
    hide Good, Grows, Unused, Names, EmitIfHead, EmitArm, Compiles, TypeOf, StmtsCompile, WellTypedAll, ScopedAll, TypesAgree;
    IfHeadCompiles(g, strict, scope, st, s.cond, s.elseBlock.Some?);
    if EmitIfHead(g, st, s.cond, s.elseBlock.Some?).Ok? {
      var (st1, thenL) := EmitIfHead(g, st, s.cond, s.elseBlock.Some?).value;
      EmitIfHeadGood(g, st, s.cond, s.elseBlock.Some?);
      ArmCompiles(g, strict, outTy, scope, st1, thenL, s.thenBlock.stmts, thenL + 1, outer + here);
      if EmitArm(g, st1, thenL, s.thenBlock.stmts, thenL + 1).Ok? {
        var st2 := EmitArm(g, st1, thenL, s.thenBlock.stmts, thenL + 1).value;
        EmitArmGood(g, st1, thenL, s.thenBlock.stmts, thenL + 1);
        if s.elseBlock.Some? {
          var b := s.elseBlock.value;
          UnusedStays(st1, st2, {thenL}, thenL + 2);
          GrowsNextId(st1, st2, {thenL});
          ArmCompiles(g, strict, outTy, scope, st2, thenL + 2, b.stmts, thenL + 1, outer + here);
          if EmitArm(g, st2, thenL + 2, b.stmts, thenL + 1).Ok? {
            EmitArmGood(g, st2, thenL + 2, b.stmts, thenL + 1);
          }
        }
      }
    }
  }

  lemma {:induction false} ForCompiles(
    g: Globals, strict: bool, outTy: Type, scope: Env, st: St, s: Stmt, outer: set<string>, here: set<string>)
    requires s.For? && Emits(g, scope, st) && WellTyped(g.structs, strict, outTy, scope, s)
    requires Scoped(s, outer, here) && Names(scope) <= outer + here
    ensures EmitStmt(g, st, s).Ok? <==> StmtCompiles(g, strict, scope, s)
    decreases s, 2
  {
    hide Emits, Names, EmitLoop, LoopCompiles, WellTypedLoop, After, ScopedAll;
    EmitsParts(g, scope, st);
    if s.init.Some? {
      var i := s.init.value;
      StmtCompilesExact(g, strict, outTy, scope, st, i, outer + here, {});
      if EmitStmt(g, st, i).Ok? {
        var st1 := EmitStmt(g, st, i).value;
        EmitDeclares(g, st, i);
        if st1.open.Some? {
          StmtEmits(g, scope, st, i, outer + here, {});
          LoopCompilesExact(g, strict, outTy, After(scope, i), st1, s, outer + here + Declared(i));
        }
      }
    } else {
      LoopCompilesExact(g, strict, outTy, scope, st, s, outer + here);
    }
  }

  lemma {:induction false} HeaderCompiles(g: Globals, strict: bool, scope: Env, st: St, test: Option<Expr>)
    requires Emits(g, scope, st) && (test.Some? ==> IsCondition(TypeOf(g.structs, strict, scope, test.value)))
    ensures EmitHeader(g, st, test).Ok? <==> MaybeCompiles(g, strict, scope, test)
  {
    hide Good, TypesAgree, EmitExpr, Compiles, TypeOf, CoerceToBool, Grows, Unused;
    var header := st.nextId;
    var st1 := Close(st.(nextId := header + 4), OpBranch(header)).value;
    var st2 := Begin(st1, header).value;
    var st3 := Push(st2, OpLoopMerge(header + 3, header + 2)).value;
    EnterHeaderGood(st, st1, st2, st3);
    if test.Some? {
      ConditionCompiles(g, strict, scope, st3, test.value);
    }
  }

  lemma {:induction false} ContinueCompiles(
    g: Globals, strict: bool, scope: Env, st: St, update: Option<Expr>, header: Id, cont: Id)
    requires Good(st) && st.open.None? && TypesAgree(scope, st.locals) && cont < st.nextId && Unused(st, cont)
    requires update.Some? ==> TypeOf(g.structs, strict, scope, update.value).Some?
    ensures EmitContinue(g, st, update, header, cont).Ok? <==> MaybeCompiles(g, strict, scope, update)
  {
    hide Good, TypesAgree, EmitExpr, Compiles, TypeOf, Grows, Unused;
    BeginGood(st, cont);
    if update.Some? {
      ExprCompiles(g, strict, scope, Begin(st, cont).value, update.value);
    }
  }

  lemma {:induction false} LoopCompilesExact(
    g: Globals, strict: bool, outTy: Type, scope: Env, st: St, s: Stmt, names: set<string>)
    requires s.For? && Emits(g, scope, st) && WellTypedLoop(g.structs, strict, outTy, scope, s)
    requires ScopedAll(s.body.stmts, names, {}) && Names(scope) <= names
    ensures EmitLoop(g, st, s).Ok? <==> LoopCompiles(g, strict, scope, s)
    decreases s, 0
  {
    hide Good, Grows, Unused, Names, EmitHeader, EmitArm, EmitContinue, MaybeCompiles, TypeOf, StmtsCompile, WellTypedAll, ScopedAll,
      TypesAgree;
    var header := st.nextId;
    HeaderCompiles(g, strict, scope, st, s.test);
    if EmitHeader(g, st, s.test).Ok? {
      var st1 := EmitHeader(g, st, s.test).value;
      EmitHeaderGood(g, st, s.test);
      ArmCompiles(g, strict, outTy, scope, st1, header + 1, s.body.stmts, header + 2, names);
      if EmitArm(g, st1, header + 1, s.body.stmts, header + 2).Ok? {
        var st2 := EmitArm(g, st1, header + 1, s.body.stmts, header + 2).value;
        EmitArmGood(g, st1, header + 1, s.body.stmts, header + 2);
        UnusedStays(st1, st2, {header + 1}, header + 2);
        GrowsNextId(st1, st2, {header + 1});
        ContinueCompiles(g, strict, scope, st2, s.update, header, header + 2);
        if EmitContinue(g, st2, s.update, header, header + 2).Ok? {
          EmitContinueGood(g, st2, s.update, header, header + 2);
        }
      }
    }
  }

  // --- functions ---

  /** The function bodies the emitter accepts. */
  predicate BodyCompiles(g: Globals, strict: bool, params: seq<Param>, body: Block) {
    && (forall i :: 0 <= i < |params| ==> InSpirv(g.structs, params[i].ty))
    && StmtsCompile(g, strict, ParamScope(params), body.stmts)
  }

  /** Parameters are accepted exactly when their types exist, and are in scope afterwards. */
  lemma {:induction false} ParamsCompile(g: Globals, scope: Env, st: St, params: seq<Param>, inputs: seq<Id>)
    requires |params| == |inputs| && Emits(g, scope, st)
    ensures EmitParams(g, st, params, inputs).Ok? <==> forall i :: 0 <= i < |params| ==> HasTypeId(g, params[i].ty)
    ensures EmitParams(g, st, params, inputs).Ok? ==>
      Emits(g, scope + ParamScope(params), EmitParams(g, st, params, inputs).value)
    decreases |params|
  {
    hide Emits, HasTypeId;
    if params == [] {
      assert scope + ParamScope(params) == scope;
    } else if HasTypeId(g, params[0].ty) {
      var p := params[0];
      var b := Binding(p.name, p.ty, VUndef);
      ParamCompiles(g, scope, st, params, inputs);
      var st1 := OneParam(g, st, params, inputs).value;
      ParamsCompile(g, scope + [b], st1, params[1..], inputs[1..]);
      assert scope + [b] + ParamScope(params[1..]) == scope + ParamScope(params);
      assert (forall i :: 0 <= i < |params| ==> HasTypeId(g, params[i].ty)) <==>
             (forall i :: 0 <= i < |params[1..]| ==> HasTypeId(g, params[1..][i].ty)) by {
        forall i | 0 < i < |params| ensures params[i] == params[1..][i - 1] {
        }
      }
    }
  }

  lemma {:induction false} ParamCompiles(g: Globals, scope: Env, st: St, params: seq<Param>, inputs: seq<Id>)
    requires |params| == |inputs| > 0 && Emits(g, scope, st)
    ensures OneParam(g, st, params, inputs).Ok? <==> HasTypeId(g, params[0].ty)
    ensures OneParam(g, st, params, inputs).Ok? ==>
      Emits(g, scope + [Binding(params[0].name, params[0].ty, VUndef)], OneParam(g, st, params, inputs).value)
      && EmitParams(g, st, params, inputs) == EmitParams(g, OneParam(g, st, params, inputs).value, params[1..], inputs[1..])
    ensures OneParam(g, st, params, inputs).Err? ==> EmitParams(g, st, params, inputs).Err?
  {
    hide Good, TypesAgree, HasTypeId, Grows, EmitParams;
    OneParamFirst(g, st, params, inputs);
    if OneParam(g, st, params, inputs).Ok? {
      var p := params[0];
      OneParamGood(g, st, params, inputs);
      var (st1, ptr) := AllocLocal(g, st, p.ty).value;
      DeclaredAgrees(scope, st.locals, Binding(p.name, p.ty, VUndef), Local(p.name, ptr, p.ty));
    }
  }

  lemma {:induction false} OneParamFirst(g: Globals, st: St, params: seq<Param>, inputs: seq<Id>)
    requires |params| == |inputs| > 0
    ensures EmitParams(g, st, params, inputs) == match OneParam(g, st, params, inputs) {
      case Ok(st1) => EmitParams(g, st1, params[1..], inputs[1..])
      case Err(m) => Err(m)
    }
  {
    hide AllocLocal, EmitLoad, Push;
  }

  lemma {:induction false} ParamScopeNames(params: seq<Param>)
    ensures Names([] + ParamScope(params)) <= {} + ParamNames(params)
  {
  }

  /** A well-typed, scoped function body is accepted exactly when `BodyCompiles` says so. */
  lemma {:induction false} BodyCompilesExact(g: Globals, strict: bool, entry: Id, params: seq<Param>, body: Block)
    requires |params| == |g.inputs| && WellTypedBody(g.structs, strict, g.outTy, params, body)
    requires ScopedAll(body.stmts, {}, ParamNames(params))
    ensures EmitBody(g, entry, params, body).Ok? <==> BodyCompiles(g, strict, params, body)
  {
    hide Good, TypesAgree, Names, EmitParams, EmitStmts, StmtsCompile, WellTypedAll, ScopedAll, HasTypeId;
    forall i | 0 <= i < |params| ensures HasTypeId(g, params[i].ty) <==> InSpirv(g.structs, params[i].ty) {
      InSpirvExact(g, params[i].ty);
    }
    var st0 := EntrySt(entry);
    EntryGood(entry);
    assert TypesAgree([], st0.locals) by {
      NothingAgrees(st0.locals);
    }
    ParamsCompile(g, [], st0, params, g.inputs);
    assert [] + ParamScope(params) == ParamScope(params);
    if EmitParams(g, st0, params, g.inputs).Ok? {
      var st1 := EmitParams(g, st0, params, g.inputs).value;
      ParamScopeNames(params);
      AllCompile(g, strict, g.outTy, ParamScope(params), st1, body.stmts, {}, ParamNames(params));
    }
  }

  lemma {:induction false} NothingAgrees(locals: seq<Local>)
    ensures TypesAgree([], locals)
  {
  }

  /** The machine runs what the emitter makes of the body, whatever that is. */
  ghost predicate RunsOutput(cx: Cx, g: Globals, entry: Id, params: seq<Param>, body: Block, args: seq<Value>, m: Mach)
    requires |params| == |g.inputs| == |args|
  {
    match EmitBody(g, entry, params, body)
    case Ok(fin) => cx.prog == ProgramOf(fin) && cx.structs == g.structs && SeedsTyped(cx, fin) && Loaded(cx, g, fin, params, args, m)
    case Err(_) => true
  }

  /** From the text alone: a strictly typed, scoped body that `BodyCompiles` admits is compiled, the program never
      breaks, halts with the value the source returns, and runs for ever exactly when the source does. */
  lemma {:induction false} TextSuffices(
    cx: Cx, g: Globals, entry: Id, params: seq<Param>, body: Block, args: seq<Value>, m: Mach, n: nat)
    requires |params| == |g.inputs| == |args| && Interface(g, entry) && Arguments(g.structs, true, params, args)
    requires WellTypedBody(g.structs, true, g.outTy, params, body) && ScopedAll(body.stmts, {}, ParamNames(params))
    requires BodyCompiles(g, true, params, body) && RunsOutput(cx, g, entry, params, body, args, m)
    ensures EmitBody(g, entry, params, body).Ok? && !Steps(cx, Start(m), n).Broken?
    ensures Steps(cx, Start(m), n).Halted? ==>
      var o := RunBody(cx.fo, cx.structs, g.outTy, n + 1, params, args, body);
      o.Returned? && Output(g, m, Steps(cx, Start(m), n).m, o.result)
    ensures RunsForever(cx, m) <==> LoopsForever(cx, g.outTy, params, body, args)
  {
    hide WellTypedBody, BodyCompiles, ScopedAll, Interface, EmitBody, Steps, RunsForever, LoopsForever, SeedsTyped, Loaded,
      RunBody, Output;
    BodyCompilesExact(g, true, entry, params, body);
    assert Setting(cx, g, entry, params, body, args, m);
    WellTypedNeverBroken(cx, g, entry, params, body, args, m, n);
    if Steps(cx, Start(m), n).Halted? {
      WellTypedHaltingReflects(cx, g, entry, params, body, args, m, n);
    }
    WellTypedDiverges(cx, g, entry, params, body, args, m);
  }

  /** `{ asin(v).x; }` with a float2 parameter `v` is well typed, and `asin(v)` alone compiles, but inference does not
      know `asin`. */
  lemma {:induction false} AsinSwizzleRejected(g: Globals, entry: Id, strict: bool)
    requires |g.inputs| == 1
    ensures var params := [Param(Vector(Float, 2), "v")]; var call := Call("asin", [Ident("v")]);
      && WellTypedBody(g.structs, strict, g.outTy, params, Block([ExprStmt(Member(call, "x"))]))
      && EmitBody(g, entry, params, Block([ExprStmt(call)])).Ok?
      && EmitBody(g, entry, params, Block([ExprStmt(Member(call, "x"))])).Err?
  {
    var params := [Param(Vector(Float, 2), "v")];
    var call := Call("asin", [Ident("v")]);
    var scope := ParamScope(params);
    AsinTyped(g.structs, strict, scope);
    AsinUnknown(g.structs, strict, scope);
    LoneStatement(g, strict, entry, params, call);
    LoneStatement(g, strict, entry, params, Member(call, "x"));
    assert Loadable(g, scope, Ident("v"));
    assert Compiles(g, strict, scope, Ident("v"));
    assert Compiles(g, strict, scope, call);
  }

  lemma {:induction false} LoneStatement(g: Globals, strict: bool, entry: Id, params: seq<Param>, e: Expr)
    requires |params| == |g.inputs| && TypeOf(g.structs, strict, ParamScope(params), e).Some?
    requires forall i :: 0 <= i < |params| ==> InSpirv(g.structs, params[i].ty)
    ensures WellTypedBody(g.structs, strict, g.outTy, params, Block([ExprStmt(e)]))
    ensures EmitBody(g, entry, params, Block([ExprStmt(e)])).Ok? <==> Compiles(g, strict, ParamScope(params), e)
  {
    hide TypeOf, EmitBody, Compiles, InSpirv;
    var ss := [ExprStmt(e)];
    assert ss[1..] == [] && WellTyped(g.structs, strict, g.outTy, ParamScope(params), ss[0]);
    assert ScopedAll(ss, {}, ParamNames(params)) by {
      assert Scoped(ss[0], {}, ParamNames(params));
    }
    assert WellTypedAll(g.structs, strict, g.outTy, After(ParamScope(params), ss[0]), ss[1..]);
    assert WellTypedAll(g.structs, strict, g.outTy, ParamScope(params), ss);
    BodyCompilesExact(g, strict, entry, params, Block(ss));
    assert StmtsCompile(g, strict, ParamScope(params), ss) <==> StmtCompiles(g, strict, ParamScope(params), ss[0]);
  }

  lemma {:induction false} AsinTyped(structs: Structs, strict: bool, scope: Env)
    requires scope == [Binding("v", Vector(Float, 2), VUndef)]
    ensures var call := Call("asin", [Ident("v")]);
      && TypeOf(structs, strict, scope, call) == Some(Vector(Float, 2)) && PlaceOf(structs, scope, Member(call, "x")).None?
      && TypeOf(structs, strict, scope, Member(call, "x")) == Some(Scalar(Float))
      && PlaceOf(structs, scope, Ident("v")) == Some(Place(0, [], Vector(Float, 2)))
  {
    var args := [Ident("v")];
    assert args[1..] == [];
    assert TypeOf(structs, strict, scope, args[0]) == Some(Vector(Float, 2));
    assert TypesOfAll(structs, strict, scope, args) == Some([Vector(Float, 2)] + []);
    assert [Vector(Float, 2)] + [] == [Vector(Float, 2)];
    assert CallType("asin", [Vector(Float, 2)]) == Some(Vector(Float, 2));
    var letter := "x";
    assert letter[1..] == "" && SwizzleIndices(letter[1..]) == Some([]) && SwizzleIndex(letter[0]) == Some(0);
    assert [0] + [] == [0 as nat];
    assert SwizzleIndices(letter) == Some([0]);
    assert DecodeSwizzle("x") == Some([0]);
  }

  lemma {:induction false} AsinUnknown(structs: Structs, strict: bool, scope: Env)
    ensures !Inferable(structs, strict, scope, Call("asin", [Ident("v")]))
  {
    assert "asin" !in INFERRED_FROM_FIRST;
  }

  // --- what is never accepted ---

  /** `%` and the bitwise operators have no code, whatever the operands. */
  lemma {:induction false} OperatorsRejected(g: Globals, st: St, op: BinaryOp, lhs: Expr, rhs: Expr)
    requires op in {Mod, BitAnd, BitOr, BitXor}
    ensures EmitExpr(g, st, Binary(op, lhs, rhs)).Err?
  {
  }

  /** Conditions must be bools or bool vectors. */
  lemma {:induction false} ConditionsRejected(g: Globals, st: St, cond: Expr, hasElse: bool, bodyL: Id, merge: Id)
    requires EmitExpr(g, st, cond).Ok?
    requires var ty := EmitExpr(g, st, cond).value.1.ty; ty != Scalar(Bool) && !(ty.Vector? && ty.kind == Bool)
    ensures EmitIfHead(g, st, cond, hasElse).Err? && EmitTest(g, st, Some(cond), bodyL, merge).Err?
  {
  }

  /** Casts to another type work between scalars only. */
  lemma {:induction false} CastsRejected(g: Globals, st: St, ty: Type, e: Expr)
    requires EmitExpr(g, st, e).Ok? && EmitExpr(g, st, e).value.1.ty != ty
    requires !EmitExpr(g, st, e).value.1.ty.Scalar? || !ty.Scalar?
    ensures EmitExpr(g, st, Cast(ty, e)).Err?
  {
  }
}
