/** `infer_type` predicts what `emit_expr` produces: where it does, and where it does not. */
module TypeInference {
  import opened Wrappers
  import opened Ast
  import opened Values
  import opened EmitterSpec
  import opened EmitterFacts

  predicate SameInferred(g: Globals, locals: seq<Local>, a: Expr, b: Expr) {
    InferType(g, locals, a).Ok? && InferType(g, locals, a) == InferType(g, locals, b)
  }

  /** No scalar constructors, and equal inferred types on both sides of an assignment and at both ends of an
      intrinsic's argument list, wherever the type of the whole depends on them. */
  predicate Uniform(g: Globals, locals: seq<Local>, e: Expr) {
    match e
    case Construct(ty, _) => !ty.Scalar?
    case Call(name, args) =>
      name == "length" ||
      (|args| > 0 && Uniform(g, locals, args[0]) && Uniform(g, locals, args[|args| - 1])
       && (name == "dot" || SameInferred(g, locals, args[0], args[|args| - 1])))
    case Binary(op, lhs, rhs) =>
      Uniform(g, locals, lhs) && Uniform(g, locals, rhs) && (op == Assign ==> SameInferred(g, locals, lhs, rhs))
    case Unary(_, x) => Uniform(g, locals, x)
    case _ => true
  }

  /** Places: inference and emission always agree. */
  lemma {:induction false} PlaceTypeAgrees(g: Globals, st: St, e: Expr)
    requires EmitPlace(g, st, e).Ok? && InferType(g, st.locals, e).Ok?
    ensures EmitPlace(g, st, e).value.1.ty == InferType(g, st.locals, e).value
    decreases e
  {
    if e.Member? {
      PlaceTypeAgrees(g, st, e.base);
    }
  }

  /** A place has an inferred type as soon as it can be emitted. */
  lemma {:induction false} PlaceInfers(g: Globals, st: St, e: Expr)
    requires EmitPlace(g, st, e).Ok?
    ensures InferType(g, st.locals, e).Ok?
    decreases e
  {
    if e.Member? {
      PlaceInfers(g, st, e.base);
      PlaceTypeAgrees(g, st, e.base);
    }
  }

  /** Arguments are emitted in states with the same locals. */
  lemma {:induction false} ArgTypes(g: Globals, st: St, args: seq<Expr>, i: nat)
    requires Good(st) && EmitArgs(g, st, args).Ok? && i < |args|
    requires InferType(g, st.locals, args[i]).Ok? && Uniform(g, st.locals, args[i])
    ensures EmitArgs(g, st, args).value.1[i].ty == InferType(g, st.locals, args[i]).value
    decreases args, 0
  {
    var (st1, v) := EmitExpr(g, st, args[0]).value;
    EmitExprGood(g, st, args[0]);
    if i == 0 {
      TypeAgrees(g, st, args[0]);
    } else {
      ArgTypes(g, st1, args[1..], i - 1);
    }
  }

  /** Whenever both succeed on a uniform expression, inference gives the type of the emitted value. */
  lemma {:induction false} TypeAgrees(g: Globals, st: St, e: Expr)
    requires Good(st) && EmitExpr(g, st, e).Ok? && InferType(g, st.locals, e).Ok? && Uniform(g, st.locals, e)
    ensures EmitExpr(g, st, e).value.1.ty == InferType(g, st.locals, e).value
    decreases e, 1
  {
    hide Good, Extends;
    match e
    case Lit(_) =>
    case Construct(_, _) =>
    case Ident(_) =>
    case Member(base, _) =>
      if InferType(g, st.locals, base).value.Struct? {
        PlaceTypeAgrees(g, st, e);
      }
    case Call(_, args) => CallTypeAgrees(g, st, e);
    case MethodCall(_, _, _) =>
    case Unary(_, x) => TypeAgrees(g, st, x);
    case Cast(_, _) =>
    case Binary(_, _, _) => BinaryTypeAgrees(g, st, e);
  }

  lemma {:induction false} CallTypeAgrees(g: Globals, st: St, e: Expr)
    requires e.Call? && Good(st) && EmitExpr(g, st, e).Ok? && InferType(g, st.locals, e).Ok? && Uniform(g, st.locals, e)
    ensures EmitExpr(g, st, e).value.1.ty == InferType(g, st.locals, e).value
    decreases e, 0
  {
    hide Good;
    var (st1, vs) := EmitArgs(g, st, e.args).value;
    if e.name != "length" {
      ArgTypes(g, st, e.args, 0);
      if e.name != "dot" {
        ArgTypes(g, st, e.args, |e.args| - 1);
      }
    }
  }

  lemma {:induction false} BinaryTypeAgrees(g: Globals, st: St, e: Expr)
    requires e.Binary? && Good(st) && EmitExpr(g, st, e).Ok? && InferType(g, st.locals, e).Ok? && Uniform(g, st.locals, e)
    ensures EmitExpr(g, st, e).value.1.ty == InferType(g, st.locals, e).value
    decreases e, 0
  {
    hide Good;
    if e.op == Assign {
      var (st1, p) := EmitPlace(g, st, e.lhs).value;
      EmitPlaceGood(g, st, e.lhs);
      PlaceTypeAgrees(g, st, e.lhs);
      TypeAgrees(g, st1, e.rhs);
    } else if IsCompound(e.op) {
      var (st1, p) := EmitPlace(g, st, e.lhs).value;
      EmitPlaceGood(g, st, e.lhs);
      PlaceInfers(g, st, e.lhs);
      PlaceTypeAgrees(g, st, e.lhs);
      var (st2, cur) := EmitLoad(g, st1, p).value;
      EmitLoadGood(g, st1, p);
      if !cur.ty.IsComposite() {
        TypeAgrees(g, st2, e.rhs);
      }
    } else if e.op !in {And, Or} {
      var (st1, a) := EmitExpr(g, st, e.lhs).value;
      EmitExprGood(g, st, e.lhs);
      TypeAgrees(g, st, e.lhs);
      if !IsComparison(e.op) && !a.ty.IsComposite() {
        TypeAgrees(g, st1, e.rhs);
      }
    }
  }

  /** An intrinsic is inferred from its first argument but emitted with the type of its last: the two agree
      exactly when those arguments have the same type. */
  lemma {:induction false} IntrinsicTypeExact(g: Globals, st: St, name: string, args: seq<Expr>)
    requires name in INFERRED_FROM_FIRST && name !in {"dot", "saturate"}
    requires Good(st) && EmitExpr(g, st, Call(name, args)).Ok? && InferType(g, st.locals, Call(name, args)).Ok?
    requires |args| > 0 && Uniform(g, st.locals, args[0]) && Uniform(g, st.locals, args[|args| - 1])
    requires InferType(g, st.locals, args[|args| - 1]).Ok?
    ensures EmitExpr(g, st, Call(name, args)).value.1.ty == InferType(g, st.locals, Call(name, args)).value
       <==> InferType(g, st.locals, args[0]) == InferType(g, st.locals, args[|args| - 1])
  {
    hide Good;
    ArgTypes(g, st, args, 0);
    ArgTypes(g, st, args, |args| - 1);
  }

  lemma {:induction false} ArgsCons(g: Globals, st: St, e: Expr, rest: seq<Expr>)
    requires EmitExpr(g, st, e).Ok? && EmitArgs(g, EmitExpr(g, st, e).value.0, rest).Ok?
    ensures var (st1, v) := EmitExpr(g, st, e).value; var (st2, vs) := EmitArgs(g, st1, rest).value;
      EmitArgs(g, st, [e] + rest) == Ok((st2, [v] + vs))
  {
    assert ([e] + rest)[0] == e && ([e] + rest)[1..] == rest;
  }

  /** `lerp(v, w, 0.5)` with float vectors `v` and `w`: inferred a vector, emitted as a scalar. */
  lemma {:induction false} LerpMistyped(g: Globals, st: St, n: nat)
    requires Good(st) && st.open.Some? && LookupLocal(st.locals, "v").Some?
    requires st.locals[LookupLocal(st.locals, "v").value].ty == Vector(Float, n)
    ensures var e := Call("lerp", [Ident("v"), Ident("v"), Lit(FloatLit(F64_ONE))]);
      && InferType(g, st.locals, e) == Ok(Vector(Float, n))
      && EmitExpr(g, st, e).Ok? && EmitExpr(g, st, e).value.1.ty == Scalar(Float)
  {
    hide Good;
    var v := Ident("v");
    var args := [v, v, Lit(FloatLit(F64_ONE))];
    var (st1, a) := EmitExpr(g, st, v).value;
    EmitExprGood(g, st, v);
    var (st2, b) := EmitExpr(g, st1, v).value;
    EmitExprGood(g, st1, v);
    var (st3, c) := EmitExpr(g, st2, args[2]).value;
    EmitExprGood(g, st2, args[2]);
    ArgsCons(g, st2, args[2], []);
    ArgsCons(g, st1, v, [args[2]]);
    ArgsCons(g, st, v, [v, args[2]]);
    assert [args[2]] + [] == [args[2]] && [v] + [args[2]] == [v, args[2]] && [v] + [v, args[2]] == args;
  }
}
