/** What HLSL operators, conversions, constructors and intrinsics mean on run-time values, whatever the emitter makes
    of them: operands of different kinds are converted to a common kind, scalars are splatted over vectors, longer
    vectors are cut to the shorter. `None` is left for undefined division and for operands HLSL rejects. */
module HlslMeaning {
  import opened Wrappers
  import opened Ast
  import opened Values

  // --- components of one kind ---

  function ArithElem(fo: FloatOps, op: BinaryOp, a: Elem, b: Elem): Option<Elem> {
    match (a, b)
    case (EInt(x), EInt(y)) => (
      match op
      case Add => Some(EInt(Wrap(x + y)))
      case Sub => Some(EInt(Wrap(x - y)))
      case Mul => Some(EInt(Wrap(x * y)))
      case Div =>
        if Signed(y) == 0 || (Signed(x) == -TWO_31 && Signed(y) == -1) then None
        else Some(EInt(Wrap(TruncDiv(Signed(x), Signed(y)))))
      case _ => None)
    case (EUint(x), EUint(y)) => (
      match op
      case Add => Some(EUint(Wrap(x + y)))
      case Sub => Some(EUint(Wrap(x - y)))
      case Mul => Some(EUint(Wrap(x * y)))
      case Div => if y == 0 then None else Some(EUint(Wrap(x / y)))
      case _ => None)
    case (EFloat(x), EFloat(y)) => (
      match op
      case Add => Some(EFloat(fo.add(x, y)))
      case Sub => Some(EFloat(fo.sub(x, y)))
      case Mul => Some(EFloat(fo.mul(x, y)))
      case Div => Some(EFloat(fo.div(x, y)))
      case _ => None)
    case _ => None
  }

  predicate Ordered(fo: FloatOps, x: Word, y: Word) {
    !fo.isNan(x) && !fo.isNan(y)
  }

  function CompareElem(fo: FloatOps, op: BinaryOp, a: Elem, b: Elem): Option<bool> {
    match (a, b)
    case (EInt(x), EInt(y)) => OrderOf(op, Signed(x), Signed(y))
    case (EUint(x), EUint(y)) => OrderOf(op, x, y)
    case (EFloat(x), EFloat(y)) => (
      match op
      case Eq => Some(Ordered(fo, x, y) && fo.equal(x, y))
      case Ne => Some(!(Ordered(fo, x, y) && fo.equal(x, y)))
      case Lt => Some(Ordered(fo, x, y) && fo.less(x, y))
      case Le => Some(Ordered(fo, x, y) && (fo.less(x, y) || fo.equal(x, y)))
      case Gt => Some(Ordered(fo, x, y) && fo.less(y, x))
      case Ge => Some(Ordered(fo, x, y) && (fo.less(y, x) || fo.equal(y, x)))
      case _ => None)
    case _ => None
  }

  function OrderOf(op: BinaryOp, x: int, y: int): Option<bool> {
    match op
    case Eq => Some(x == y)
    case Ne => Some(x != y)
    case Lt => Some(x < y)
    case Le => Some(x <= y)
    case Gt => Some(x > y)
    case Ge => Some(x >= y)
    case _ => None
  }

  // --- conversions ---

  /** Conversion between scalar kinds. */
  function ConvertElem(fo: FloatOps, e: Elem, kind: ScalarKind): Elem {
    match kind
    case Float => (
      match e
      case EFloat(_) => e
      case EInt(w) => EFloat(fo.sToF(Signed(w)))
      case EUint(w) => EFloat(fo.uToF(w))
      case EBool(b) => EFloat(fo.round(if b then F64_ONE else F64_ZERO)))
    case Int => (
      match e
      case EInt(_) => e
      case EUint(w) => EInt(w)
      case EFloat(w) => EInt(fo.fToS(w))
      case EBool(b) => EInt(if b then 1 else 0))
    case Uint => (
      match e
      case EUint(_) => e
      case EInt(w) => EUint(w)
      case EFloat(w) => EUint(fo.fToU(w))
      case EBool(b) => EUint(if b then 1 else 0))
    case Bool => (
      match e
      case EBool(_) => e
      case EInt(w) => EBool(w != 0)
      case EUint(w) => EBool(w != 0)
      case EFloat(w) =>
        var zero := fo.round(F64_ZERO);
        EBool(!(Ordered(fo, w, zero) && fo.equal(w, zero))))
  }

  lemma {:induction false} ConvertedKind(fo: FloatOps, e: Elem, to: ScalarKind)
    ensures KindOf(ConvertElem(fo, e, to)) == to
    ensures KindOf(e) == to ==> ConvertElem(fo, e, to) == e
  {
  }

  /** The kind both operands of an arithmetic operator or comparison are converted to. */
  function CommonKind(a: ScalarKind, b: ScalarKind): ScalarKind {
    if a == Float || b == Float then Float
    else if a == Uint || b == Uint then Uint
    else Int
  }

  /** Scalars and vectors as scalars and vectors: a scalar is splatted, a longer vector is cut. */
  function ConvertFlat(fo: FloatOps, v: Value, ty: Type): Option<Value> {
    match (v, ty)
    case (VScalar(e), Scalar(k)) => Some(VScalar(ConvertElem(fo, e, k)))
    case (VScalar(e), Vector(k, n)) => if n == 0 then None else Some(VVec(seq(n, _ => ConvertElem(fo, e, k))))
    case (VVec(c), Scalar(k)) => if c == [] then None else Some(VScalar(ConvertElem(fo, c[0], k)))
    case (VVec(c), Vector(k, n)) =>
      if n == 0 || n > |c| then None
      else Some(VVec(seq(n, i requires 0 <= i < n <= |c| => ConvertElem(fo, c[i], k))))
    case _ => None
  }

  /** Implicit conversion, as of an assigned, returned or initial value. */
  ghost function HlslConvert(fo: FloatOps, structs: Structs, v: Value, ty: Type): Option<Value> {
    if HasType(structs, v, ty) then Some(v) else ConvertFlat(fo, v, ty)
  }

  // --- operators ---

  /** `v` brought to the common shape of `v` and `other`. */
  function Reshape(v: Value, other: Value): Value {
    match (v, other)
    case (VScalar(e), VVec(c)) => VVec(seq(|c|, _ => e))
    case (VVec(c), VVec(d)) => if |d| < |c| then VVec(c[..|d|]) else v
    case _ => v
  }

  function HlslLift(f: (Elem, Elem) -> Option<Elem>, a: Value, b: Value): Option<Value> {
    Lift2(f, Reshape(a, b), Reshape(b, a))
  }

  function ArithFn(fo: FloatOps, op: BinaryOp): (Elem, Elem) -> Option<Elem> {
    (x, y) =>
      var k := CommonKind(KindOf(x), KindOf(y));
      ArithElem(fo, op, ConvertElem(fo, x, k), ConvertElem(fo, y, k))
  }

  function HlslArith(fo: FloatOps, op: BinaryOp, a: Value, b: Value): Option<Value> {
    HlslLift(ArithFn(fo, op), a, b)
  }

  function HlslCompareElem(fo: FloatOps, op: BinaryOp, x: Elem, y: Elem): Option<bool> {
    var k := CommonKind(KindOf(x), KindOf(y));
    CompareElem(fo, op, ConvertElem(fo, x, k), ConvertElem(fo, y, k))
  }

  function HlslCompareFn(fo: FloatOps, op: BinaryOp): (Elem, Elem) -> Option<Elem> {
    (x, y) =>
      var r :- HlslCompareElem(fo, op, x, y);
      Some(EBool(r))
  }

  function HlslCompare(fo: FloatOps, op: BinaryOp, a: Value, b: Value): Option<Value> {
    HlslLift(HlslCompareFn(fo, op), a, b)
  }

  /** `&&` and `||` work on truth values. */
  function HlslLogicalFn(fo: FloatOps, op: BinaryOp): (Elem, Elem) -> Option<Elem> {
    (x, y) =>
      var (p, q) := (ConvertElem(fo, x, Bool), ConvertElem(fo, y, Bool));
      if op == And then Some(EBool(p.b && q.b))
      else if op == Or then Some(EBool(p.b || q.b))
      else None
  }

  function HlslLogical(fo: FloatOps, op: BinaryOp, a: Value, b: Value): Option<Value> {
    HlslLift(HlslLogicalFn(fo, op), a, b)
  }

  /** `-` and `~` take a bool for the int 0 or 1; `!` asks whether its operand is zero. */
  function HlslUnaryElem(fo: FloatOps, op: UnaryOp, a: Elem): Option<Elem> {
    match op
    case Neg => (
      match a
      case EUint(w) => Some(EUint(Wrap(0 - w)))
      case EFloat(w) => Some(EFloat(fo.neg(w)))
      case _ => Some(EInt(Wrap(0 - ConvertElem(fo, a, Int).w))))
    case Not => Some(EBool(!ConvertElem(fo, a, Bool).b))
    case BitNot => (
      match a
      case EUint(w) => Some(EUint(TWO_32 - 1 - w))
      case EFloat(_) => None
      case _ => Some(EInt(TWO_32 - 1 - ConvertElem(fo, a, Int).w)))
  }

  function HlslUnaryFn(fo: FloatOps, op: UnaryOp): (Elem, Elem) -> Option<Elem> { (x, _) => HlslUnaryElem(fo, op, x) }

  function HlslUnary(fo: FloatOps, op: UnaryOp, a: Value): Option<Value> {
    Lift2(HlslUnaryFn(fo, op), a, a)
  }

  // --- constructors ---

  /** Every component of every argument is converted. */
  function HlslConstruct(fo: FloatOps, ty: Type, vs: seq<Value>): Option<Value> {
    if |vs| == 1 && (ty.Scalar? || (ty.Vector? && vs[0].VScalar?)) then ConvertFlat(fo, vs[0], ty)
    else if ty.Vector? && ty.n > 0 then
      var c :- Flatten(vs);
      if |c| == ty.n then ConvertFlat(fo, VVec(c), ty) else None
    else None
  }

  // --- intrinsics ---

  /** The function an intrinsic name denotes. */
  function FnOfName(name: string): Option<Fn> {
    match name
    case "abs" => Some(FAbs)
    case "sqrt" => Some(Sqrt)
    case "rsqrt" => Some(InverseSqrt)
    case "sin" => Some(Sin)
    case "cos" => Some(Cos)
    case "tan" => Some(Tan)
    case "asin" => Some(Asin)
    case "acos" => Some(Acos)
    case "atan" => Some(Atan)
    case "exp" => Some(Exp)
    case "log" => Some(Log)
    case "normalize" => Some(Normalize)
    case "length" => Some(Length)
    case "floor" => Some(Floor)
    case "ceil" => Some(Ceil)
    case "frac" => Some(Fract)
    case "cross" => Some(Cross)
    case "pow" => Some(Pow)
    case "min" => Some(FMin)
    case "max" => Some(FMax)
    case "clamp" => Some(FClamp)
    case "lerp" => Some(FMix)
    case _ => None
  }

  /** The float type all arguments are brought to; vectors must agree in length. */
  function CommonShape(vs: seq<Value>): Option<Type> {
    if vs == [] then Some(Scalar(Float))
    else
      var rest :- CommonShape(vs[1..]);
      match vs[0]
      case VScalar(_) => Some(rest)
      case VVec(c) => if rest.Scalar? || (rest.Vector? && rest.n == |c|) then Some(Vector(Float, |c|)) else None
      case _ => None
  }

  function ConvertAll(fo: FloatOps, vs: seq<Value>, ty: Type): (r: Option<seq<Value>>)
    ensures r.Some? ==> |r.value| == |vs|
  {
    if vs == [] then Some([])
    else
      var v :- ConvertFlat(fo, vs[0], ty);
      var rest :- ConvertAll(fo, vs[1..], ty);
      Some([v] + rest)
  }

  /** A float function on float arguments. */
  function HlslFloatFn(fo: FloatOps, fn: Fn, vs: seq<Value>): Option<Value> {
    var ty :- CommonShape(vs);
    var args :- ConvertAll(fo, vs, ty);
    ApplyFn(fo, fn, args)
  }

  /** No component is a float. */
  predicate Integral(v: Value) {
    match v
    case VScalar(e) => !e.EFloat?
    case VVec(c) => forall i :: 0 <= i < |c| ==> !c[i].EFloat?
    case _ => false
  }

  /** The smaller or, for `Gt`, the larger of two components. */
  function PickFn(fo: FloatOps, op: BinaryOp): (Elem, Elem) -> Option<Elem> {
    (x, y) =>
      var k := CommonKind(KindOf(x), KindOf(y));
      var (p, q) := (ConvertElem(fo, x, k), ConvertElem(fo, y, k));
      var b :- CompareElem(fo, op, p, q);
      Some(if b then p else q)
  }

  function AbsFn(fo: FloatOps): (Elem, Elem) -> Option<Elem> {
    (x: Elem, _) => if x.EUint? then Some(x) else
      var i := ConvertElem(fo, x, Int);
      Some(EInt(if Signed(i.w) < 0 then Wrap(0 - i.w) else i.w))
  }

  /** The four intrinsics that also exist on integers. */
  function HlslIntegerFn(fo: FloatOps, fn: Fn, vs: seq<Value>): Option<Value> {
    if |vs| != Arity(fn) then None else
    match fn
    case FAbs => Lift2(AbsFn(fo), vs[0], vs[0])
    case FMin => HlslLift(PickFn(fo, Lt), vs[0], vs[1])
    case FMax => HlslLift(PickFn(fo, Gt), vs[0], vs[1])
    case FClamp =>
      var lower :- HlslLift(PickFn(fo, Gt), vs[0], vs[1]);
      HlslLift(PickFn(fo, Lt), lower, vs[2])
    case _ => None
  }

  function HlslFn(fo: FloatOps, fn: Fn, vs: seq<Value>): Option<Value> {
    if fn in {FAbs, FMin, FMax, FClamp} && forall i :: 0 <= i < |vs| ==> Integral(vs[i]) then HlslIntegerFn(fo, fn, vs)
    else HlslFloatFn(fo, fn, vs)
  }

  /** Sum of products of integer components, as a bit pattern. */
  function DotBits(fo: FloatOps, x: seq<Elem>, y: seq<Elem>): int
    requires |x| == |y|
  {
    if x == [] then 0
    else ConvertElem(fo, x[0], Uint).w * ConvertElem(fo, y[0], Uint).w + DotBits(fo, x[1..], y[1..])
  }

  /** The dot product is a scalar; on scalars it is the product. */
  function HlslDot(fo: FloatOps, a: Value, b: Value): Option<Value> {
    if a.VScalar? && b.VScalar? then HlslArith(fo, Mul, a, b) else
    match (Reshape(a, b), Reshape(b, a))
    case (VVec(x), VVec(y)) =>
      if x == [] || |x| != |y| then None else
      var k := CommonKind(KindOf(x[0]), KindOf(y[0]));
      if k == Float then
        Some(VScalar(EFloat(fo.dot(seq(|x|, i requires 0 <= i < |x| => ConvertElem(fo, x[i], Float).w),
                                   seq(|y|, i requires 0 <= i < |y| => ConvertElem(fo, y[i], Float).w)))))
      else Some(VScalar(ConvertElem(fo, EUint(Wrap(DotBits(fo, x, y))), k)))
    case _ => None
  }

  /** `mul` of two vectors is their dot product; with a scalar it scales. */
  function HlslMul(fo: FloatOps, a: Value, b: Value): Option<Value> {
    if a.VVec? && b.VVec? then HlslDot(fo, a, b) else HlslArith(fo, Mul, a, b)
  }

  function HlslCall(fo: FloatOps, name: string, vs: seq<Value>): Option<Value> {
    if name == "saturate" then
      if |vs| != 1 then None
      else HlslFloatFn(fo, FClamp, [vs[0], VScalar(EFloat(fo.round(F64_ZERO))), VScalar(EFloat(fo.round(F64_ONE)))])
    else if name == "dot" then
      if |vs| == 2 then HlslDot(fo, vs[0], vs[1]) else None
    else if name == "mul" then
      if |vs| == 2 then HlslMul(fo, vs[0], vs[1]) else None
    else
      var fn :- FnOfName(name);
      HlslFn(fo, fn, vs)
  }
}
