/** Laws of the operations that the meaning of the source and the machine are both built from. */
module ValueLaws {
  import opened Wrappers
  import opened Ast
  import opened Values
  import opened HlslMeaning
  import opened HlslSemantics
  import opened EmitterSpec

  // --- 32-bit arithmetic ---

  /** Wrapping is reduction modulo 2^32, and reading the result as signed gives back every number that fits. */
  lemma {:induction false} WrapLaws(x: int)
    ensures 0 <= x < 0x1_0000_0000 ==> Wrap(x) == x
    ensures Wrap(x + 0x1_0000_0000) == Wrap(x)
    ensures -0x8000_0000 <= x < 0x8000_0000 ==> Signed(Wrap(x)) == x
  {
  }

  /** Integer division truncates toward zero: the remainder is smaller than the divisor and has the sign of the
      dividend. */
  lemma {:induction false} TruncDivLaws(x: int, y: int)
    requires y != 0
    ensures var r := x - y * TruncDiv(x, y);
      (if y > 0 then -y < r < y else y < r < -y) && (x >= 0 ==> r >= 0) && (x <= 0 ==> r <= 0)
  {
  }

  // --- places ---

  /** What is written to a place is read from it. */
  lemma {:induction false} GetAfterSet(structs: Structs, v: Value, ty: Type, path: Path, x: Value)
    requires HasType(structs, v, ty) && PathType(structs, ty, path).Some?
    ensures GetPath(SetPath(v, path, x), path) == x
    decreases |path|
  {
    if path != [] {
      var fs := if v.VStruct? then v.fields else seq(path[0].arity, _ => VUndef);
      GetAfterSet(structs, fs[path[0].idx], structs[ty.name][path[0].idx].ty, path[1..], x);
    }
  }

  /** Paths into different parts of a struct. */
  predicate Diverge(p: Path, q: Path) {
    p != [] && q != [] && (p[0].idx != q[0].idx || Diverge(p[1..], q[1..]))
  }

  /** Writing to a place leaves every other part alone. */
  lemma {:induction false} GetAfterOther(structs: Structs, v: Value, ty: Type, p: Path, q: Path, x: Value)
    requires HasType(structs, v, ty) && PathType(structs, ty, p).Some? && PathType(structs, ty, q).Some? && Diverge(p, q)
    ensures GetPath(SetPath(v, p, x), q) == GetPath(v, q)
    decreases |p|
  {
    var fs := if v.VStruct? then v.fields else seq(p[0].arity, _ => VUndef);
    assert p[0].arity == q[0].arity == |fs|;
    if p[0].idx == q[0].idx {
      GetAfterOther(structs, fs[p[0].idx], structs[ty.name][p[0].idx].ty, p[1..], q[1..], x);
      if !v.VStruct? {
        UndefinedParts(q[1..]);
      }
    } else if !v.VStruct? {
      UndefinedParts(q[1..]);
    }
  }

  lemma {:induction false} UndefinedParts(path: Path)
    ensures GetPath(VUndef, path) == VUndef
  {
  }

  /** The same for variables. */
  lemma {:induction false} WrittenIsRead(structs: Structs, env: Env, p: Place, v: Value)
    requires EnvTyped(structs, env) && p.index < |env| && PathType(structs, env[p.index].ty, p.path) == Some(p.ty)
    requires HasType(structs, v, p.ty) && Defined(v)
    ensures ReadPlace(WritePlace(env, p, v), p) == Some(v)
  {
    GetAfterSet(structs, env[p.index].value, env[p.index].ty, p.path, v);
  }

  lemma {:induction false} OthersAreKept(structs: Structs, env: Env, p: Place, q: Place, v: Value)
    requires EnvTyped(structs, env) && p.index < |env| && q.index < |env|
    requires PathType(structs, env[p.index].ty, p.path).Some? && PathType(structs, env[q.index].ty, q.path).Some?
    requires p.index != q.index || Diverge(p.path, q.path)
    ensures ReadPlace(WritePlace(env, p, v), q) == ReadPlace(env, q)
  {
    if p.index == q.index {
      GetAfterOther(structs, env[p.index].value, env[p.index].ty, p.path, q.path, v);
    }
  }

  // --- components ---

  /** Parts are laid end to end, in order. */
  lemma {:induction false} FlattenAppend(a: seq<Value>, b: seq<Value>)
    ensures Flatten(a + b) == match (Flatten(a), Flatten(b)) {
      case (Some(c), Some(d)) => Some(c + d)
      case _ => None
    }
  {
    if a == [] {
      assert a + b == b;
      assert Flatten(b).Some? ==> [] + Flatten(b).value == Flatten(b).value;
    } else {
      assert (a + b)[0] == a[0] && (a + b)[1..] == a[1..] + b;
      FlattenAppend(a[1..], b);
      if Flatten(a).Some? && Flatten(b).Some? {
        var first := if a[0].VScalar? then [a[0].e] else a[0].c;
        assert Flatten(a) == Some(first + Flatten(a[1..]).value);
        assert first + (Flatten(a[1..]).value + Flatten(b).value) == (first + Flatten(a[1..]).value) + Flatten(b).value;
      }
    }
  }

  lemma {:induction false} FlattenOne(v: Value)
    ensures Flatten([v]) == match v { case VScalar(e) => Some([e]) case VVec(c) => Some(c) case _ => None }
  {
    assert [v][1..] == [] && Flatten([v][1..]) == Some([]);
    match v
    case VScalar(e) => assert [e] + [] == [e];
    case VVec(c) => assert c + [] == c;
    case _ =>
  }

  /** An operation on vectors is the operation on each pair of components, in place and in order. */
  lemma {:induction false} LiftComponents(f: (Elem, Elem) -> Option<Elem>, x: seq<Elem>, y: seq<Elem>, r: seq<Elem>)
    ensures Lift2(f, VVec(x), VVec(y)) == Some(VVec(r))
       <==> |x| == |y| == |r| && forall i :: 0 <= i < |r| ==> f(x[i], y[i]) == Some(r[i])
  {
    if |x| == |y| {
      if |r| == |x| {
        ZipMapExact(f, x, y, r);
      }
    }
  }

  /** On scalars it is the operation itself, left operand first; operands of different shapes have no result. */
  lemma {:induction false} LiftScalars(f: (Elem, Elem) -> Option<Elem>, x: Elem, y: Elem, r: Value, a: Value, b: Value)
    ensures Lift2(f, VScalar(x), VScalar(y)) == Some(r) <==> r.VScalar? && f(x, y) == Some(r.e)
    ensures !SameShape(a, b) ==> Lift2(f, a, b).None?
  {
  }

  /** Components of the argument vectors of an intrinsic. */
  function Components(vs: seq<seq<Elem>>, i: nat): seq<Word> {
    seq(|vs|, j requires 0 <= j < |vs| => if i < |vs[j]| && vs[j][i].EFloat? then vs[j][i].w else 0)
  }

  function Vectors(cs: seq<seq<Elem>>): (vs: seq<Value>)
    ensures |vs| == |cs|
  {
    seq(|cs|, j requires 0 <= j < |cs| => VVec(cs[j]))
  }

  /** An intrinsic other than `length`, `normalize` and `cross` works component by component. */
  lemma {:induction false} IntrinsicComponents(fo: FloatOps, fn: Fn, cs: seq<seq<Elem>>, n: nat)
    requires fn !in {Length, Normalize, Cross} && |cs| == Arity(fn)
    requires forall j :: 0 <= j < |cs| ==> |cs[j]| == n && AllFloat(cs[j])
    ensures var r := ApplyFn(fo, fn, Vectors(cs));
      && r.Some? && r.value.VVec? && |r.value.c| == n
      && forall i :: 0 <= i < n ==> r.value.c[i] == EFloat(fo.fn(fn, Components(cs, i)))
  {
    var vs := Vectors(cs);
    FloatVectors(cs, n);
    var fs := AllFloats(vs).value;
    var r := ApplyFn(fo, fn, vs).value;
    forall i | 0 <= i < n ensures r.c[i] == EFloat(fo.fn(fn, Components(cs, i))) {
      forall j | 0 <= j < |cs| ensures Column(fs, i)[j] == Components(cs, i)[j] {
        assert Floats(vs[j]) == Some(fs[j]);
      }
      assert Column(fs, i) == Components(cs, i);
    }
  }

  /** Float scalars. */
  function Scalars(ws: seq<Word>): (vs: seq<Value>)
    ensures |vs| == |ws|
  {
    seq(|ws|, j requires 0 <= j < |ws| => VScalar(EFloat(ws[j])))
  }

  /** On scalars an intrinsic is its function. */
  lemma {:induction false} IntrinsicScalars(fo: FloatOps, fn: Fn, ws: seq<Word>)
    requires fn !in {Length, Normalize, Cross} && |ws| == Arity(fn)
    ensures ApplyFn(fo, fn, Scalars(ws)) == Some(VScalar(EFloat(fo.fn(fn, ws))))
  {
    FloatScalars(ws);
    var fs := AllFloats(Scalars(ws)).value;
    forall j | 0 <= j < |ws| ensures Column(fs, 0)[j] == ws[j] {
      assert Floats(Scalars(ws)[j]) == Some(fs[j]);
    }
    assert Column(fs, 0) == ws;
  }

  lemma {:induction false} FloatScalars(ws: seq<Word>)
    ensures AllFloats(Scalars(ws)).Some?
    decreases |ws|
  {
    if ws != [] {
      assert Scalars(ws)[1..] == Scalars(ws[1..]);
      FloatScalars(ws[1..]);
    }
  }

  function FloatVector(ws: seq<Word>): Value {
    VVec(seq(|ws|, i requires 0 <= i < |ws| => EFloat(ws[i])))
  }

  /** The geometric functions: a length is a scalar, a normalised vector has the components of its argument, and a cross
      product takes two vectors of three components. */
  lemma {:induction false} GeometricFunctions(fo: FloatOps, x: seq<Word>, y: seq<Word>)
    ensures ApplyFn(fo, Length, [FloatVector(x)]) == Some(VScalar(EFloat(fo.length(x))))
    ensures var r := ApplyFn(fo, Normalize, [FloatVector(x)]);
      && r.Some? && r.value.VVec? && |r.value.c| == |x| && forall i :: 0 <= i < |x| ==> r.value.c[i] == EFloat(fo.normalize(x, i))
    ensures var r := ApplyFn(fo, Cross, [FloatVector(x), FloatVector(y)]);
      && (r.Some? <==> |x| == |y| == 3)
      && (r.Some? ==> r.value.VVec? && |r.value.c| == 3 && forall i :: 0 <= i < 3 ==> r.value.c[i] == EFloat(fo.cross(x, y, i)))
  {
    var v, w := FloatVector(x), FloatVector(y);
    ReadBack(x);
    ReadBack(y);
    FloatsCons(v, [], x, []);
    FloatsCons(w, [], y, []);
    assert [v] + [] == [v] && [w] + [] == [w] && [x] + [] == [x] && [y] + [] == [y];
    FloatsCons(v, [w], x, [y]);
    assert [v] + [w] == [v, w] && [x] + [y] == [x, y];
    assert SameShape(v, [v, w][0]) && (SameShape(v, [v, w][1]) <==> |x| == |y|);
  }

  lemma {:induction false} FloatsCons(v: Value, vs: seq<Value>, f: seq<Word>, fs: seq<seq<Word>>)
    requires Floats(v) == Some(f) && AllFloats(vs) == Some(fs)
    ensures AllFloats([v] + vs) == Some([f] + fs)
  {
    assert ([v] + vs)[1..] == vs;
  }

  lemma {:induction false} ReadBack(x: seq<Word>)
    ensures Floats(FloatVector(x)) == Some(x)
  {
    assert Floats(FloatVector(x)).value == x;
  }

  lemma {:induction false} FloatVectors(cs: seq<seq<Elem>>, n: nat)
    requires forall j :: 0 <= j < |cs| ==> |cs[j]| == n && AllFloat(cs[j])
    ensures AllFloats(Vectors(cs)).Some?
    decreases |cs|
  {
    if cs != [] {
      assert Vectors(cs)[1..] == Vectors(cs[1..]);
      FloatVectors(cs[1..], n);
    }
  }

  /** Every function of the instruction set has a name in the language, which the emitter knows. */
  lemma {:induction false} EveryFunctionNamed(fn: Fn) returns (name: string)
    ensures FnOfName(name) == Some(fn) && ExtInstOf(name).Some?
  {
    name := match fn {
      case FAbs => "abs" case Floor => "floor" case Ceil => "ceil" case Fract => "frac"
      case Sin => "sin" case Cos => "cos" case Tan => "tan" case Asin => "asin" case Acos => "acos" case Atan => "atan"
      case Pow => "pow" case Exp => "exp" case Log => "log" case Sqrt => "sqrt" case InverseSqrt => "rsqrt"
      case FMin => "min" case FMax => "max" case FClamp => "clamp" case FMix => "lerp"
      case Length => "length" case Cross => "cross" case Normalize => "normalize"
    };
  }

  // --- constants ---

  /** The bits of a positive double: a biased exponent above a fraction of 52 bits. */
  function PositiveDouble(exponent: int, fraction: int): int {
    (exponent + 1023) * 0x10_0000_0000_0000 + fraction
  }

  /** The bounds of `saturate` are zero and one. */
  lemma {:induction false} UnitInterval()
    ensures F64_ZERO == 0 && F64_ONE == PositiveDouble(0, 0)
  {
  }

  // --- swizzles ---

  /** The letters name components 0 to 3, by position or by colour, and no other letter names one. */
  lemma {:induction false} SwizzleLetters(c: char)
    ensures SwizzleIndex('x') == SwizzleIndex('r') == Some(0) && SwizzleIndex('y') == SwizzleIndex('g') == Some(1)
    ensures SwizzleIndex('z') == SwizzleIndex('b') == Some(2) && SwizzleIndex('w') == SwizzleIndex('a') == Some(3)
    ensures c !in "xyzwrgba" ==> SwizzleIndex(c) == None
  {
  }

  /** A swizzle has one to four letters, each for one component. */
  lemma {:induction false} SwizzleExact(s: string, idx: seq<nat>)
    ensures DecodeSwizzle(s) == Some(idx)
       <==> 1 <= |s| <= 4 && |idx| == |s| && forall i :: 0 <= i < |s| ==> SwizzleIndex(s[i]) == Some(idx[i])
  {
    LettersExact(s, idx);
  }

  lemma {:induction false} LettersExact(s: string, idx: seq<nat>)
    ensures SwizzleIndices(s) == Some(idx) <==> |idx| == |s| && forall i :: 0 <= i < |s| ==> SwizzleIndex(s[i]) == Some(idx[i])
  {
    if s != "" && |idx| == |s| {
      LettersExact(s[1..], idx[1..]);
      if forall i :: 0 <= i < |s| ==> SwizzleIndex(s[i]) == Some(idx[i]) {
        forall i | 0 <= i < |s[1..]| ensures SwizzleIndex(s[1..][i]) == Some(idx[1..][i]) {
          assert SwizzleIndex(s[i + 1]) == Some(idx[i + 1]);
        }
        assert SwizzleIndex(s[0]) == Some(idx[0]) && [idx[0]] + idx[1..] == idx;
      }
      if SwizzleIndices(s) == Some(idx) {
        assert idx == [idx[0]] + idx[1..];
        forall i | 0 <= i < |s| ensures SwizzleIndex(s[i]) == Some(idx[i]) {
          if i > 0 {
            assert s[i] == s[1..][i - 1] && idx[i] == idx[1..][i - 1];
          }
        }
      }
    }
  }

  // --- which operator is what ---

  /** Comparisons are the operators with a truth value on ints; compound assignments and arithmetic the rest. */
  lemma {:induction false} OperatorClasses(fo: FloatOps, op: BinaryOp)
    ensures IsComparison(op) <==> CompareElem(fo, op, EInt(0), EInt(0)).Some?
    ensures IsCompound(op) <==> op in {AddAssign, SubAssign, MulAssign, DivAssign}
    ensures ArithElem(fo, op, EInt(1), EInt(1)).Some? <==> op in {Add, Sub, Mul, Div}
  {
  }
}
