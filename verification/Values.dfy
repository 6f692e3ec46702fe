/** Run-time values, their types, and the floating-point operations the theorems are parametric in. */
module Values {
  import opened Wrappers
  import opened Ast

  const TWO_32: int := 0x1_0000_0000
  const TWO_31: int := 0x8000_0000

  /** A 32-bit pattern: an int, a uint, or an opaque IEEE single. */
  type Word = w: int | 0 <= w < TWO_32

  function Wrap(x: int): Word { x % TWO_32 }

  function Signed(w: Word): int { if w < TWO_31 then w else w - TWO_32 }

  /** Division of signed 32-bit integers truncates toward zero. */
  function TruncDiv(x: int, y: int): int
    requires y != 0
  {
    if x >= 0 then (if y > 0 then x / y else -(x / -y))
    else (if y > 0 then -(-x / y) else -x / -y)
  }

  /** The GLSL.std.450 functions the emitter uses. */
  datatype Fn =
    | FAbs | Floor | Ceil | Fract | Sin | Cos | Tan | Asin | Acos | Atan
    | Pow | Exp | Log | Sqrt | InverseSqrt | FMin | FMax | FClamp | FMix
    | Length | Cross | Normalize

  /** An arbitrary floating-point arithmetic on 32-bit patterns; `isNan` decides ordered comparison. */
  datatype FloatOps = FloatOps(
    add: (Word, Word) -> Word,
    sub: (Word, Word) -> Word,
    mul: (Word, Word) -> Word,
    div: (Word, Word) -> Word,
    neg: Word -> Word,
    isNan: Word -> bool,
    equal: (Word, Word) -> bool,
    less: (Word, Word) -> bool,
    round: F64 -> Word,
    sToF: int -> Word,
    uToF: Word -> Word,
    fToS: Word -> Word,
    fToU: Word -> Word,
    fn: (Fn, seq<Word>) -> Word,
    length: seq<Word> -> Word,
    dot: (seq<Word>, seq<Word>) -> Word,
    normalize: (seq<Word>, nat) -> Word,
    cross: (seq<Word>, seq<Word>, nat) -> Word)

  const F64_ZERO: F64 := 0
  const F64_ONE: F64 := 0x3FF0_0000_0000_0000

  /** One scalar component. */
  datatype Elem = EInt(w: Word) | EUint(w: Word) | EFloat(w: Word) | EBool(b: bool)

  function KindOf(e: Elem): ScalarKind {
    match e
    case EInt(_) => Int
    case EUint(_) => Uint
    case EFloat(_) => Float
    case EBool(_) => Bool
  }

  /** `VUndef` is the content of a variable, or of a struct field, that was never written. */
  datatype Value = VScalar(e: Elem) | VVec(c: seq<Elem>) | VStruct(fields: seq<Value>) | VUndef

  ghost predicate AllKind(c: seq<Elem>, k: ScalarKind) {
    forall i :: 0 <= i < |c| ==> KindOf(c[i]) == k
  }

  ghost predicate HasType(structs: Structs, v: Value, ty: Type)
    decreases v
  {
    match v
    case VUndef => true
    case VScalar(e) => ty == Scalar(KindOf(e))
    case VVec(c) => ty.Vector? && ty.n == |c| && 1 <= |c| && AllKind(c, ty.kind)
    case VStruct(fs) =>
      && ty.Struct? && ty.name in structs && |fs| == |structs[ty.name]|
      && forall i :: 0 <= i < |fs| ==> HasType(structs, fs[i], structs[ty.name][i].ty)
  }

  /** No part of the value is undefined. */
  ghost predicate Defined(v: Value) {
    match v
    case VUndef => false
    case VScalar(_) => true
    case VVec(_) => true
    case VStruct(fs) => forall i :: 0 <= i < |fs| ==> Defined(fs[i])
  }

  /** `t` agrees with `s` wherever `s` is defined. */
  ghost predicate Matches(s: Value, t: Value)
    decreases s
  {
    match s
    case VUndef => true
    case VScalar(_) => t == s
    case VVec(_) => t == s
    case VStruct(fs) =>
      t.VStruct? && |t.fields| == |fs| && forall i :: 0 <= i < |fs| ==> Matches(fs[i], t.fields[i])
  }

  lemma {:induction false} MatchesDefined(s: Value, t: Value)
    requires Matches(s, t) && Defined(s)
    ensures t == s
    decreases s
  {
    if s.VStruct? {
      forall i | 0 <= i < |s.fields| ensures s.fields[i] == t.fields[i] {
        MatchesDefined(s.fields[i], t.fields[i]);
      }
      assert s.fields == t.fields;
    }
  }

  lemma {:induction false} MatchesSelf(s: Value)
    ensures Matches(s, s)
  {
    if s.VStruct? {
      forall i | 0 <= i < |s.fields| ensures Matches(s.fields[i], s.fields[i]) {
        MatchesSelf(s.fields[i]);
      }
    }
  }

  // --- access paths into structs ---

  /** Field `idx` of a struct with `arity` fields. */
  datatype Step = Step(idx: nat, arity: nat)

  type Path = seq<Step>

  ghost function PathType(structs: Structs, ty: Type, path: Path): Option<Type>
    decreases |path|
  {
    if path == [] then Some(ty)
    else if ty.Struct? && ty.name in structs && path[0].arity == |structs[ty.name]| && path[0].idx < path[0].arity then
      PathType(structs, structs[ty.name][path[0].idx].ty, path[1..])
    else None
  }

  function GetPath(v: Value, path: Path): Value
    decreases |path|
  {
    if path == [] then v
    else match v
      case VStruct(fs) => if path[0].idx < |fs| then GetPath(fs[path[0].idx], path[1..]) else VUndef
      case _ => VUndef
  }

  /** Replace the part of `v` at `path`; an undefined struct springs into being with undefined fields. */
  function SetPath(v: Value, path: Path, x: Value): Value
    decreases |path|
  {
    if path == [] then x
    else
      var fs := if v.VStruct? && |v.fields| == path[0].arity then v.fields else seq(path[0].arity, _ => VUndef);
      if path[0].idx < |fs| then VStruct(fs[path[0].idx := SetPath(fs[path[0].idx], path[1..], x)]) else v
  }

  lemma {:induction false} GetPathTyped(structs: Structs, v: Value, ty: Type, path: Path)
    requires HasType(structs, v, ty)
    requires PathType(structs, ty, path).Some?
    ensures HasType(structs, GetPath(v, path), PathType(structs, ty, path).value)
    decreases |path|
  {
    if path != [] && v.VStruct? {
      GetPathTyped(structs, v.fields[path[0].idx], structs[ty.name][path[0].idx].ty, path[1..]);
    }
  }

  lemma {:induction false} SetPathTyped(structs: Structs, v: Value, ty: Type, path: Path, x: Value)
    requires HasType(structs, v, ty)
    requires PathType(structs, ty, path).Some?
    requires HasType(structs, x, PathType(structs, ty, path).value)
    ensures HasType(structs, SetPath(v, path, x), ty)
    decreases |path|
  {
    if path != [] {
      var fs := if v.VStruct? then v.fields else seq(path[0].arity, _ => VUndef);
      SetPathTyped(structs, fs[path[0].idx], structs[ty.name][path[0].idx].ty, path[1..], x);
    }
  }

  lemma {:induction false} MatchesGetPath(s: Value, t: Value, path: Path)
    requires Matches(s, t)
    ensures Matches(GetPath(s, path), GetPath(t, path))
    decreases |path|
  {
    if path != [] && s.VStruct? && path[0].idx < |s.fields| {
      MatchesGetPath(s.fields[path[0].idx], t.fields[path[0].idx], path[1..]);
    }
  }

  lemma {:induction false} MatchesSetPath(structs: Structs, s: Value, t: Value, ty: Type, path: Path, x: Value)
    requires Matches(s, t) && HasType(structs, s, ty) && HasType(structs, t, ty)
    requires PathType(structs, ty, path).Some?
    ensures Matches(SetPath(s, path, x), SetPath(t, path, x))
    decreases |path|
  {
    if path == [] {
      MatchesSelf(x);
    } else {
      var i := path[0].idx;
      var n := path[0].arity;
      var fs := if s.VStruct? then s.fields else seq(n, _ => VUndef);
      var ft := if t.VStruct? then t.fields else seq(n, _ => VUndef);
      MatchesSetPath(structs, fs[i], ft[i], structs[ty.name][i].ty, path[1..], x);
    }
  }

  lemma {:induction false} PathTypeAppend(structs: Structs, ty: Type, path: Path, step: Step)
    requires PathType(structs, ty, path).Some?
    ensures PathType(structs, ty, path + [step]) == PathType(structs, PathType(structs, ty, path).value, [step])
    decreases |path|
  {
    if path == [] {
      assert path + [step] == [step];
    } else {
      assert (path + [step])[1..] == path[1..] + [step];
      PathTypeAppend(structs, structs[ty.name][path[0].idx].ty, path[1..], step);
    }
  }

  // --- lifting component operations to values ---

  function ZipMap(f: (Elem, Elem) -> Option<Elem>, a: seq<Elem>, b: seq<Elem>): (r: Option<seq<Elem>>)
    requires |a| == |b|
    ensures r.Some? ==> |r.value| == |a|
    ensures r.Some? ==> forall i :: 0 <= i < |a| ==> f(a[i], b[i]) == Some(r.value[i])
    ensures (forall i :: 0 <= i < |a| ==> f(a[i], b[i]).Some?) ==> r.Some?
  {
    if a == [] then Some([])
    else
      var x :- f(a[0], b[0]);
      var rest :- ZipMap(f, a[1..], b[1..]);
      Some([x] + rest)
  }

  lemma {:induction false} ZipMapExact(h: (Elem, Elem) -> Option<Elem>, a: seq<Elem>, b: seq<Elem>, r: seq<Elem>)
    requires |a| == |b| == |r|
    ensures ZipMap(h, a, b) == Some(r) <==> forall i :: 0 <= i < |a| ==> h(a[i], b[i]) == Some(r[i])
  {
    if forall i :: 0 <= i < |a| ==> h(a[i], b[i]) == Some(r[i]) {
      var q := ZipMap(h, a, b).value;
      assert forall i :: 0 <= i < |a| ==> h(a[i], b[i]) == Some(q[i]);
      assert q == r;
    }
  }

  /** Apply a component operation to two scalars or, component by component, to two equally long vectors. */
  function Lift2(f: (Elem, Elem) -> Option<Elem>, a: Value, b: Value): Option<Value> {
    match (a, b)
    case (VScalar(x), VScalar(y)) =>
      var r :- f(x, y);
      Some(VScalar(r))
    case (VVec(x), VVec(y)) =>
      if |x| != |y| then None else
      var r :- ZipMap(f, x, y);
      Some(VVec(r))
    case _ => None
  }

  function Flatten(vs: seq<Value>): Option<seq<Elem>> {
    if vs == [] then Some([])
    else
      var rest :- Flatten(vs[1..]);
      match vs[0]
      case VScalar(e) => Some([e] + rest)
      case VVec(c) => Some(c + rest)
      case _ => None
  }

  lemma {:induction false} FlattenCopies(e: Elem, n: nat)
    ensures Flatten(seq(n, _ => VScalar(e))) == Some(seq(n, _ => e))
  {
    var vs := seq(n, _ => VScalar(e));
    var es := seq(n, _ => e);
    if n == 0 {
      assert vs == [] && es == [];
    } else {
      FlattenCopies(e, n - 1);
      assert vs[0] == VScalar(e) && vs[1..] == seq(n - 1, _ => VScalar(e));
      assert [e] + seq(n - 1, _ => e) == es;
      assert Flatten(vs) == Some([e] + seq(n - 1, _ => e));
    }
  }

  /** Agreement of two component operations carries over to values, with the result type. */
  lemma {:induction false} Lift2Agree(
    structs: Structs, f: (Elem, Elem) -> Option<Elem>, g: (Elem, Elem) -> Option<Elem>,
    a: Value, b: Value, ta: Type, tb: Type, rk: ScalarKind)
    requires HasType(structs, a, ta) && (ta.Scalar? || ta.Vector?)
    requires HasType(structs, b, tb) && (tb.Scalar? || tb.Vector?)
    requires Lift2(f, a, b).Some?
    requires forall x, y :: KindOf(x) == ta.kind && KindOf(y) == tb.kind && f(x, y).Some? ==>
                              g(x, y) == f(x, y) && KindOf(f(x, y).value) == rk
    ensures Lift2(g, a, b) == Lift2(f, a, b)
    ensures HasType(structs, Lift2(f, a, b).value, if ta.Scalar? then Scalar(rk) else Vector(rk, ta.n))
  {
    if a.VVec? {
      var r := ZipMap(f, a.c, b.c).value;
      forall i | 0 <= i < |a.c| ensures g(a.c[i], b.c[i]) == f(a.c[i], b.c[i]) == Some(r[i]) && KindOf(r[i]) == rk {
        assert KindOf(a.c[i]) == ta.kind && KindOf(b.c[i]) == tb.kind;
      }
      assert ZipMap(g, a.c, b.c).value == r;
    }
  }

  // --- floating-point helpers ---

  predicate AllFloat(c: seq<Elem>) {
    forall i :: 0 <= i < |c| ==> c[i].EFloat?
  }

  /** The float components of a float scalar or vector. */
  function Floats(v: Value): (r: Option<seq<Word>>)
    ensures r.Some? ==> (v.VScalar? && |r.value| == 1) || (v.VVec? && |r.value| == |v.c|)
  {
    match v
    case VScalar(EFloat(w)) => Some([w])
    case VVec(c) => if AllFloat(c) then Some(seq(|c|, i requires 0 <= i < |c| => c[i].w)) else None
    case _ => None
  }

  /** A float value shaped like `v` with the given components. */
  function Shaped(v: Value, f: nat -> Word): Value {
    match v
    case VVec(c) => VVec(seq(|c|, (i: nat) => EFloat(f(i))))
    case _ => VScalar(EFloat(f(0)))
  }

  /** Same shape: both scalars, or vectors of the same length. */
  predicate SameShape(a: Value, b: Value) {
    (a.VScalar? && b.VScalar?) || (a.VVec? && b.VVec? && |a.c| == |b.c|)
  }

  function AllFloats(vs: seq<Value>): (r: Option<seq<seq<Word>>>)
    ensures r.Some? ==> |r.value| == |vs|
    ensures r.Some? ==> forall i :: 0 <= i < |vs| ==> Floats(vs[i]) == Some(r.value[i])
  {
    if vs == [] then Some([])
    else
      var f :- Floats(vs[0]);
      var rest :- AllFloats(vs[1..]);
      Some([f] + rest)
  }

  function Arity(fn: Fn): nat {
    match fn
    case Cross | Pow | FMin | FMax => 2
    case FClamp | FMix => 3
    case _ => 1
  }

  /** Component `i` of every argument. */
  function Column(fs: seq<seq<Word>>, i: nat): seq<Word> {
    seq(|fs|, j requires 0 <= j < |fs| => if i < |fs[j]| then fs[j][i] else 0)
  }

  /** Meaning of an extended instruction on float operands of one common shape. */
  function ApplyFn(fo: FloatOps, fn: Fn, vs: seq<Value>): Option<Value> {
    if |vs| != Arity(fn) then None
    else if exists i :: 0 <= i < |vs| && !SameShape(vs[0], vs[i]) then None
    else
      var fs :- AllFloats(vs);
      match fn
      case Length => Some(VScalar(EFloat(fo.length(fs[0]))))
      case Normalize => Some(Shaped(vs[0], i => fo.normalize(fs[0], i)))
      case Cross =>
        if |fs[0]| != 3 then None else Some(Shaped(vs[0], i => fo.cross(fs[0], fs[1], i)))
      case _ => Some(Shaped(vs[0], i => fo.fn(fn, Column(fs, i))))
  }

  function DotValue(fo: FloatOps, a: Value, b: Value): Option<Value> {
    if !(a.VVec? && b.VVec? && |a.c| == |b.c|) then None
    else
      var x :- Floats(a);
      var y :- Floats(b);
      Some(VScalar(EFloat(fo.dot(x, y))))
  }

  /** A float value of the same shape as `v`, every component `w`. */
  function Broadcast(v: Value, w: Word): Value {
    Shaped(v, _ => w)
  }

  lemma {:induction false} FloatsTyped(structs: Structs, v: Value, ty: Type)
    requires HasType(structs, v, ty) && Floats(v).Some?
    ensures v.VScalar? ==> ty == Scalar(Float)
    ensures v.VVec? ==> ty == Vector(Float, |v.c|)
  {
    if v.VVec? {
      assert KindOf(v.c[0]) == ty.kind;
    }
  }

  /** Every result but a length has the operands' type. */
  lemma {:induction false} ApplyFnTyped(structs: Structs, fo: FloatOps, fn: Fn, vs: seq<Value>, i: nat, ty: Type)
    requires ApplyFn(fo, fn, vs).Some? && i < |vs|
    requires HasType(structs, vs[i], ty)
    ensures fn == Length ==> HasType(structs, ApplyFn(fo, fn, vs).value, Scalar(Float))
    ensures fn != Length ==> HasType(structs, ApplyFn(fo, fn, vs).value, ty)
  {
    assert SameShape(vs[0], vs[i]);
    assert Floats(vs[i]).Some?;
    FloatsTyped(structs, vs[i], ty);
  }
}
