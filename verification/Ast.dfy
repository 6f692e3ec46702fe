/** The HLSL syntax tree shared by the parser and the code generator (ast.rs). */
module Ast {
  import opened Wrappers

  datatype ScalarKind = Float | Int | Uint | Bool

  datatype Type =
    | Void
    | Scalar(kind: ScalarKind)
    | Vector(kind: ScalarKind, n: nat)
    | Matrix(kind: ScalarKind, rows: nat, cols: nat)
    | Struct(name: string)
    | Texture2D
    | SamplerState
  {
    predicate IsComposite() { Vector? || Matrix? }
  }

  /** The bit pattern of an IEEE double, as carried by a float literal. */
  type F64 = bits: int | 0 <= bits < 0x1_0000_0000_0000_0000

  datatype Literal =
    | IntLit(i: int)
    | UintLit(u: nat)
    | FloatLit(f: F64)
    | BoolLit(b: bool)

  datatype BinaryOp =
    | Add | Sub | Mul | Div | Mod
    | Assign | AddAssign | SubAssign | MulAssign | DivAssign
    | Eq | Ne | Lt | Le | Gt | Ge
    | And | Or
    | BitAnd | BitOr | BitXor

  datatype UnaryOp = Neg | Not | BitNot

  datatype Expr =
    | Lit(lit: Literal)
    | Ident(name: string)
    | Construct(ty: Type, args: seq<Expr>)
    | Call(name: string, args: seq<Expr>)
    | MethodCall(base: Expr, callee: string, args: seq<Expr>)
    | Member(base: Expr, member: string)
    | Binary(op: BinaryOp, lhs: Expr, rhs: Expr)
    | Unary(uop: UnaryOp, expr: Expr)
    | Cast(ty: Type, expr: Expr)

  datatype VarDecl = VarDecl(ty: Type, name: string, init: Option<Expr>, semantic: Option<string>)

  datatype Block = Block(stmts: seq<Stmt>)

  datatype Stmt =
    | Return(value: Option<Expr>)
    | Decl(decl: VarDecl)
    | ExprStmt(e: Expr)
    | If(cond: Expr, thenBlock: Block, elseBlock: Option<Block>)
    | For(init: Option<Stmt>, test: Option<Expr>, update: Option<Expr>, body: Block)
    | Nested(block: Block)

  datatype StructMember = StructMember(ty: Type, name: string)

  datatype Param = Param(ty: Type, name: string)

  /** Registered structs: name to members in declaration order. */
  type Structs = map<string, seq<StructMember>>

  predicate IsComparison(op: BinaryOp) {
    op in {Eq, Ne, Lt, Le, Gt, Ge}
  }

  predicate IsCompound(op: BinaryOp) {
    op in {AddAssign, SubAssign, MulAssign, DivAssign}
  }

  /** The arithmetic operator inside a compound assignment. */
  function CoreOp(op: BinaryOp): BinaryOp
    requires IsCompound(op)
  {
    match op
    case AddAssign => Add
    case SubAssign => Sub
    case MulAssign => Mul
    case DivAssign => Div
  }

  /** Index of the first member called `name`. */
  function FindMember(members: seq<StructMember>, name: string): (r: Option<nat>)
    ensures r.Some? ==> r.value < |members| && members[r.value].name == name
    ensures r.Some? ==> forall i :: 0 <= i < r.value ==> members[i].name != name
    ensures r.None? ==> forall i :: 0 <= i < |members| ==> members[i].name != name
  {
    if members == [] then None
    else if members[0].name == name then Some(0)
    else match FindMember(members[1..], name)
      case Some(i) => Some(i + 1)
      case None => None
  }

  /** One letter of `.xyzw` or `.rgba`. */
  function SwizzleIndex(c: char): Option<nat> {
    if c in {'x', 'r'} then Some(0)
    else if c in {'y', 'g'} then Some(1)
    else if c in {'z', 'b'} then Some(2)
    else if c in {'w', 'a'} then Some(3)
    else None
  }

  function SwizzleIndices(s: string): (r: Option<seq<nat>>)
    ensures r.Some? ==> |r.value| == |s|
  {
    if s == "" then Some([])
    else
      var i :- SwizzleIndex(s[0]);
      var rest :- SwizzleIndices(s[1..]);
      Some([i] + rest)
  }

  /** Decode a swizzle of one to four letters. */
  function DecodeSwizzle(s: string): (r: Option<seq<nat>>)
    ensures r.Some? ==> 1 <= |r.value| <= 4
  {
    if s == "" || |s| > 4 then None else SwizzleIndices(s)
  }
}
