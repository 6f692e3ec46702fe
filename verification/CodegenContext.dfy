/** The code generator as it is written: one mutable context whose methods append to the selected block.
    Each method is proved to compute the function of EmitterSpec with the same name. */
module CodegenContext {
  import opened Wrappers
  import opened Ast
  import opened Values
  import opened SpirvMachine
  import Spec = EmitterSpec
  import opened EmitterSpec

  /** Result and new state of a method against what its specification computes. */
  ghost predicate Same<T>(r: Result<T>, st: St, spec: Result<(St, T)>) {
    match spec
    case Ok((st', v)) => r == Ok(v) && st == st'
    case Err(_) => r.Err?
  }

  ghost predicate Done(r: Result<()>, st: St, spec: Result<St>) {
    match spec
    case Ok(st') => r.Ok? && st == st'
    case Err(_) => r.Err?
  }

  class Ctx {
    const g: Globals
    const first: Id
    /** The module builder: next id, constants, the blocks of the current function, the selected block. */
    var nextId: Id
    var consts: map<Id, Const>
    var blocks: seq<BasicBlock>
    var selected: Option<nat>
    /** Named locals, in order of declaration. */
    var locals: seq<Local>
    /** The variables hoisted to the front of the first block. */
    ghost var vars: seq<Var>

    constructor (g: Globals, first: Id, nextId: Id)
      ensures Valid() && this.g == g && this.first == first
      ensures State() == St(first, nextId, map[], [], [], [], None)
    {
      this.g, this.first, this.nextId := g, first, nextId;
      consts, blocks, selected, locals, vars := map[], [], None, [], [];
    }

    ghost predicate Valid()
      reads this`selected, this`blocks, this`vars
    {
      && (selected.Some? ==> selected.value + 1 == |blocks|)
      && (blocks == [] ==> vars == [])
      && (blocks != [] ==> VariableInstrs(vars) <= blocks[0].instrs)
    }

    /** The blocks without the hoisted variables. */
    ghost function Emitted(): (bs: seq<BasicBlock>)
      reads this`selected, this`blocks, this`vars
      requires Valid()
      ensures |bs| == |blocks|
    {
      if blocks == [] then [] else [blocks[0].(instrs := blocks[0].instrs[|vars|..])] + blocks[1..]
    }

    ghost function State(): St
      reads this
      requires Valid()
    {
      var bs := Emitted();
      if selected.Some? then St(first, nextId, consts, vars, locals, bs[..|bs| - 1], Some(bs[|bs| - 1]))
      else St(first, nextId, consts, vars, locals, bs, None)
    }

    lemma {:induction false} StateFields()
      requires Valid()
      ensures State().locals == locals && State().nextId == nextId && (State().open.Some? <==> selected.Some?)
    {
    }

    /** The blocks as they stand are the program of the abstract state. */
    lemma {:induction false} Program()
      requires Valid()
      ensures ProgramOf(State()) == blocks
    {
      var bs := Emitted();
      assert BlocksOf(State()) == bs;
      if blocks != [] {
        var n := |vars|;
        assert VariableInstrs(vars) == blocks[0].instrs[..n];
        assert blocks[0].instrs == blocks[0].instrs[..n] + blocks[0].instrs[n..];
        assert bs[0].(instrs := VariableInstrs(vars) + bs[0].instrs) == blocks[0];
        assert bs[1..] == blocks[1..];
        assert [blocks[0]] + blocks[1..] == blocks;
      }
    }

    // --- builder primitives ---

    method FreshId() returns (id: Id)
      requires Valid()
      modifies this`nextId
      ensures Valid() && id == old(State()).nextId && State() == old(State()).(nextId := id + 1)
    {
      id := nextId;
      nextId := nextId + 1;
    }

    method AddLocal(l: Local)
      requires Valid()
      modifies this`locals
      ensures Valid() && State() == old(State()).(locals := old(State()).locals + [l])
    {
      locals := locals + [l];
    }

    method Insert(i: Instr) returns (r: Result<()>)
      requires Valid()
      modifies this`blocks
      ensures Valid() && Done(r, State(), Push(old(State()), i))
    {
      if selected.None? {
        return Err("instruction insert failed");
      }
      var k := selected.value;
      ghost var bs := Emitted();
      blocks := blocks[k := blocks[k].(instrs := blocks[k].instrs + [i])];
      assert k > 0 ==> blocks[0] == old(blocks)[0];
      assert k > 0 ==> blocks[1..] == old(blocks)[1..][k - 1 := blocks[k]];
      assert Emitted()[k].instrs == bs[k].instrs + [i];
      assert Emitted()[..k] == bs[..k];
      return Ok(());
    }

    method Terminate(i: Instr) returns (r: Result<()>)
      requires Valid()
      modifies this`blocks, this`selected
      ensures Valid() && Done(r, State(), Close(old(State()), i))
    {
      r := Insert(i);
      if r.Ok? {
        assert Emitted() == Emitted()[..|blocks| - 1] + [Emitted()[|blocks| - 1]];
        selected := None;
      }
    }

    method BeginBlock(l: Id) returns (r: Result<()>)
      requires Valid()
      modifies this`blocks, this`selected
      ensures Valid() && Done(r, State(), Begin(old(State()), l))
    {
      if selected.Some? {
        return Err("nested block");
      }
      ghost var bs := Emitted();
      selected := Some(|blocks|);
      blocks := blocks + [BasicBlock(l, [])];
      assert Emitted() == bs + [BasicBlock(l, [])];
      assert Emitted()[..|bs|] == bs;
      return Ok(());
    }

    method AddConst(c: Const) returns (id: Id)
      requires Valid()
      modifies this`nextId, this`consts
      ensures Valid() && (State(), id) == Spec.AddConst(old(State()), c)
    {
      id := FreshId();
      consts := consts[id := c];
    }

    /** Reserve a variable and insert its declaration at the front of the first block. */
    method AllocLocal(ty: Type) returns (r: Result<Id>)
      requires Valid()
      modifies this`nextId, this`blocks, this`vars
      ensures Valid() && Same(r, State(), Spec.AllocLocal(g, old(State()), ty))
    {
      if !HasTypeId(g, ty) {
        return Err("no value type");
      }
      var id := FreshId();
      if blocks == [] {
        return Err("function has no entry block yet");
      }
      ghost var bs := Emitted();
      blocks := blocks[0 := blocks[0].(instrs := [OpVariable(id, ty)] + blocks[0].instrs)];
      vars := [Var(id, ty)] + vars;
      Hoisted(old(blocks), old(vars), Var(id, ty));
      assert Emitted() == bs;
      return Ok(id);
    }

    /** One more variable in front leaves what follows the variables where it was. */
    static lemma {:induction false} Hoisted(blocks: seq<BasicBlock>, vars: seq<Var>, v: Var)
      requires blocks != [] && VariableInstrs(vars) <= blocks[0].instrs
      ensures var instrs := [OpVariable(v.id, v.ty)] + blocks[0].instrs;
        && VariableInstrs([v] + vars) <= instrs && instrs[|vars| + 1..] == blocks[0].instrs[|vars|..]
    {
      var instrs := [OpVariable(v.id, v.ty)] + blocks[0].instrs;
      assert VariableInstrs([v] + vars) == [OpVariable(v.id, v.ty)] + VariableInstrs(vars);
      assert VariableInstrs(vars) == blocks[0].instrs[..|vars|];
      assert instrs[..|vars| + 1] == [OpVariable(v.id, v.ty)] + blocks[0].instrs[..|vars|];
    }

    // --- expressions ---

    method EmitLoad(p: Val) returns (r: Result<Val>)
      requires Valid()
      modifies this`nextId, this`blocks
      ensures Valid() && Same(r, State(), Spec.EmitLoad(g, old(State()), p))
    {
      hide Valid, State;
      if !HasTypeId(g, p.ty) {
        return Err("no value type");
      }
      var id := FreshId();
      var _ :- Insert(OpLoad(id, p.ty, p.id));
      return Ok(Val(id, p.ty));
    }

    method EmitPlace(e: Expr) returns (r: Result<Val>)
      requires Valid()
      modifies this
      decreases e
      ensures Valid() && Same(r, State(), Spec.EmitPlace(g, old(State()), e))
    {
      hide Valid, State;
      match e
      case Ident(name) =>
        StateFields();
        var i := LookupLocal(locals, name);
        if i.None? {
          return Err("undefined identifier");
        }
        return Ok(Val(locals[i.value].ptr, locals[i.value].ty));
      case Member(base, member) =>
        var b :- EmitPlace(base);
        if !b.ty.Struct? || b.ty.name !in g.structs {
          return Err("cannot take address of member");
        }
        var idx := FindMember(g.structs[b.ty.name], member);
        if idx.None? {
          return Err("no member");
        }
        var ty := g.structs[b.ty.name][idx.value].ty;
        var k := AddConst(CWord(Int, Wrap(idx.value)));
        if !HasTypeId(g, ty) {
          return Err("no value type");
        }
        var id := FreshId();
        var _ :- Insert(OpAccessChain(id, b.id, k));
        return Ok(Val(id, ty));
      case _ => return Err("expression is not assignable");
    }

    method EmitExpr(e: Expr) returns (r: Result<Val>)
      requires Valid()
      modifies this
      decreases e, 2
      ensures Valid() && Same(r, State(), Spec.EmitExpr(g, old(State()), e))
    {
      hide Valid, State;
      match e
      case Lit(lit) =>
        r := EmitLit(lit);
      case Construct(_, _) => r := EmitConstruct(e);
      case Ident(_) =>
        var p :- EmitPlace(e);
        r := EmitLoad(p);
      case Member(_, _) => r := EmitMember(e);
      case Call(_, _) => r := EmitCall(e);
      case MethodCall(_, _, _) => return Err("textures are not modelled");
      case Binary(_, _, _) => r := EmitBinary(e);
      case Unary(op, x) =>
        var v :- EmitExpr(x);
        if !HasTypeId(g, v.ty) || UnaryOpcode(op, v.ty).None? {
          return Err("unsupported unary");
        }
        var id := FreshId();
        var _ :- Insert(OpUn(id, UnaryOpcode(op, v.ty).value, v.ty, v.id));
        return Ok(Val(id, v.ty));
      case Cast(_, _) => r := EmitCast(e);
    }

    method EmitLit(lit: Literal) returns (r: Result<Val>)
      requires Valid()
      modifies this`nextId, this`consts
      ensures Valid() && Same(r, State(), Ok(Spec.EmitLit(old(State()), lit)))
    {
      hide Valid, State;
      match lit
      case IntLit(i) =>
        var id := AddConst(CWord(Int, Wrap(i)));
        return Ok(Val(id, Scalar(Int)));
      case UintLit(u) =>
        var id := AddConst(CWord(Uint, Wrap(u)));
        return Ok(Val(id, Scalar(Uint)));
      case FloatLit(f) =>
        var id := AddConst(CFloat(f));
        return Ok(Val(id, Scalar(Float)));
      case BoolLit(b) =>
        var id := AddConst(CBool(b));
        return Ok(Val(id, Scalar(Bool)));
    }

    method EmitCast(e: Expr) returns (r: Result<Val>)
      requires Valid() && e.Cast?
      modifies this
      decreases e, 1
      ensures Valid() && Same(r, State(), Spec.EmitExpr(g, old(State()), e))
    {
      hide Valid, State;
      var v :- EmitExpr(e.expr);
      if !HasTypeId(g, e.ty) {
        return Err("no value type");
      }
      if v.ty == e.ty {
        return Ok(v);
      }
      if !(v.ty.Scalar? && e.ty.Scalar? && ConvertOpcode(v.ty.kind, e.ty.kind).Some?) {
        return Err("unsupported cast");
      }
      var id := FreshId();
      var _ :- Insert(OpUn(id, ConvertOpcode(v.ty.kind, e.ty.kind).value, e.ty, v.id));
      return Ok(Val(id, e.ty));
    }

    /** Emit each argument in turn. */
    method EmitArgs(args: seq<Expr>) returns (r: Result<seq<Val>>)
      requires Valid()
      modifies this
      decreases args, 0
      ensures Valid() && Same(r, State(), Spec.EmitArgs(g, old(State()), args))
    {
      hide Valid, State;
      var vs: seq<Val> := [];
      var i := 0;
      assert args[0..] == args;
      PrependNothing(Spec.EmitArgs(g, State(), args));
      while i < |args|
        invariant 0 <= i <= |args| && Valid()
        invariant Spec.EmitArgs(g, old(State()), args) == Prepend(vs, Spec.EmitArgs(g, State(), args[i..]))
      {
        ghost var rest := Spec.EmitArgs(g, State(), args[i..]);
        assert args[i..][0] == args[i] && args[i..][1..] == args[i + 1..];
        var v :- EmitExpr(args[i]);
        assert rest == Prepend([v], Spec.EmitArgs(g, State(), args[i + 1..]));
        PrependTwice(vs, [v], Spec.EmitArgs(g, State(), args[i + 1..]));
        vs := vs + [v];
        i := i + 1;
      }
      assert args[|args|..] == [];
      assert vs + [] == vs;
      return Ok(vs);
    }

    method EmitConstruct(e: Expr) returns (r: Result<Val>)
      requires Valid() && e.Construct?
      modifies this
      decreases e, 1
      ensures Valid() && Same(r, State(), Spec.EmitExpr(g, old(State()), e))
    {
      hide Valid, State;
      if e.ty.Scalar? {
        if |e.args| != 1 {
          return Err("one argument expected");
        }
        var v :- EmitExpr(e.args[0]);
        if e.ty.kind == Float {
          return Ok(v);
        }
        r := CoerceScalar(v, e.ty.kind);
      } else if e.ty.Vector? {
        var vs :- EmitArgs(e.args);
        if |vs| == 1 && !vs[0].ty.Scalar? {
          return Err("broadcast needs a scalar argument");
        }
        var parts := if |vs| == 1 then seq(e.ty.n, _ => vs[0].id) else Ids(vs);
        var id := FreshId();
        var _ :- Insert(OpCompositeConstruct(id, e.ty, parts));
        return Ok(Val(id, e.ty));
      } else {
        return Err("constructor not supported");
      }
    }

    method EmitMember(e: Expr) returns (r: Result<Val>)
      requires Valid() && e.Member?
      modifies this
      decreases e, 1
      ensures Valid() && Same(r, State(), Spec.EmitExpr(g, old(State()), e))
    {
      hide Valid, State;
      StateFields();
      var bt :- InferType(g, locals, e.base);
      if bt.Struct? {
        var p :- EmitPlace(e);
        r := EmitLoad(p);
      } else if bt.Vector? {
        var b :- EmitExpr(e.base);
        var idx := DecodeSwizzle(e.member);
        if idx.None? {
          return Err("invalid swizzle");
        }
        var id := FreshId();
        if |idx.value| == 1 {
          var _ :- Insert(OpCompositeExtract(id, Scalar(bt.kind), b.id, idx.value[0]));
          return Ok(Val(id, Scalar(bt.kind)));
        } else {
          var ty := Vector(bt.kind, |idx.value|);
          var _ :- Insert(OpVectorShuffle(id, ty, b.id, b.id, idx.value));
          return Ok(Val(id, ty));
        }
      } else {
        return Err("member access");
      }
    }

    method EmitBinary(e: Expr) returns (r: Result<Val>)
      requires Valid() && e.Binary?
      modifies this
      decreases e, 1
      ensures Valid() && Same(r, State(), Spec.EmitExpr(g, old(State()), e))
    {
      hide Valid, State;
      if e.op == Assign {
        var p :- EmitPlace(e.lhs);
        var v :- EmitExpr(e.rhs);
        var w :- Coerce(v, p.ty);
        var _ :- Insert(OpStore(p.id, w.id));
        return Ok(w);
      } else if IsCompound(e.op) {
        var p :- EmitPlace(e.lhs);
        var cur :- EmitLoad(p);
        var v :- EmitExpr(e.rhs);
        var w :- EmitArith(CoreOp(e.op), cur, v);
        var _ :- Insert(OpStore(p.id, w.id));
        return Ok(w);
      } else {
        var a :- EmitExpr(e.lhs);
        var b :- EmitExpr(e.rhs);
        if IsComparison(e.op) {
          r := EmitComparison(e.op, a, b);
        } else if e.op in {And, Or} {
          var id := FreshId();
          var _ :- Insert(OpBin(id, if e.op == And then LogicalAnd else LogicalOr, Scalar(Bool), a.id, b.id));
          return Ok(Val(id, Scalar(Bool)));
        } else {
          r := EmitArith(e.op, a, b);
        }
      }
    }

    method EmitArith(op: BinaryOp, a: Val, b: Val) returns (r: Result<Val>)
      requires Valid()
      modifies this`nextId, this`blocks
      ensures Valid() && Same(r, State(), Spec.EmitArith(g, old(State()), op, a, b))
    {
      hide Valid, State, ArithOpcode;
      var ty := if a.ty.IsComposite() then a.ty else b.ty;
      if !HasTypeId(g, ty) {
        return Err("no value type");
      }
      var opc := ArithOpcode(op, ty);
      if opc.None? {
        return Err("unsupported arithmetic op");
      }
      var id := FreshId();
      var _ :- Insert(OpBin(id, opc.value, ty, a.id, b.id));
      return Ok(Val(id, ty));
    }

    method EmitComparison(op: BinaryOp, a: Val, b: Val) returns (r: Result<Val>)
      requires Valid()
      modifies this`nextId, this`blocks
      ensures Valid() && Same(r, State(), Spec.EmitComparison(old(State()), op, a, b))
    {
      hide Valid, State, CompareOpcode;
      var isFloat := (a.ty.Scalar? || a.ty.Vector?) && a.ty.kind == Float;
      var ty := if a.ty.Vector? then Vector(Bool, a.ty.n) else Scalar(Bool);
      var opc := CompareOpcode(op, isFloat);
      if opc.None? {
        return Err("unsupported comparison");
      }
      var id := FreshId();
      var _ :- Insert(OpBin(id, opc.value, ty, a.id, b.id));
      return Ok(Val(id, ty));
    }

    method CoerceScalar(v: Val, kind: ScalarKind) returns (r: Result<Val>)
      requires Valid()
      modifies this`nextId, this`blocks
      ensures Valid() && Same(r, State(), Spec.CoerceScalar(old(State()), v, kind))
    {
      hide Valid, State;
      if v.ty == Scalar(kind) || !v.ty.Scalar? || CoerceOpcode(v.ty.kind, kind).None? {
        return Ok(v);
      }
      var id := FreshId();
      var _ :- Insert(OpUn(id, CoerceOpcode(v.ty.kind, kind).value, Scalar(kind), v.id));
      return Ok(Val(id, Scalar(kind)));
    }

    method Coerce(v: Val, ty: Type) returns (r: Result<Val>)
      requires Valid()
      modifies this`nextId, this`blocks
      ensures Valid() && Same(r, State(), Spec.Coerce(old(State()), v, ty))
    {
      if v.ty != ty && v.ty.Scalar? && ty.Scalar? {
        r := CoerceScalar(v, ty.kind);
      } else {
        r := Ok(v);
      }
    }

    method CoerceToBool(v: Val) returns (r: Result<Id>)
      requires Valid()
      modifies this`nextId, this`blocks
      ensures Valid() && Same(r, State(), Spec.CoerceToBool(old(State()), v))
    {
      hide Valid, State;
      if v.ty == Scalar(Bool) {
        return Ok(v.id);
      }
      if !(v.ty.Vector? && v.ty.kind == Bool) {
        return Err("expected bool condition");
      }
      var id := FreshId();
      var _ :- Insert(OpAny(id, v.id));
      return Ok(id);
    }

    method BroadcastConst(c: Id, ty: Type) returns (r: Result<Id>)
      requires Valid()
      modifies this`nextId, this`blocks
      ensures Valid() && Same(r, State(), Spec.BroadcastConst(old(State()), c, ty))
    {
      hide Valid, State;
      match ty
      case Scalar(_) => return Ok(c);
      case Vector(_, n) =>
        var id := FreshId();
        var _ :- Insert(OpCompositeConstruct(id, Vector(Float, n), seq(n, _ => c)));
        return Ok(id);
      case _ => return Err("cannot broadcast");
    }

    method EmitCall(e: Expr) returns (r: Result<Val>)
      requires Valid() && e.Call?
      modifies this
      decreases e, 1
      ensures Valid() && Same(r, State(), Spec.EmitExpr(g, old(State()), e))
    {
      hide Valid, State, Spec.EmitArgs, Spec.EmitArith, Spec.EmitSaturate, ExtInstOf, ArithOpcode;
      var vs :- EmitArgs(e.args);
      if e.name == "saturate" && |vs| == 1 {
        r := EmitSaturate(vs[0]);
      } else if e.name == "dot" && |vs| == 2 {
        var ty := if vs[0].ty.Vector? then Scalar(vs[0].ty.kind) else vs[0].ty;
        if !HasTypeId(g, ty) {
          return Err("no value type");
        }
        var id := FreshId();
        var _ :- Insert(OpDot(id, ty, vs[0].id, vs[1].id));
        return Ok(Val(id, ty));
      } else if e.name == "mul" {
        if |vs| != 2 || vs[0].ty.Matrix? || vs[1].ty.Matrix? {
          return Err("mul");
        }
        r := EmitArith(Mul, vs[0], vs[1]);
      } else {
        var ext := ExtInstOf(e.name);
        if ext.None? || |vs| != ext.value.1 {
          return Err("unknown intrinsic or wrong number of arguments");
        }
        var ty := if e.name == "length" || vs == [] then Scalar(Float) else vs[|vs| - 1].ty;
        if !HasTypeId(g, ty) {
          return Err("no value type");
        }
        var id := FreshId();
        var _ :- Insert(OpExtInst(id, ty, ext.value.0, Ids(vs)));
        return Ok(Val(id, ty));
      }
    }

    method EmitSaturate(x: Val) returns (r: Result<Val>)
      requires Valid()
      modifies this`nextId, this`blocks, this`consts
      ensures Valid() && Same(r, State(), Spec.EmitSaturate(g, old(State()), x))
    {
      hide Valid, State;
      var lo := AddConst(CFloat(F64_ZERO));
      var hi := AddConst(CFloat(F64_ONE));
      if !HasTypeId(g, x.ty) {
        return Err("no value type");
      }
      var lo' :- BroadcastConst(lo, x.ty);
      var hi' :- BroadcastConst(hi, x.ty);
      var id := FreshId();
      var _ :- Insert(OpExtInst(id, x.ty, FCLAMP, [x.id, lo', hi']));
      return Ok(Val(id, x.ty));
    }

    // --- statements ---

    /** Emit statements until one of them ends the block. */
    method EmitBlock(ss: seq<Stmt>) returns (r: Result<()>)
      requires Valid()
      modifies this
      decreases ss, 0
      ensures Valid() && Done(r, State(), EmitStmts(g, old(State()), ss))
    {
      var i := 0;
      while i < |ss|
        invariant 0 <= i <= |ss| && Valid()
        invariant EmitStmts(g, old(State()), ss) == EmitStmts(g, State(), ss[i..])
      {
        assert ss[i..][0] == ss[i] && ss[i..][1..] == ss[i + 1..];
        var _ :- EmitStmt(ss[i]);
        if selected.None? {
          return Ok(());
        }
        i := i + 1;
      }
      return Ok(());
    }

    method EmitStmt(s: Stmt) returns (r: Result<()>)
      requires Valid()
      modifies this
      decreases s, 1
      ensures Valid() && Done(r, State(), Spec.EmitStmt(g, old(State()), s))
    {
      hide Valid, State;
      match s
      case Return(None) => r := Terminate(OpReturn);
      case Return(Some(e)) =>
        var v :- EmitExpr(e);
        if g.outVar.Some? {
          var _ :- Insert(OpStore(g.outVar.value, v.id));
        }
        r := Terminate(OpReturn);
      case Decl(d) =>
        var ptr :- AllocLocal(d.ty);
        if d.init.Some? {
          var v :- EmitExpr(d.init.value);
          var _ :- Insert(OpStore(ptr, v.id));
        }
        AddLocal(Local(d.name, ptr, d.ty));
        return Ok(());
      case ExprStmt(e) =>
        var _ :- EmitExpr(e);
        return Ok(());
      case If(_, _, _) => r := EmitIf(s);
      case For(_, _, _, _) => r := EmitFor(s);
      case Nested(b) => r := EmitBlock(b.stmts);
    }

    /** A labelled block that falls through to `exit` unless it has ended. */
    method EmitArm(l: Id, ss: seq<Stmt>, exit: Id) returns (r: Result<()>)
      requires Valid()
      modifies this
      decreases ss, 1
      ensures Valid() && Done(r, State(), Spec.EmitArm(g, old(State()), l, ss, exit))
    {
      hide Valid, State;
      var _ :- BeginBlock(l);
      var _ :- EmitBlock(ss);
      StateFields();
      if selected.Some? {
        r := Terminate(OpBranch(exit));
      } else {
        r := Ok(());
      }
    }

    method EmitIf(s: Stmt) returns (r: Result<()>)
      requires Valid() && s.If?
      modifies this
      decreases s, 0
      ensures Valid() && Done(r, State(), Spec.EmitStmt(g, old(State()), s))
    {
      hide Valid, State, Spec.EmitExpr, Spec.CoerceToBool, Spec.EmitArm, Spec.EmitStmts;
      var c :- EmitExpr(s.cond);
      var cid :- CoerceToBool(c);
      var thenL := FreshId();
      var mergeL := FreshId();
      var elseL := mergeL;
      if s.elseBlock.Some? {
        elseL := FreshId();
      }
      var _ :- Insert(OpSelectionMerge(mergeL));
      var closed := Terminate(OpBranchConditional(cid, thenL, elseL));
      assert closed.Ok?;
      assert Spec.EmitIfHead(g, old(State()), s.cond, s.elseBlock.Some?) == Ok((State(), thenL));
      var _ :- EmitArm(thenL, s.thenBlock.stmts, mergeL);
      if s.elseBlock.Some? {
        var _ :- EmitArm(elseL, s.elseBlock.value.stmts, mergeL);
      }
      r := BeginBlock(mergeL);
    }

    method EmitFor(s: Stmt) returns (r: Result<()>)
      requires Valid() && s.For?
      modifies this
      decreases s, 0
      ensures Valid() && Done(r, State(), Spec.EmitStmt(g, old(State()), s))
    {
      hide Valid, State;
      if s.init.Some? {
        var _ :- EmitStmt(s.init.value);
      }
      StateFields();
      if selected.None? {
        return Ok(());
      }
      r := EmitLoop(s);
    }

    /** The rest of `emit_for`: header, body, continue and merge blocks. */
    method EmitLoop(s: Stmt) returns (r: Result<()>)
      requires Valid() && s.For?
      modifies this
      decreases s.body.stmts, 2
      ensures Valid() && Done(r, State(), Spec.EmitLoop(g, old(State()), s))
    {
      hide Valid, State, Spec.EmitHeader, Spec.EmitContinue;
      StateFields();
      var header := nextId;
      var _ :- EmitHeader(s.test);
      var _ :- EmitArm(header + 1, s.body.stmts, header + 2);
      var _ :- EmitContinue(s.update, header, header + 2);
      r := BeginBlock(header + 3);
    }

    method EmitHeader(test: Option<Expr>) returns (r: Result<()>)
      requires Valid()
      modifies this
      ensures Valid() && Done(r, State(), Spec.EmitHeader(g, old(State()), test))
    {
      hide Valid, State, Spec.EmitTest;
      var header := FreshId();
      var bodyL := FreshId();
      var cont := FreshId();
      var merge := FreshId();
      var _ :- Terminate(OpBranch(header));
      var begun := BeginBlock(header);
      assert begun.Ok?;
      var marked := Insert(OpLoopMerge(merge, cont));
      assert marked.Ok?;
      r := EmitTest(test, bodyL, merge);
    }

    method EmitTest(test: Option<Expr>, bodyL: Id, merge: Id) returns (r: Result<()>)
      requires Valid()
      modifies this
      ensures Valid() && Done(r, State(), Spec.EmitTest(g, old(State()), test, bodyL, merge))
    {
      hide Valid, State;
      if test.Some? {
        var c :- EmitExpr(test.value);
        var cid :- CoerceToBool(c);
        r := Terminate(OpBranchConditional(cid, bodyL, merge));
      } else {
        r := Terminate(OpBranch(bodyL));
      }
    }

    method EmitContinue(update: Option<Expr>, header: Id, cont: Id) returns (r: Result<()>)
      requires Valid()
      modifies this
      ensures Valid() && Done(r, State(), Spec.EmitContinue(g, old(State()), update, header, cont))
    {
      hide Valid, State;
      var _ :- BeginBlock(cont);
      if update.Some? {
        var _ :- EmitExpr(update.value);
      }
      r := Terminate(OpBranch(header));
    }

    // --- function bodies ---

    /** Compile a function: the entry block, the parameters, the body and a closing return. */
    method EmitFunctionBody(params: seq<Param>, body: Block) returns (r: Result<()>)
      requires Valid() && State() == St(first, first, map[], [], [], [], None)
      requires |params| == |g.inputs|
      modifies this
      ensures Valid() && Done(r, State(), EmitBody(g, first, params, body))
      ensures r.Ok? ==> blocks == ProgramOf(EmitBody(g, first, params, body).value)
    {
      hide Valid, State, EmitStmts;
      var entry := FreshId();
      var begun := BeginBlock(entry);
      assert begun.Ok?;
      assert State() == EntrySt(first);
      var i := 0;
      while i < |params|
        invariant 0 <= i <= |params| && Valid()
        invariant EmitParams(g, EntrySt(first), params, g.inputs) == EmitParams(g, State(), params[i..], g.inputs[i..])
      {
        var p := params[i];
        assert params[i..][1..] == params[i + 1..] && g.inputs[i..][1..] == g.inputs[i + 1..];
        var ptr :- AllocLocal(p.ty);
        var v :- EmitLoad(Val(g.inputs[i], p.ty));
        var _ :- Insert(OpStore(ptr, v.id));
        AddLocal(Local(p.name, ptr, p.ty));
        i := i + 1;
      }
      assert params[|params|..] == [];
      var _ :- EmitBlock(body.stmts);
      StateFields();
      if selected.Some? {
        var closed := Terminate(OpReturn);
        assert closed.Ok?;
      }
      Program();
      return Ok(());
    }
  }

  // --- accumulating arguments ---

  function Prepend(vs: seq<Val>, r: Result<(St, seq<Val>)>): Result<(St, seq<Val>)> {
    match r
    case Ok((st, ws)) => Ok((st, vs + ws))
    case Err(e) => Err(e)
  }

  lemma {:induction false} PrependTwice(a: seq<Val>, b: seq<Val>, r: Result<(St, seq<Val>)>)
    ensures Prepend(a, Prepend(b, r)) == Prepend(a + b, r)
  {
    if r.Ok? {
      assert a + (b + r.value.1) == (a + b) + r.value.1;
    }
  }

  lemma {:induction false} PrependNothing(r: Result<(St, seq<Val>)>)
    ensures Prepend([], r) == r
  {
    if r.Ok? {
      assert [] + r.value.1 == r.value.1;
    }
  }
}
