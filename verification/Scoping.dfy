/** The names a statement leaves in the emitter's flat table of locals, read off its text. */
module Scoping {
  import opened Wrappers
  import opened Ast
  import opened SpirvMachine
  import opened EmitterSpec
  import opened EmitterFacts

  /** The statement ends the block it stands in: nothing after it is emitted. */
  predicate Ends(s: Stmt)
    decreases s, 1
  {
    match s
    case Return(_) => true
    case For(init, _, _, _) => init.Some? && Ends(init.value)
    case Nested(b) => EndsAll(b.stmts)
    case _ => false
  }

  predicate EndsAll(ss: seq<Stmt>)
    decreases ss, 0
  {
    ss != [] && (Ends(ss[0]) || EndsAll(ss[1..]))
  }

  /** Names of all declarations in a statement, at any depth, that are not behind the end of a block. */
  function DeclaredWithin(s: Stmt): set<string>
    decreases s, 1
  {
    match s
    case Decl(d) => {d.name}
    case If(_, thenBlock, elseBlock) =>
      DeclaredIn(thenBlock.stmts) + (match elseBlock { case Some(b) => DeclaredIn(b.stmts) case None => {} })
    case For(init, _, _, body) => (
      match init
      case Some(i) => DeclaredWithin(i) + (if Ends(i) then {} else DeclaredIn(body.stmts))
      case None => DeclaredIn(body.stmts))
    case Nested(b) => DeclaredIn(b.stmts)
    case _ => {}
  }

  function DeclaredIn(ss: seq<Stmt>): set<string>
    decreases ss, 0
  {
    if ss == [] then {}
    else DeclaredWithin(ss[0]) + (if Ends(ss[0]) then {} else DeclaredIn(ss[1..]))
  }

  function NamesOf(locals: seq<Local>): set<string> {
    set i | 0 <= i < |locals| :: locals[i].name
  }

  /** `locals'` extends `locals` by entries with exactly these names. */
  ghost predicate Adds(locals: seq<Local>, locals': seq<Local>, names: set<string>) {
    locals <= locals' && NamesOf(locals'[|locals|..]) == names
  }

  lemma {:induction false} AddsNothing(locals: seq<Local>)
    ensures Adds(locals, locals, {})
  {
  }

  lemma {:induction false} AddsOne(locals: seq<Local>, l: Local)
    ensures Adds(locals, locals + [l], {l.name})
  {
    var added := (locals + [l])[|locals|..];
    assert added == [l] && added[0].name == l.name;
  }

  lemma {:induction false} AddsBoth(a: seq<Local>, b: seq<Local>, c: seq<Local>, x: set<string>, y: set<string>)
    requires Adds(a, b, x) && Adds(b, c, y)
    ensures Adds(a, c, x + y)
  {
    var p, q, r := b[|a|..], c[|b|..], c[|a|..];
    assert r == p + q;
    forall n ensures n in NamesOf(r) <==> n in x + y {
      if n in x {
        var i :| 0 <= i < |p| && p[i].name == n;
        assert r[i].name == n;
      }
      if n in y {
        var i :| 0 <= i < |q| && q[i].name == n;
        assert r[|p| + i].name == n;
      }
    }
  }

  /** Emission of a statement ends the block exactly when `Ends` says so and adds exactly the names of `DeclaredWithin`. */
  lemma {:induction false} EmitDeclares(g: Globals, st: St, s: Stmt)
    requires Good(st) && st.open.Some? && EmitStmt(g, st, s).Ok?
    ensures var st' := EmitStmt(g, st, s).value;
      (st'.open.None? <==> Ends(s)) && Adds(st.locals, st'.locals, DeclaredWithin(s))
    decreases s, 3
  {
    hide Good, Adds, Extends, EmitExpr, DeclaredIn, EndsAll;
    AddsNothing(st.locals);
    match s
    case Return(None) =>
    case Return(Some(e)) => EmitExprKeeps(g, st, e);
    case Decl(d) =>
      var (st1, ptr) := AllocLocal(g, st, d.ty).value;
      AllocGood(g, st, d.ty);
      EmitInitKeeps(g, st1, ptr, d.init);
      AddsOne(st.locals, Local(d.name, ptr, d.ty));
    case ExprStmt(e) => EmitExprKeeps(g, st, e);
    case If(_, _, _) => EmitIfDeclares(g, st, s);
    case For(_, _, _, _) => EmitForDeclares(g, st, s);
    case Nested(b) => EmitAllDeclares(g, st, b.stmts);
  }

  lemma {:induction false} EmitExprKeeps(g: Globals, st: St, e: Expr)
    requires Good(st) && st.open.Some? && EmitExpr(g, st, e).Ok?
    ensures var st' := EmitExpr(g, st, e).value.0; Good(st') && st'.open.Some? && st'.locals == st.locals
  {
    hide Good, EmitExpr;
    EmitExprGood(g, st, e);
  }

  lemma {:induction false} EmitInitKeeps(g: Globals, st: St, ptr: Id, init: Option<Expr>)
    requires Good(st) && st.open.Some? && EmitInit(g, st, ptr, init).Ok?
    ensures var st' := EmitInit(g, st, ptr, init).value; st'.open.Some? && st'.locals == st.locals
  {
    hide Good, EmitInit;
    EmitInitGood(g, st, ptr, init);
  }

  lemma {:induction false} EmitIfDeclares(g: Globals, st: St, s: Stmt)
    requires s.If? && Good(st) && st.open.Some? && EmitStmt(g, st, s).Ok?
    ensures var st' := EmitStmt(g, st, s).value; st'.open.Some? && Adds(st.locals, st'.locals, DeclaredWithin(s))
    decreases s, 2
  {
    hide Good, Grows, Unused, Adds, EmitIfHead, EmitArm, DeclaredIn;
    var (st1, thenL) := EmitIfHead(g, st, s.cond, s.elseBlock.Some?).value;
    EmitIfHeadGood(g, st, s.cond, s.elseBlock.Some?);
    var st2 := EmitArm(g, st1, thenL, s.thenBlock.stmts, thenL + 1).value;
    EmitArmGood(g, st1, thenL, s.thenBlock.stmts, thenL + 1);
    EmitArmDeclares(g, st1, thenL, s.thenBlock.stmts, thenL + 1);
    if s.elseBlock.Some? {
      var st3 := EmitArm(g, st2, thenL + 2, s.elseBlock.value.stmts, thenL + 1).value;
      UnusedStays(st1, st2, {thenL}, thenL + 2);
      GrowsNextId(st1, st2, {thenL});
      EmitArmDeclares(g, st2, thenL + 2, s.elseBlock.value.stmts, thenL + 1);
      AddsBoth(st1.locals, st2.locals, st3.locals, DeclaredIn(s.thenBlock.stmts), DeclaredIn(s.elseBlock.value.stmts));
    } else {
      assert DeclaredWithin(s) == DeclaredIn(s.thenBlock.stmts);
    }
  }

  lemma {:induction false} EmitForDeclares(g: Globals, st: St, s: Stmt)
    requires s.For? && Good(st) && st.open.Some? && EmitStmt(g, st, s).Ok?
    ensures var st' := EmitStmt(g, st, s).value;
      (st'.open.None? <==> Ends(s)) && Adds(st.locals, st'.locals, DeclaredWithin(s))
    decreases s, 2
  {
    hide Good, Grows, Adds, EmitLoop, DeclaredIn;
    if s.init.Some? {
      var st1 := EmitStmt(g, st, s.init.value).value;
      EmitStmtGood(g, st, s.init.value);
      EmitDeclares(g, st, s.init.value);
      if st1.open.Some? {
        EmitLoopDeclares(g, st1, s);
        AddsBoth(st.locals, st1.locals, EmitLoop(g, st1, s).value.locals,
          DeclaredWithin(s.init.value), DeclaredIn(s.body.stmts));
      } else {
        assert DeclaredWithin(s) == DeclaredWithin(s.init.value);
      }
    } else {
      EmitLoopDeclares(g, st, s);
    }
  }

  lemma {:induction false} EmitLoopDeclares(g: Globals, st: St, s: Stmt)
    requires s.For? && EmitLoop(g, st, s).Ok? && Good(st) && st.open.Some?
    ensures var st' := EmitLoop(g, st, s).value; st'.open.Some? && Adds(st.locals, st'.locals, DeclaredIn(s.body.stmts))
    decreases s, 0
  {
    hide Good, Grows, Unused, Adds, EmitHeader, EmitArm, DeclaredIn;
    var header := st.nextId;
    var st1 := EmitHeader(g, st, s.test).value;
    EmitHeaderGood(g, st, s.test);
    EmitArmDeclares(g, st1, header + 1, s.body.stmts, header + 2);
    var st2 := EmitArm(g, st1, header + 1, s.body.stmts, header + 2).value;
    EmitArmGood(g, st1, header + 1, s.body.stmts, header + 2);
    UnusedStays(st1, st2, {header + 1}, header + 2);
    GrowsNextId(st1, st2, {header + 1});
    BeginGood(st2, header + 2);
    EmitUpdateGood(g, Begin(st2, header + 2).value, s.update);
  }

  lemma {:induction false} EmitArmDeclares(g: Globals, st: St, l: Id, ss: seq<Stmt>, exit: Id)
    requires EmitArm(g, st, l, ss, exit).Ok? && Good(st) && l < st.nextId && Unused(st, l)
    ensures Adds(st.locals, EmitArm(g, st, l, ss, exit).value.locals, DeclaredIn(ss))
    decreases ss, 1
  {
    hide Good, Grows, Unused, Adds, EmitStmts, DeclaredIn;
    BeginGood(st, l);
    EmitAllDeclares(g, Begin(st, l).value, ss);
  }

  lemma {:induction false} EmitAllDeclares(g: Globals, st: St, ss: seq<Stmt>)
    requires Good(st) && st.open.Some? && EmitStmts(g, st, ss).Ok?
    ensures var st' := EmitStmts(g, st, ss).value;
      (st'.open.None? <==> EndsAll(ss)) && Adds(st.locals, st'.locals, DeclaredIn(ss))
    decreases ss, 0
  {
    hide Good, Grows, Adds, EmitStmt, Ends, DeclaredWithin;
    AddsNothing(st.locals);
    if ss != [] {
      var st1 := EmitStmt(g, st, ss[0]).value;
      EmitStmtGood(g, st, ss[0]);
      EmitDeclares(g, st, ss[0]);
      if st1.open.Some? {
        EmitAllDeclares(g, st1, ss[1..]);
        AddsBoth(st.locals, st1.locals, EmitStmts(g, st1, ss[1..]).value.locals, DeclaredWithin(ss[0]), DeclaredIn(ss[1..]));
      } else {
        assert DeclaredIn(ss) == DeclaredWithin(ss[0]);
      }
    }
  }
}
