/** The shape of the emitted control-flow graph. */
module ControlFlow {
  import opened Wrappers
  import opened Ast
  import opened SpirvMachine
  import opened EmitterSpec
  import opened EmitterFacts
  import opened BodyPreservation

  ghost predicate Begun(bs: seq<BasicBlock>, l: Id) {
    exists k :: 0 <= k < |bs| && bs[k].lbl == l
  }

  /** The label is that of a block, or is still to be begun. */
  ghost predicate Known(bs: seq<BasicBlock>, first: Id, pending: set<Id>, l: Id) {
    first < l && (l in pending || Begun(bs, l))
  }

  /** An instruction of a block: it declares no variable and refers to known labels only. */
  ghost predicate InstrClosed(bs: seq<BasicBlock>, first: Id, pending: set<Id>, i: Instr) {
    !i.OpVariable? && forall l :: l in TargetsOf(i) ==> Known(bs, first, pending, l)
  }

  ghost predicate BlockClosed(bs: seq<BasicBlock>, first: Id, pending: set<Id>, b: BasicBlock) {
    forall j :: 0 <= j < |b.instrs| ==> InstrClosed(bs, first, pending, b.instrs[j])
  }

  /** Every label referred to so far is begun or pending; the entry label is never referred to. */
  ghost predicate Closed(st: St, pending: set<Id>) {
    && st.first < st.nextId && |BlocksOf(st)| > 0 && BlocksOf(st)[0].lbl == st.first
    && forall b :: 0 <= b < |BlocksOf(st)| ==> BlockClosed(BlocksOf(st), st.first, pending, BlocksOf(st)[b])
  }

  // --- primitives ---

  /** More labels and more pending labels keep a block closed. */
  lemma {:induction false} BlockClosedMore(
    bs: seq<BasicBlock>, bs': seq<BasicBlock>, first: Id, pending: set<Id>, pending': set<Id>, b: BasicBlock)
    requires BlockClosed(bs, first, pending, b)
    requires forall l :: Known(bs, first, pending, l) ==> Known(bs', first, pending', l)
    ensures BlockClosed(bs', first, pending', b)
  {
    forall j | 0 <= j < |b.instrs| ensures InstrClosed(bs', first, pending', b.instrs[j]) {
      assert InstrClosed(bs, first, pending, b.instrs[j]);
    }
  }

  lemma {:induction false} ClosedMore(st: St, pending: set<Id>, pending': set<Id>)
    requires Closed(st, pending) && pending <= pending'
    ensures Closed(st, pending')
  {
    forall b | 0 <= b < |BlocksOf(st)| ensures BlockClosed(BlocksOf(st), st.first, pending', BlocksOf(st)[b]) {
      BlockClosedMore(BlocksOf(st), BlocksOf(st), st.first, pending, pending', BlocksOf(st)[b]);
    }
  }

  /** Blocks that keep their labels and grow at the end by closed instructions stay closed. */
  lemma {:induction false} ClosedGrown(st: St, st': St, pending: set<Id>, pending': set<Id>)
    requires Closed(st, pending) && pending <= pending' && st'.first == st.first && st'.nextId >= st.nextId
    requires |BlocksOf(st')| == |BlocksOf(st)|
    requires forall b :: 0 <= b < |BlocksOf(st)| ==> GrownBlock(BlocksOf(st)[b], BlocksOf(st')[b], st.first, pending')
    ensures Closed(st', pending')
  {
    var bs, bs' := BlocksOf(st), BlocksOf(st');
    assert GrownBlock(bs[0], bs'[0], st.first, pending');
    forall l | Known(bs, st.first, pending, l) ensures Known(bs', st.first, pending', l) {
      if l !in pending {
        var k :| 0 <= k < |bs| && bs[k].lbl == l;
        assert GrownBlock(bs[k], bs'[k], st.first, pending');
      }
    }
    forall b | 0 <= b < |bs'| ensures BlockClosed(bs', st.first, pending', bs'[b]) {
      assert GrownBlock(bs[b], bs'[b], st.first, pending');
      BlockClosedMore(bs, bs', st.first, pending, pending', bs[b]);
      forall j | 0 <= j < |bs'[b].instrs| ensures InstrClosed(bs', st.first, pending', bs'[b].instrs[j]) {
        if j < |bs[b].instrs| {
          assert InstrClosed(bs', st.first, pending', bs[b].instrs[j]);
        }
      }
    }
  }

  /** What a block gains refers to pending labels only. */
  ghost predicate GrownBlock(b: BasicBlock, b': BasicBlock, first: Id, pending: set<Id>) {
    && b'.lbl == b.lbl && b.instrs <= b'.instrs
    && forall j :: |b.instrs| <= j < |b'.instrs| ==>
         !b'.instrs[j].OpVariable? && forall l :: l in TargetsOf(b'.instrs[j]) ==> first < l && l in pending
  }

  lemma {:induction false} ExtendsClosed(st: St, st': St, pending: set<Id>)
    requires Extends(st, st') && Closed(st, pending)
    ensures Closed(st', pending)
  {
    ClosedGrown(st, st', pending, pending);
  }

  /** Appending an instruction makes its targets pending. */
  lemma {:induction false} AppendClosed(st: St, st': St, i: Instr, pending: set<Id>)
    requires Closed(st, pending) && !i.OpVariable? && (Push(st, i) == Ok(st') || Close(st, i) == Ok(st'))
    requires forall l :: l in TargetsOf(i) ==> st.first < l
    ensures Closed(st', pending + TargetsOf(i))
  {
    ClosedGrown(st, st', pending, pending + TargetsOf(i));
  }

  /** Beginning a block settles its label. */
  lemma {:induction false} BeginClosed(st: St, l: Id, pending: set<Id>)
    requires Closed(st, pending + {l}) && Begin(st, l).Ok?
    ensures Closed(Begin(st, l).value, pending)
  {
    var st' := Begin(st, l).value;
    var bs, bs' := BlocksOf(st), BlocksOf(st');
    assert bs' == bs + [BasicBlock(l, [])];
    assert bs'[|bs|].lbl == l;
    forall x | Known(bs, st.first, pending + {l}, x) ensures Known(bs', st.first, pending, x) {
      if Begun(bs, x) {
        var k :| 0 <= k < |bs| && bs[k].lbl == x;
        assert bs'[k].lbl == x;
      }
    }
    forall b | 0 <= b < |bs'| ensures BlockClosed(bs', st.first, pending, bs'[b]) {
      if b < |bs| {
        BlockClosedMore(bs, bs', st.first, pending + {l}, pending, bs[b]);
      }
    }
  }

  lemma {:induction false} SameBlocksClosed(st: St, st': St, pending: set<Id>)
    requires Closed(st, pending) && BlocksOf(st') == BlocksOf(st) && st'.first == st.first && st'.nextId >= st.nextId
    ensures Closed(st', pending)
  {
  }

  // --- statements ---

  lemma {:induction false} EmitStmtsClosed(g: Globals, st: St, ss: seq<Stmt>, pending: set<Id>)
    requires Good(st) && EmitStmts(g, st, ss).Ok? && Closed(st, pending)
    ensures Closed(EmitStmts(g, st, ss).value, pending)
    decreases ss, 0
  {
    hide Good, Closed;
    if ss != [] {
      var st1 := EmitStmt(g, st, ss[0]).value;
      EmitStmtGood(g, st, ss[0]);
      EmitStmtClosed(g, st, ss[0], pending);
      if st1.open.Some? {
        EmitStmtsClosed(g, st1, ss[1..], pending);
      }
    }
  }

  lemma {:induction false} EmitStmtClosed(g: Globals, st: St, s: Stmt, pending: set<Id>)
    requires Good(st) && EmitStmt(g, st, s).Ok? && Closed(st, pending)
    ensures Closed(EmitStmt(g, st, s).value, pending)
    decreases s, 2
  {
    hide Good, Closed;
    match s
    case Return(value) =>
      var st2 := st;
      if value.Some? {
        var (st1, v) := EmitExpr(g, st, value.value).value;
        EmitExprGood(g, st, value.value);
        ExtendsClosed(st, st1, pending);
        st2 := st1;
        if g.outVar.Some? {
          var store := OpStore(g.outVar.value, v.id);
          PushGood(st1, store);
          st2 := Push(st1, store).value;
          ExtendsClosed(st1, st2, pending);
        }
      }
      AppendClosed(st2, EmitStmt(g, st, s).value, OpReturn, pending);
      assert pending + {} == pending;
    case Decl(d) =>
      var (st1, ptr) := AllocLocal(g, st, d.ty).value;
      AllocGood(g, st, d.ty);
      SameBlocksClosed(st, st1, pending);
      EmitInitGood(g, st1, ptr, d.init);
      ExtendsClosed(st1, EmitInit(g, st1, ptr, d.init).value, pending);
      SameBlocksClosed(EmitInit(g, st1, ptr, d.init).value, EmitStmt(g, st, s).value, pending);
    case ExprStmt(e) =>
      EmitExprGood(g, st, e);
      ExtendsClosed(st, EmitStmt(g, st, s).value, pending);
    case If(_, _, _) => EmitIfClosed(g, st, s, pending);
    case For(init, _, _, _) =>
      var st1 := match init { case Some(i) => EmitStmt(g, st, i).value case None => st };
      if init.Some? {
        EmitStmtGood(g, st, init.value);
        EmitStmtClosed(g, st, init.value, pending);
      }
      if st1.open.Some? {
        EmitLoopClosed(g, st1, s, pending);
      }
    case Nested(b) => EmitStmtsClosed(g, st, b.stmts, pending);
  }

  lemma {:induction false} EmitIfHeadClosed(g: Globals, st: St, cond: Expr, hasElse: bool, pending: set<Id>)
    requires Good(st) && EmitIfHead(g, st, cond, hasElse).Ok? && Closed(st, pending)
    ensures var (st', thenL) := EmitIfHead(g, st, cond, hasElse).value;
      Closed(st', pending + {thenL, thenL + 1} + (if hasElse then {thenL + 2} else {}))
  {
    hide Good, Closed, Grows, PlainFrom, ConstsKept, EmitExpr;
    var (st1, c) := EmitExpr(g, st, cond).value;
    EmitExprGood(g, st, cond);
    ExtendsClosed(st, st1, pending);
    var (st2, cid) := CoerceToBool(st1, c).value;
    CoerceToBoolGood(st1, c);
    ExtendsClosed(st1, st2, pending);
    var thenL := st2.nextId;
    var st3 := st2.(nextId := if hasElse then thenL + 3 else thenL + 2);
    FirstBelow(st2, pending);
    SameBlocksClosed(st2, st3, pending);
    var mark := OpSelectionMerge(thenL + 1);
    var st4 := Push(st3, mark).value;
    AppendClosed(st3, st4, mark, pending);
    var br := OpBranchConditional(cid, thenL, if hasElse then thenL + 2 else thenL + 1);
    var st5 := Close(st4, br).value;
    AppendClosed(st4, st5, br, pending + TargetsOf(mark));
    ClosedMore(st5, pending + TargetsOf(mark) + TargetsOf(br), pending + {thenL, thenL + 1} + (if hasElse then {thenL + 2} else {}));
  }

  lemma {:induction false} EmitArmClosed(g: Globals, st: St, l: Id, ss: seq<Stmt>, exit: Id, pending: set<Id>)
    requires Good(st) && EmitArm(g, st, l, ss, exit).Ok? && l < st.nextId && Unused(st, l) && st.first < exit
    requires Closed(st, pending + {l}) && exit in pending
    ensures Closed(EmitArm(g, st, l, ss, exit).value, pending)
    decreases ss, 1
  {
    hide Good, Closed;
    var st1 := Begin(st, l).value;
    BeginGood(st, l);
    BeginClosed(st, l, pending);
    var st2 := EmitStmts(g, st1, ss).value;
    EmitStmtsGood(g, st1, ss);
    EmitStmtsClosed(g, st1, ss, pending);
    if st2.open.Some? {
      AppendClosed(st2, EmitArm(g, st, l, ss, exit).value, OpBranch(exit), pending);
      assert pending + {exit} == pending;
    }
  }

  lemma {:induction false} EmitIfClosed(g: Globals, st: St, s: Stmt, pending: set<Id>)
    requires s.If? && Good(st) && EmitStmt(g, st, s).Ok? && Closed(st, pending)
    ensures Closed(EmitStmt(g, st, s).value, pending)
    decreases s, 1
  {
    hide Good, Closed, Unused, EmitArm, EmitIfHead;
    var hasElse := s.elseBlock.Some?;
    var (st1, thenL) := EmitIfHead(g, st, s.cond, hasElse).value;
    EmitIfHeadGood(g, st, s.cond, hasElse);
    EmitIfHeadClosed(g, st, s.cond, hasElse, pending);
    FirstBelow(st, pending);
    var elses: set<Id> := if hasElse then {thenL + 2} else {};
    var p2 := pending + {thenL + 1} + elses;
    assert pending + {thenL, thenL + 1} + elses == p2 + {thenL};
    var st2 := EmitArm(g, st1, thenL, s.thenBlock.stmts, thenL + 1).value;
    EmitArmGood(g, st1, thenL, s.thenBlock.stmts, thenL + 1);
    EmitArmClosed(g, st1, thenL, s.thenBlock.stmts, thenL + 1, p2);
    var st3 := st2;
    if hasElse {
      UnusedStays(st1, st2, {thenL}, thenL + 2);
      st3 := EmitArm(g, st2, thenL + 2, s.elseBlock.value.stmts, thenL + 1).value;
      EmitArmClosed(g, st2, thenL + 2, s.elseBlock.value.stmts, thenL + 1, pending + {thenL + 1});
    } else {
      assert p2 == pending + {thenL + 1};
    }
    BeginClosed(st3, thenL + 1, pending);
  }

  lemma {:induction false} FirstBelow(st: St, pending: set<Id>)
    requires Closed(st, pending)
    ensures st.first < st.nextId
  {
  }

  lemma {:induction false} EmitLoopClosed(g: Globals, st: St, s: Stmt, pending: set<Id>)
    requires s.For? && Good(st) && st.open.Some? && EmitLoop(g, st, s).Ok? && Closed(st, pending)
    ensures Closed(EmitLoop(g, st, s).value, pending)
    decreases s, 0
  {
    hide Good, Closed, Unused, EmitArm, EmitHeader, EmitContinue;
    var header := st.nextId;
    var bodyL, cont, merge := header + 1, header + 2, header + 3;
    FirstBelow(st, pending);
    var st1 := EmitHeader(g, st, s.test).value;
    EmitHeaderGood(g, st, s.test);
    EmitHeaderClosed(g, st, s.test, pending);
    var p2 := pending + {cont, merge};
    assert pending + {bodyL, cont, merge} == p2 + {bodyL};
    var st2 := EmitArm(g, st1, bodyL, s.body.stmts, cont).value;
    EmitArmGood(g, st1, bodyL, s.body.stmts, cont);
    EmitArmClosed(g, st1, bodyL, s.body.stmts, cont, p2);
    UnusedStays(st1, st2, {bodyL}, cont);
    EmitHeaderBegun(g, st, s.test);
    BegunStays(st1, st2, {bodyL}, header);
    assert p2 == pending + {merge} + {cont};
    var st3 := EmitContinue(g, st2, s.update, header, cont).value;
    EmitContinueClosed(g, st2, s.update, header, cont, pending + {merge});
    BeginClosed(st3, merge, pending);
  }

  lemma {:induction false} BegunStays(st: St, st': St, drawn: set<Id>, l: Id)
    requires Grows(st, st', drawn) && Begun(BlocksOf(st), l)
    ensures Begun(BlocksOf(st'), l)
  {
    GrowsKeepsLabels(st, st', drawn);
    var k :| 0 <= k < |BlocksOf(st)| && BlocksOf(st)[k].lbl == l;
    assert BlocksOf(st')[k].lbl == l;
  }

  lemma {:induction false} EmitHeaderBegun(g: Globals, st: St, test: Option<Expr>)
    requires Good(st) && st.open.Some? && EmitHeader(g, st, test).Ok?
    ensures Begun(BlocksOf(EmitHeader(g, st, test).value), st.nextId)
  {
    hide Good, Grows, EmitTest, Unused;
    var header := st.nextId;
    var st1 := Close(st.(nextId := header + 4), OpBranch(header)).value;
    var st2 := Begin(st1, header).value;
    var st3 := Push(st2, OpLoopMerge(header + 3, header + 2)).value;
    EnterHeaderGood(st, st1, st2, st3);
    assert BlocksOf(st3)[|st3.done|].lbl == header;
    EmitTestGood(g, st3, test, header + 1, header + 3);
    BegunStays(st3, EmitHeader(g, st, test).value, {}, header);
  }

  lemma {:induction false} EmitHeaderClosed(g: Globals, st: St, test: Option<Expr>, pending: set<Id>)
    requires Good(st) && st.open.Some? && EmitHeader(g, st, test).Ok? && Closed(st, pending)
    ensures Closed(EmitHeader(g, st, test).value, pending + {st.nextId + 1, st.nextId + 2, st.nextId + 3})
  {
    hide Good, Closed, Grows, Unused, EmitTest;
    var header := st.nextId;
    FirstBelow(st, pending);
    var stb := st.(nextId := header + 4);
    SameBlocksClosed(st, stb, pending);
    var st1 := Close(stb, OpBranch(header)).value;
    AppendClosed(stb, st1, OpBranch(header), pending);
    var st2 := Begin(st1, header).value;
    BeginClosed(st1, header, pending);
    var mark := OpLoopMerge(header + 3, header + 2);
    var st3 := Push(st2, mark).value;
    AppendClosed(st2, st3, mark, pending);
    EnterHeaderGood(st, st1, st2, st3);
    EmitTestClosed(g, st3, test, header + 1, header + 3, pending + TargetsOf(mark));
    ClosedMore(EmitHeader(g, st, test).value, pending + TargetsOf(mark) + {header + 1, header + 3},
               pending + {header + 1, header + 2, header + 3});
  }

  lemma {:induction false} EmitTestClosed(g: Globals, st: St, test: Option<Expr>, bodyL: Id, merge: Id, pending: set<Id>)
    requires Good(st) && EmitTest(g, st, test, bodyL, merge).Ok? && Closed(st, pending) && st.first < bodyL && st.first < merge
    ensures Closed(EmitTest(g, st, test, bodyL, merge).value, pending + {bodyL, merge})
  {
    hide Good, Closed;
    var st' := EmitTest(g, st, test, bodyL, merge).value;
    if test.Some? {
      var (st1, c) := EmitExpr(g, st, test.value).value;
      EmitExprGood(g, st, test.value);
      ExtendsClosed(st, st1, pending);
      var (st2, cid) := CoerceToBool(st1, c).value;
      CoerceToBoolGood(st1, c);
      ExtendsClosed(st1, st2, pending);
      AppendClosed(st2, st', OpBranchConditional(cid, bodyL, merge), pending);
    } else {
      AppendClosed(st, st', OpBranch(bodyL), pending);
      ClosedMore(st', pending + {bodyL}, pending + {bodyL, merge});
    }
  }

  lemma {:induction false} EmitContinueClosed(g: Globals, st: St, update: Option<Expr>, header: Id, cont: Id, pending: set<Id>)
    requires Good(st) && EmitContinue(g, st, update, header, cont).Ok? && cont < st.nextId && Unused(st, cont)
    requires Closed(st, pending + {cont}) && st.first < header && Begun(BlocksOf(st), header)
    ensures Closed(EmitContinue(g, st, update, header, cont).value, pending)
  {
    hide Good, Closed;
    var st1 := Begin(st, cont).value;
    BeginGood(st, cont);
    BeginClosed(st, cont, pending);
    var st2 := EmitUpdate(g, st1, update).value;
    EmitUpdateGood(g, st1, update);
    ExtendsClosed(st1, st2, pending);
    var st3 := Close(st2, OpBranch(header)).value;
    AppendClosed(st2, st3, OpBranch(header), pending);
    EmitContinueGood(g, st, update, header, cont);
    BegunStays(st, st3, {cont}, header);
    ClosedSettled(st3, pending, header);
  }

  /** A label already begun need not be pending. */
  lemma {:induction false} ClosedSettled(st: St, pending: set<Id>, l: Id)
    requires Closed(st, pending + {l}) && Begun(BlocksOf(st), l)
    ensures Closed(st, pending)
  {
    forall b | 0 <= b < |BlocksOf(st)| ensures BlockClosed(BlocksOf(st), st.first, pending, BlocksOf(st)[b]) {
      BlockClosedMore(BlocksOf(st), BlocksOf(st), st.first, pending + {l}, pending, BlocksOf(st)[b]);
    }
  }

  // --- whole bodies ---

  lemma {:induction false} EmitParamsClosed(g: Globals, st: St, params: seq<Param>, inputs: seq<Id>, pending: set<Id>)
    requires |params| == |inputs| && Good(st) && st.open.Some? && EmitParams(g, st, params, inputs).Ok? && Closed(st, pending)
    ensures Closed(EmitParams(g, st, params, inputs).value, pending)
    decreases |params|
  {
    hide Good, Closed;
    if params != [] {
      var (st1, ptr) := AllocLocal(g, st, params[0].ty).value;
      AllocGood(g, st, params[0].ty);
      SameBlocksClosed(st, st1, pending);
      var (st2, v) := EmitLoad(g, st1, Val(inputs[0], params[0].ty)).value;
      EmitLoadGood(g, st1, Val(inputs[0], params[0].ty));
      ExtendsClosed(st1, st2, pending);
      var st3 := Push(st2, OpStore(ptr, v.id)).value;
      PushGood(st2, OpStore(ptr, v.id));
      ExtendsClosed(st2, st3, pending);
      var st4 := OneParam(g, st, params, inputs).value;
      SameBlocksClosed(st3, st4, pending);
      OneParamGood(g, st, params, inputs);
      EmitParamsClosed(g, st4, params[1..], inputs[1..], pending);
    }
  }

  /** A block of the program, with its instructions as executed. */
  ghost predicate WellFormedBlock(prog: seq<BasicBlock>, b: nat, variables: nat)
    requires b < |prog|
  {
    && Terminated(prog[b])
    && (forall j :: 0 <= j < |prog[b].instrs| ==> (prog[b].instrs[j].OpVariable? <==> b == 0 && j < variables))
    && (forall j, l :: 0 <= j < |prog[b].instrs| && l in TargetsOf(prog[b].instrs[j]) ==>
          l != prog[0].lbl && Begun(prog, l))
  }

  /** Labels are distinct; every block ends in its only terminator; hoisted variables are exactly the front of the
      first block; every label referred to is that of a block other than the entry; no id is defined twice. */
  ghost predicate WellFormed(prog: seq<BasicBlock>, variables: nat) {
    && |prog| > 0 && LabelsDistinct(prog) && DefinedOnce(prog)
    && forall b: nat :: b < |prog| ==> WellFormedBlock(prog, b, variables)
  }

  lemma {:induction false} BodyClosed(g: Globals, entry: Id, params: seq<Param>, body: Block)
    requires |g.inputs| == |params| && EmitBody(g, entry, params, body).Ok?
    ensures Closed(EmitBody(g, entry, params, body).value, {})
  {
    hide Good, Closed, EmitParams, EmitStmts;
    var st1, st2 := BodyGood(g, entry, params, body);
    EntryGood(entry);
    EntryClosed(entry);
    EmitParamsClosed(g, EntrySt(entry), params, g.inputs, {});
    EmitStmtsClosed(g, st1, body.stmts, {});
    if st2.open.Some? {
      AppendClosed(st2, EmitBody(g, entry, params, body).value, OpReturn, {});
      assert {} + TargetsOf(OpReturn) == {};
    }
  }

  lemma {:induction false} EntryClosed(entry: Id)
    ensures Closed(EntrySt(entry), {})
  {
  }

  /** Where the definitions of the program are: variables first, then the emitted blocks. */
  lemma {:induction false} ProgramDefs(fin: St, b: int, j: int)
    requires fin.open.None? && |fin.done| > 0
    ensures var n := if b == 0 then |fin.vars| else 0;
      DefAt(ProgramOf(fin), b, j) ==
        if b == 0 && 0 <= j < n then Some(fin.vars[j].id) else DefAt(BlocksOf(fin), b, if j < 0 then j else j - n)
  {
    assert BlocksOf(fin) == fin.done;
  }

  lemma {:induction false} ProgramDefinedOnce(fin: St)
    requires Good(fin) && fin.open.None? && |fin.done| > 0
    ensures DefinedOnce(ProgramOf(fin))
  {
    var prog := ProgramOf(fin);
    hide ProgramOf;
    forall b, i, c, j | DefAt(prog, b, i).Some? && DefAt(prog, b, i) == DefAt(prog, c, j) ensures b == c && i == j {
      ProgramDefs(fin, b, i);
      ProgramDefs(fin, c, j);
      var n := |fin.vars|;
      var i' := if b == 0 then i - n else i;
      var j' := if c == 0 then j - n else j;
      assert DefOk(fin, DefAt(BlocksOf(fin), b, i'));
      assert DefOk(fin, DefAt(BlocksOf(fin), c, j'));
    }
  }

  lemma {:induction false} ProgramBlock(fin: St, b: nat)
    requires Good(fin) && fin.open.None? && Closed(fin, {}) && b < |fin.done|
    ensures WellFormedBlock(ProgramOf(fin), b, |fin.vars|)
  {
    var prog := ProgramOf(fin);
    var bs := BlocksOf(fin);
    assert bs == fin.done;
    var n := if b == 0 then |fin.vars| else 0;
    assert BlockClosed(bs, fin.first, {}, bs[b]);
    forall j | 0 <= j < |prog[b].instrs|
      ensures prog[b].instrs[j].OpVariable? <==> b == 0 && j < |fin.vars|
      ensures forall l :: l in TargetsOf(prog[b].instrs[j]) ==> l != prog[0].lbl && Begun(prog, l)
    {
      if j >= n {
        assert prog[b].instrs[j] == bs[b].instrs[j - n];
        assert InstrClosed(bs, fin.first, {}, bs[b].instrs[j - n]);
        forall l | l in TargetsOf(bs[b].instrs[j - n]) ensures l != prog[0].lbl && Begun(prog, l) {
          assert Known(bs, fin.first, {}, l);
          var k :| 0 <= k < |bs| && bs[k].lbl == l;
          assert prog[k].lbl == l;
        }
      }
    }
    assert Terminated(bs[b]);
    var instrs := prog[b].instrs;
    forall j | 0 <= j < |instrs| - 1 ensures !IsTerminator(instrs[j]) {
      if j >= n {
        assert instrs[j] == bs[b].instrs[..|bs[b].instrs| - 1][j - n];
      }
    }
  }

  /** Every compiled body is a well-formed control-flow graph. */
  lemma {:induction false} BodyWellFormed(g: Globals, entry: Id, params: seq<Param>, body: Block)
    requires |g.inputs| == |params| && EmitBody(g, entry, params, body).Ok?
    ensures var fin := EmitBody(g, entry, params, body).value;
      WellFormed(ProgramOf(fin), |fin.vars|) && ProgramOf(fin)[0].lbl == entry
  {
    var fin := EmitBody(g, entry, params, body).value;
    var st1, st2 := BodyGood(g, entry, params, body);
    BodyClosed(g, entry, params, body);
    hide EmitBody;
    ProgramDefinedOnce(fin);
    forall b: nat | b < |fin.done| ensures WellFormedBlock(ProgramOf(fin), b, |fin.vars|) {
      ProgramBlock(fin, b);
    }
    assert BlocksOf(fin) == fin.done;
    assert forall b :: 0 <= b < |fin.done| ==> ProgramOf(fin)[b].lbl == fin.done[b].lbl;
  }
}
