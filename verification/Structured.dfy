/** Structured control flow: where merge blocks and continue blocks lie, over every compiled body. */
module Structured {
  import opened Wrappers
  import opened Ast
  import opened SpirvMachine
  import opened EmitterSpec
  import opened EmitterFacts
  import opened BodyPreservation

  // --- the control skeleton of a program ---

  predicate IsControl(i: Instr) {
    IsTerminator(i) || i.OpSelectionMerge? || i.OpLoopMerge?
  }

  /** Merge instructions and terminators, in order. */
  function Control(instrs: seq<Instr>): seq<Instr> {
    if instrs == [] then []
    else Control(instrs[..|instrs| - 1]) + (if IsControl(instrs[|instrs| - 1]) then [instrs[|instrs| - 1]] else [])
  }

  datatype Node = Node(lbl: Id, ctl: seq<Instr>)

  function NodeOf(b: BasicBlock): Node { Node(b.lbl, Control(b.instrs)) }

  function Skeleton(bs: seq<BasicBlock>): (sk: seq<Node>)
    ensures |sk| == |bs|
  {
    seq(|bs|, i requires 0 <= i < |bs| => NodeOf(bs[i]))
  }

  function Skel(st: St): seq<Node> { Skeleton(BlocksOf(st)) }

  // --- structure ---

  /** `l` is the label of a block strictly between, or the exit. */
  ghost predicate Within(sk: seq<Node>, lo: nat, hi: nat, l: Id)
    requires hi <= |sk|
  {
    exists y :: lo < y < hi && sk[y].lbl == l
  }

  /** Blocks `lo` to `hi`: they branch among themselves (never to the first) or to `exit`, and the last one branches to
      `exit` unless it returns. */
  ghost predicate Arm(sk: seq<Node>, lo: nat, hi: nat, exit: Id) {
    && lo < hi <= |sk|
    && (forall b, j, l :: lo <= b < hi && 0 <= j < |sk[b].ctl| && l in TargetsOf(sk[b].ctl[j]) ==>
          l == exit || Within(sk, lo, hi, l))
    && sk[hi - 1].ctl != [] && sk[hi - 1].ctl[|sk[hi - 1].ctl| - 1] in {OpBranch(exit), OpReturn}
  }

  /** A selection: the then-arm follows, then the else-arm from `e` on unless `e` is the merge block `k`, which follows
      both. Both arms leave to it, and it is what the merge instruction names. */
  ghost predicate Selection(sk: seq<Node>, b: nat, e: nat, k: nat) {
    && b + 1 < e <= k < |sk| && |sk[b].ctl| == 2 && sk[b].ctl[1].OpBranchConditional?
    && var br := sk[b].ctl[1];
       && sk[b].ctl[0] == OpSelectionMerge(sk[k].lbl)
       && br.onTrue == sk[b + 1].lbl && br.onFalse == sk[e].lbl
       && Arm(sk, b + 1, e, sk[k].lbl) && (e < k ==> Arm(sk, e, k, sk[k].lbl))
  }

  /** A loop header, entered from the block before it: the body follows and leaves to the continue block `q`, which is the
      one that goes back to the header; the test leaves to the merge block behind it. */
  ghost predicate Loop(sk: seq<Node>, b: nat, q: nat) {
    && 0 < b && b + 1 < q && q + 1 < |sk| && |sk[b].ctl| == 2
    && sk[b - 1].ctl == [OpBranch(sk[b].lbl)]
    && sk[b].ctl[0] == OpLoopMerge(sk[q + 1].lbl, sk[q].lbl)
    && (sk[b].ctl[1] == OpBranch(sk[b + 1].lbl)
        || (sk[b].ctl[1].OpBranchConditional? && sk[b].ctl[1].onTrue == sk[b + 1].lbl && sk[b].ctl[1].onFalse == sk[q + 1].lbl))
    && Arm(sk, b + 1, q, sk[q].lbl) && sk[q].ctl == [OpBranch(sk[b].lbl)]
  }

  /** A block branches, returns, or heads a selection or a loop. */
  ghost predicate NodeOk(sk: seq<Node>, b: nat)
    requires b < |sk|
  {
    || (|sk[b].ctl| == 1 && (sk[b].ctl[0].OpBranch? || sk[b].ctl[0].OpReturn?))
    || (exists e, k :: Selection(sk, b, e, k))
    || (exists q :: Loop(sk, b, q))
  }

  // --- skeletons of emission steps ---

  lemma {:induction false} ControlAppend(instrs: seq<Instr>, i: Instr)
    ensures Control(instrs + [i]) == Control(instrs) + (if IsControl(i) then [i] else [])
  {
    assert (instrs + [i])[..|instrs|] == instrs;
  }

  lemma {:induction false} PlainControl(instrs: seq<Instr>, more: seq<Instr>)
    requires instrs <= more && PlainFrom(more, |instrs|)
    ensures Control(more) == Control(instrs)
    decreases |more|
  {
    if |more| > |instrs| {
      PlainControl(instrs, more[..|more| - 1]);
      assert Plain(more[|more| - 1]);
    } else {
      assert more == instrs;
    }
  }

  /** Expressions do not show in the skeleton. */
  lemma {:induction false} ExtendsSkel(st: St, st': St)
    requires Extends(st, st')
    ensures Skel(st') == Skel(st)
  {
    if st.open.Some? {
      PlainControl(st.open.value.instrs, st'.open.value.instrs);
    }
  }

  /** The last node gains an instruction. */
  function Gains(sk: seq<Node>, i: Instr): seq<Node>
    requires sk != []
  {
    sk[|sk| - 1 := sk[|sk| - 1].(ctl := sk[|sk| - 1].ctl + [i])]
  }

  lemma {:induction false} AppendSkel(st: St, st': St, i: Instr)
    requires IsControl(i) && (Push(st, i) == Ok(st') || Close(st, i) == Ok(st'))
    ensures Skel(st) != [] && Skel(st') == Gains(Skel(st), i)
  {
    ControlAppend(st.open.value.instrs, i);
  }

  lemma {:induction false} BeginSkel(st: St, l: Id)
    requires Begin(st, l).Ok?
    ensures Skel(Begin(st, l).value) == Skel(st) + [Node(l, [])]
  {
    assert Control([]) == [];
  }

  lemma {:induction false} SameBlocksSkel(st: St, st': St)
    requires st'.done == st.done && st'.open == st.open
    ensures Skel(st') == Skel(st)
  {
  }

  // --- growth of skeletons ---

  /** `sk'` continues `sk`, whose last block is open, by properly structured blocks; the last block of `sk'` is still open
      or returns. New references are to new blocks only. */
  ghost predicate Built(sk: seq<Node>, sk': seq<Node>, open: bool) {
    && 0 < |sk| <= |sk'| && Kept(sk, sk') && sk[|sk| - 1].ctl == []
    && (forall b :: |sk| - 1 <= b < |sk'| - (if open then 1 else 0) ==> NodeOk(sk', b))
    && (forall b, j, l :: |sk| - 1 <= b < |sk'| && 0 <= j < |sk'[b].ctl| && l in TargetsOf(sk'[b].ctl[j]) ==>
          Within(sk', |sk| - 1, |sk'|, l))
    && sk'[|sk'| - 1].ctl == if open then [] else [OpReturn]
  }

  /** All blocks but the last are unchanged, and the last keeps its label. */
  ghost predicate Kept(sk: seq<Node>, sk': seq<Node>) {
    && 0 < |sk| <= |sk'| && sk'[|sk| - 1].lbl == sk[|sk| - 1].lbl
    && forall b :: 0 <= b < |sk| - 1 ==> sk'[b] == sk[b]
  }

  lemma {:induction false} ArmKept(sk: seq<Node>, sk': seq<Node>, lo: nat, hi: nat, exit: Id)
    requires Kept(sk, sk') && Arm(sk, lo, hi, exit) && hi < |sk|
    ensures Arm(sk', lo, hi, exit)
  {
    forall b, j, l | lo <= b < hi && 0 <= j < |sk'[b].ctl| && l in TargetsOf(sk'[b].ctl[j])
      ensures l == exit || Within(sk', lo, hi, l)
    {
      if l != exit {
        assert sk'[b] == sk[b] && l in TargetsOf(sk[b].ctl[j]);
        assert Within(sk, lo, hi, l);
        var y :| lo < y < hi && sk[y].lbl == l;
        assert sk'[y].lbl == l;
      }
    }
  }

  /** Structure is not disturbed by what comes behind it. */
  lemma {:induction false} NodeKept(sk: seq<Node>, sk': seq<Node>, b: nat)
    requires Kept(sk, sk') && b + 1 < |sk| && NodeOk(sk, b)
    ensures NodeOk(sk', b)
  {
    hide Arm;
    if e: nat, k: nat :| Selection(sk, b, e, k) {
      ArmKept(sk, sk', b + 1, e, sk[k].lbl);
      if e < k {
        ArmKept(sk, sk', e, k, sk[k].lbl);
      }
      assert Selection(sk', b, e, k);
    } else if q: nat :| Loop(sk, b, q) {
      ArmKept(sk, sk', b + 1, q, sk[q].lbl);
      assert Loop(sk', b, q);
    }
  }

  lemma {:induction false} BuiltTrans(a: seq<Node>, b: seq<Node>, c: seq<Node>, open: bool)
    requires Built(a, b, true) && Built(b, c, open)
    ensures Built(a, c, open)
  {
    hide NodeOk;
    forall x | |a| - 1 <= x < |c| - (if open then 1 else 0) ensures NodeOk(c, x) {
      if x < |b| - 1 {
        NodeKept(b, c, x);
      }
    }
    forall x, j, l | |a| - 1 <= x < |c| && 0 <= j < |c[x].ctl| && l in TargetsOf(c[x].ctl[j])
      ensures Within(c, |a| - 1, |c|, l)
    {
      if x < |b| - 1 {
        assert l in TargetsOf(b[x].ctl[j]);
        var y :| |a| - 1 < y < |b| && b[y].lbl == l;
        assert c[y].lbl == l;
      } else {
        var y :| |b| - 1 < y < |c| && c[y].lbl == l;
      }
    }
  }

  lemma {:induction false} BuiltNothing(sk: seq<Node>)
    requires sk != [] && sk[|sk| - 1].ctl == []
    ensures Built(sk, sk, true)
  {
  }

  // --- statements ---

  /** The open block has no control instruction yet. */
  ghost predicate Straight(st: St) {
    st.open.Some? && Control(st.open.value.instrs) == []
  }

  lemma {:induction false} StraightSkel(st: St)
    requires Straight(st)
    ensures Skel(st) != [] && Skel(st)[|Skel(st)| - 1].ctl == []
  {
  }

  /** What a statement adds is structured. */
  ghost predicate BuildsOn(st: St, st': St) {
    Built(Skel(st), Skel(st'), st'.open.Some?) && (st'.open.Some? ==> Straight(st'))
  }

  lemma {:induction false} ExprBuilds(g: Globals, st: St, e: Expr)
    requires Good(st) && Straight(st) && EmitExpr(g, st, e).Ok?
    ensures var st' := EmitExpr(g, st, e).value.0; Good(st') && Skel(st') == Skel(st) && Straight(st')
  {
    hide Good, EmitExpr, Skel;
    var st' := EmitExpr(g, st, e).value.0;
    EmitExprGood(g, st, e);
    ExtendsSkel(st, st');
    PlainControl(st.open.value.instrs, st'.open.value.instrs);
  }

  /** Leaving the open block with a return. */
  lemma {:induction false} ReturnBuilds(st: St)
    requires Straight(st)
    ensures Close(st, OpReturn).Ok? && BuildsOn(st, Close(st, OpReturn).value)
  {
    hide Skel;
    var st' := Close(st, OpReturn).value;
    StraightSkel(st);
    AppendSkel(st, st', OpReturn);
    var sk, sk' := Skel(st), Skel(st');
    assert sk'[|sk| - 1].ctl == [OpReturn];
  }

  lemma {:induction false} NothingBuilds(st: St, st': St)
    requires Straight(st) && Straight(st') && Skel(st') == Skel(st)
    ensures BuildsOn(st, st')
  {
    hide Skel;
    StraightSkel(st);
    BuiltNothing(Skel(st));
  }

  lemma {:induction false} StmtBuilds(g: Globals, st: St, s: Stmt)
    requires Good(st) && Straight(st) && EmitStmt(g, st, s).Ok?
    ensures BuildsOn(st, EmitStmt(g, st, s).value)
    decreases s, 3
  {
    hide Good, Skel, BuildsOn, EmitExpr, EmitStmts, Straight;
    var st' := EmitStmt(g, st, s).value;
    match s
    case Return(None) => ReturnBuilds(st);
    case Return(Some(e)) => ValueBuilds(g, st, e);
    case Decl(d) => DeclBuilds(g, st, d);
    case ExprStmt(e) =>
      ExprBuilds(g, st, e);
      NothingBuilds(st, st');
    case If(_, _, _) => IfBuilds(g, st, s);
    case For(_, _, _, _) => ForBuilds(g, st, s);
    case Nested(b) => StmtsBuild(g, st, b.stmts);
  }

  lemma {:induction false} StorePlain(st: St, i: Instr)
    requires Good(st) && Straight(st) && i.OpStore? && Push(st, i).Ok?
    ensures var st' := Push(st, i).value; Good(st') && Skel(st') == Skel(st) && Straight(st')
  {
    hide Good, Skel;
    var st' := Push(st, i).value;
    PushGood(st, i);
    ExtendsSkel(st, st');
    PlainControl(st.open.value.instrs, st'.open.value.instrs);
  }

  lemma {:induction false} ValueBuilds(g: Globals, st: St, e: Expr)
    requires Good(st) && Straight(st) && EmitStmt(g, st, Return(Some(e))).Ok?
    ensures BuildsOn(st, EmitStmt(g, st, Return(Some(e))).value)
  {
    hide Good, Skel, EmitExpr, Straight, Close, Push;
    var (st1, v) := EmitExpr(g, st, e).value;
    ExprBuilds(g, st, e);
    var st2 := if g.outVar.Some? then Push(st1, OpStore(g.outVar.value, v.id)).value else st1;
    if g.outVar.Some? {
      StorePlain(st1, OpStore(g.outVar.value, v.id));
    }
    ReturnBuilds(st2);
  }

  lemma {:induction false} DeclBuilds(g: Globals, st: St, d: VarDecl)
    requires Good(st) && Straight(st) && EmitStmt(g, st, Decl(d)).Ok?
    ensures BuildsOn(st, EmitStmt(g, st, Decl(d)).value)
  {
    hide Good, Skel, EmitExpr, BuildsOn;
    var (st1, ptr) := AllocLocal(g, st, d.ty).value;
    AllocGood(g, st, d.ty);
    SameBlocksSkel(st, st1);
    var st2 := EmitInit(g, st1, ptr, d.init).value;
    if d.init.Some? {
      var (st', v) := EmitExpr(g, st1, d.init.value).value;
      ExprBuilds(g, st1, d.init.value);
      StorePlain(st', OpStore(ptr, v.id));
    }
    var st3 := EmitStmt(g, st, Decl(d)).value;
    SameBlocksSkel(st2, st3);
    NothingBuilds(st, st3);
  }

  lemma {:induction false} StmtsBuild(g: Globals, st: St, ss: seq<Stmt>)
    requires Good(st) && Straight(st) && EmitStmts(g, st, ss).Ok?
    ensures BuildsOn(st, EmitStmts(g, st, ss).value)
    decreases ss, 0
  {
    hide Good, Skel, Straight, Built, EmitStmt, Grows;
    if ss == [] {
      NothingBuilds(st, st);
    } else {
      var st1 := EmitStmt(g, st, ss[0]).value;
      EmitStmtGood(g, st, ss[0]);
      StmtBuilds(g, st, ss[0]);
      if st1.open.Some? {
        StmtsBuild(g, st1, ss[1..]);
        BuiltTrans(Skel(st), Skel(st1), Skel(EmitStmts(g, st, ss).value), EmitStmts(g, st, ss).value.open.Some?);
      }
    }
  }

  /** A block of its own, with its exit. */
  lemma {:induction false} ArmBuilds(g: Globals, st: St, l: Id, ss: seq<Stmt>, exit: Id)
    requires Good(st) && EmitArm(g, st, l, ss, exit).Ok? && l < st.nextId && Unused(st, l)
    ensures var st' := EmitArm(g, st, l, ss, exit).value; var n, sk := |Skel(st)|, Skel(st');
      && st.open.None? && st'.open.None? && n < |sk| && sk[..n] == Skel(st) && sk[n].lbl == l && Arm(sk, n, |sk|, exit)
      && (forall b :: n <= b < |sk| ==> NodeOk(sk, b))
    decreases ss, 1
  {
    hide Good, Skel, NodeOk, EmitStmts, Grows, Within, Unused;
    var st0 := Begin(st, l).value;
    BeginGood(st, l);
    BeginSkel(st, l);
    assert Straight(st0) by { assert Control([]) == []; }
    StmtsBuild(g, st0, ss);
    var st1 := EmitStmts(g, st0, ss).value;
    EmitStmtsGood(g, st0, ss);
    var n, sk0, sk1 := |Skel(st)|, Skel(st0), Skel(st1);
    if st1.open.Some? {
      var st' := Close(st1, OpBranch(exit)).value;
      AppendSkel(st1, st', OpBranch(exit));
      ClosedArm(sk0, sk1, exit);
    } else {
      ReturnedArm(sk0, sk1, exit);
    }
  }

  /** From an open block to an arm: append the branch. */
  lemma {:induction false} ClosedArm(sk: seq<Node>, sk1: seq<Node>, exit: Id)
    requires Built(sk, sk1, true)
    ensures var n, sk' := |sk| - 1, Gains(sk1, OpBranch(exit));
      && n < |sk'| && sk'[..n] == sk[..n] && sk'[n].lbl == sk[n].lbl && Arm(sk', n, |sk'|, exit)
      && forall b :: n <= b < |sk'| ==> NodeOk(sk', b)
  {
    hide NodeOk;
    var n, sk' := |sk| - 1, Gains(sk1, OpBranch(exit));
    forall b | n <= b < |sk'| ensures NodeOk(sk', b) {
      if b + 1 < |sk1| {
        NodeKept(sk1, sk', b);
      } else {
        LastOk(sk', b);
      }
    }
    forall b, j, l | n <= b < |sk'| && 0 <= j < |sk'[b].ctl| && l in TargetsOf(sk'[b].ctl[j])
      ensures l == exit || Within(sk', n, |sk'|, l)
    {
      if b + 1 < |sk1| {
        assert l in TargetsOf(sk1[b].ctl[j]);
        var y :| n < y < |sk1| && sk1[y].lbl == l;
        assert sk'[y].lbl == l;
      }
    }
  }

  lemma {:induction false} LastOk(sk: seq<Node>, b: nat)
    requires b < |sk| && |sk[b].ctl| == 1 && (sk[b].ctl[0].OpBranch? || sk[b].ctl[0].OpReturn?)
    ensures NodeOk(sk, b)
  {
  }

  lemma {:induction false} ReturnedArm(sk: seq<Node>, sk1: seq<Node>, exit: Id)
    requires Built(sk, sk1, false)
    ensures var n := |sk| - 1; sk1[..n] == sk[..n] && sk1[n].lbl == sk[n].lbl && Arm(sk1, n, |sk1|, exit)
  {
    hide NodeOk;
  }

  /** The head of an `if` ends its block with the merge instruction and the branch. */
  lemma {:induction false} IfHeadSkel(g: Globals, st: St, cond: Expr, hasElse: bool) returns (cid: Id)
    requires Good(st) && Straight(st) && EmitIfHead(g, st, cond, hasElse).Ok?
    ensures var (st', thenL) := EmitIfHead(g, st, cond, hasElse).value; var n := |Skel(st)| - 1;
      && 0 <= n && |Skel(st')| == n + 1 && Kept(Skel(st), Skel(st'))
      && Skel(st')[n].ctl ==
           [OpSelectionMerge(thenL + 1), OpBranchConditional(cid, thenL, if hasElse then thenL + 2 else thenL + 1)]
  {
    hide Good, Skel, EmitExpr, CoerceToBool;
    StraightSkel(st);
    var (st1, c) := EmitExpr(g, st, cond).value;
    ExprBuilds(g, st, cond);
    var (st2, id) := CoerceToBool(st1, c).value;
    CoerceToBoolGood(st1, c);
    ExtendsSkel(st1, st2);
    cid := id;
    var thenL := st2.nextId;
    var st3 := st2.(nextId := if hasElse then thenL + 3 else thenL + 2);
    SameBlocksSkel(st2, st3);
    var st4 := Push(st3, OpSelectionMerge(thenL + 1)).value;
    AppendSkel(st3, st4, OpSelectionMerge(thenL + 1));
    var br := OpBranchConditional(cid, thenL, if hasElse then thenL + 2 else thenL + 1);
    AppendSkel(st4, Close(st4, br).value, br);
  }

  lemma {:induction false} IfBuilds(g: Globals, st: St, s: Stmt)
    requires s.If? && Good(st) && Straight(st) && EmitStmt(g, st, s).Ok?
    ensures BuildsOn(st, EmitStmt(g, st, s).value)
    decreases s, 2
  {
    hide Good, Grows, Unused, Skel, EmitIfHead, EmitArm, NodeOk, Arm, Within;
    var hasElse := s.elseBlock.Some?;
    var (st1, thenL) := EmitIfHead(g, st, s.cond, hasElse).value;
    EmitIfHeadGood(g, st, s.cond, hasElse);
    var cid := IfHeadSkel(g, st, s.cond, hasElse);
    var st2 := EmitArm(g, st1, thenL, s.thenBlock.stmts, thenL + 1).value;
    EmitArmGood(g, st1, thenL, s.thenBlock.stmts, thenL + 1);
    ArmBuilds(g, st1, thenL, s.thenBlock.stmts, thenL + 1);
    var st3 := st2;
    if hasElse {
      UnusedStays(st1, st2, {thenL}, thenL + 2);
      GrowsNextId(st1, st2, {thenL});
      st3 := EmitArm(g, st2, thenL + 2, s.elseBlock.value.stmts, thenL + 1).value;
      ArmBuilds(g, st2, thenL + 2, s.elseBlock.value.stmts, thenL + 1);
    }
    var st4 := Begin(st3, thenL + 1).value;
    BeginSkel(st3, thenL + 1);
    StraightSkel(st);
    IfShape(Skel(st), Skel(st1), Skel(st2), Skel(st3), cid, thenL, thenL + 1, if hasElse then thenL + 2 else thenL + 1);
    assert Straight(st4) by { assert Control([]) == []; }
  }

  /** Head, then-arm, else-arm if there is one, merge block. */
  lemma {:induction false} IfShape(
    sk: seq<Node>, sk1: seq<Node>, sk2: seq<Node>, sk3: seq<Node>, cid: Id, t: Id, m: Id, f: Id)
    requires 0 < |sk| == |sk1| < |sk2| <= |sk3| && Kept(sk, sk1) && sk[|sk| - 1].ctl == []
    requires sk1[|sk| - 1].ctl == [OpSelectionMerge(m), OpBranchConditional(cid, t, f)]
    requires sk2[..|sk1|] == sk1 && sk2[|sk1|].lbl == t && Arm(sk2, |sk1|, |sk2|, m)
    requires sk3[..|sk2|] == sk2
    requires if |sk3| == |sk2| then f == m else sk3[|sk2|].lbl == f && Arm(sk3, |sk2|, |sk3|, m)
    requires forall b :: |sk1| <= b < |sk2| ==> NodeOk(sk2, b)
    requires forall b :: |sk2| <= b < |sk3| ==> NodeOk(sk3, b)
    ensures Built(sk, sk3 + [Node(m, [])], true)
  {
    hide NodeOk, Arm, Within;
    var n, sk4 := |sk| - 1, sk3 + [Node(m, [])];
    ArmPrefix(sk2, sk4, n + 1, |sk2|, m);
    if |sk3| > |sk2| {
      ArmPrefix(sk3, sk4, |sk2|, |sk3|, m);
    }
    assert sk4[n] == sk3[n] == sk2[n] == sk1[n];
    assert Selection(sk4, n, |sk2|, |sk3|);
    SelectionOk(sk4, n, |sk2|, |sk3|);
    forall b | n <= b < |sk4| - 1 ensures NodeOk(sk4, b) {
      if n < b < |sk2| {
        NodePrefix(sk2, sk4, b);
      } else if b > n {
        NodePrefix(sk3, sk4, b);
      }
    }
    forall b, j, l | n <= b < |sk4| && 0 <= j < |sk4[b].ctl| && l in TargetsOf(sk4[b].ctl[j]) ensures Within(sk4, n, |sk4|, l) {
      if b == n {
        HeadWithin(sk4, n, |sk2|, |sk3|, l);
      } else if b < |sk2| {
        ArmWithin(sk4, n, n + 1, |sk2|, |sk3|, b, j, l);
      } else {
        ArmWithin(sk4, n, |sk2|, |sk3|, |sk3|, b, j, l);
      }
    }
  }

  lemma {:induction false} SelectionOk(sk: seq<Node>, b: nat, e: nat, k: nat)
    requires Selection(sk, b, e, k)
    ensures NodeOk(sk, b)
  {
  }

  lemma {:induction false} HeadWithin(sk: seq<Node>, b: nat, e: nat, k: nat, l: Id)
    requires Selection(sk, b, e, k) && (l in TargetsOf(sk[b].ctl[0]) || l in TargetsOf(sk[b].ctl[1]))
    ensures Within(sk, b, |sk|, l)
  {
    assert sk[b + 1].lbl == l || sk[e].lbl == l || sk[k].lbl == l;
  }

  /** A reference from an arm stays behind `n`, if the exit is that of block `k`. */
  lemma {:induction false} ArmWithin(sk: seq<Node>, n: nat, lo: nat, hi: nat, k: nat, b: nat, j: nat, l: Id)
    requires n < lo && hi <= k < |sk| && Arm(sk, lo, hi, sk[k].lbl)
    requires lo <= b < hi && j < |sk[b].ctl| && l in TargetsOf(sk[b].ctl[j])
    ensures Within(sk, n, |sk|, l)
  {
    if l == sk[k].lbl {
      assert n < k;
    } else {
      assert Within(sk, lo, hi, l);
      var y :| lo < y < hi && sk[y].lbl == l;
    }
  }

  lemma {:induction false} ArmPrefix(sk: seq<Node>, sk': seq<Node>, lo: nat, hi: nat, exit: Id)
    requires |sk| <= |sk'| && sk'[..|sk|] == sk && Arm(sk, lo, hi, exit)
    ensures Arm(sk', lo, hi, exit)
  {
    forall b | 0 <= b < |sk| ensures sk'[b] == sk[b] {
      assert sk'[..|sk|][b] == sk'[b];
    }
    forall b, j, l | lo <= b < hi && 0 <= j < |sk'[b].ctl| && l in TargetsOf(sk'[b].ctl[j])
      ensures l == exit || Within(sk', lo, hi, l)
    {
      if l != exit {
        assert l in TargetsOf(sk[b].ctl[j]);
        assert Within(sk, lo, hi, l);
        var y :| lo < y < hi && sk[y].lbl == l;
        assert sk'[y].lbl == l;
      }
    }
  }

  lemma {:induction false} NodePrefix(sk: seq<Node>, sk': seq<Node>, b: nat)
    requires |sk| <= |sk'| && sk'[..|sk|] == sk && b < |sk| && NodeOk(sk, b)
    ensures NodeOk(sk', b)
  {
    hide Arm;
    forall x | 0 <= x < |sk| ensures sk'[x] == sk[x] {
      assert sk'[..|sk|][x] == sk'[x];
    }
    if e: nat, k: nat :| Selection(sk, b, e, k) {
      ArmPrefix(sk, sk', b + 1, e, sk[k].lbl);
      if e < k {
        ArmPrefix(sk, sk', e, k, sk[k].lbl);
      }
      assert Selection(sk', b, e, k);
    } else if q: nat :| Loop(sk, b, q) {
      ArmPrefix(sk, sk', b + 1, q, sk[q].lbl);
      assert Loop(sk', b, q);
    }
  }

  lemma {:induction false} ForBuilds(g: Globals, st: St, s: Stmt)
    requires s.For? && Good(st) && Straight(st) && EmitStmt(g, st, s).Ok?
    ensures BuildsOn(st, EmitStmt(g, st, s).value)
    decreases s, 2
  {
    hide Good, Grows, Skel, Built, EmitLoop, Straight;
    if s.init.Some? {
      var st1 := EmitStmt(g, st, s.init.value).value;
      EmitStmtGood(g, st, s.init.value);
      StmtBuilds(g, st, s.init.value);
      if st1.open.Some? {
        LoopBuilds(g, st1, s);
        var st' := EmitLoop(g, st1, s).value;
        BuiltTrans(Skel(st), Skel(st1), Skel(st'), st'.open.Some?);
      }
    } else {
      assert st.open.Some? by { IsOpen(st); }
      LoopBuilds(g, st, s);
    }
  }

  lemma {:induction false} IsOpen(st: St)
    requires Straight(st)
    ensures st.open.Some?
  {
  }

  /** Entering the header ends the open block with a branch to it; the header starts with the merge instruction and ends
      with the test. */
  lemma {:induction false} HeaderSkel(g: Globals, st: St, test: Option<Expr>) returns (br: Instr)
    requires Good(st) && Straight(st) && EmitHeader(g, st, test).Ok?
    ensures var st' := EmitHeader(g, st, test).value; var n, header := |Skel(st)| - 1, st.nextId;
      && 0 <= n && |Skel(st')| == n + 2 && Kept(Skel(st), Skel(st')) && Skel(st')[n].ctl == [OpBranch(header)]
      && Skel(st')[n + 1] == Node(header, [OpLoopMerge(header + 3, header + 2), br])
      && (br == OpBranch(header + 1)
          || (br.OpBranchConditional? && br.onTrue == header + 1 && br.onFalse == header + 3))
  {
    hide Good, Skel, EmitTest, Grows, Unused;
    StraightSkel(st);
    var header := st.nextId;
    var st0 := st.(nextId := header + 4);
    SameBlocksSkel(st, st0);
    var st1 := Close(st0, OpBranch(header)).value;
    AppendSkel(st0, st1, OpBranch(header));
    var st2 := Begin(st1, header).value;
    BeginSkel(st1, header);
    var st3 := Push(st2, OpLoopMerge(header + 3, header + 2)).value;
    AppendSkel(st2, st3, OpLoopMerge(header + 3, header + 2));
    EnterHeaderGood(st, st1, st2, st3);
    br := TestSkel(g, st3, test, header + 1, header + 3);
  }

  lemma {:induction false} TestSkel(g: Globals, st: St, test: Option<Expr>, bodyL: Id, merge: Id) returns (br: Instr)
    requires Good(st) && st.open.Some? && EmitTest(g, st, test, bodyL, merge).Ok?
    ensures Skel(st) != [] && Skel(EmitTest(g, st, test, bodyL, merge).value) == Gains(Skel(st), br)
    ensures br == OpBranch(bodyL) || (br.OpBranchConditional? && br.onTrue == bodyL && br.onFalse == merge)
  {
    hide Good, Skel, EmitExpr, CoerceToBool;
    br := OpBranch(bodyL);
    if test.Some? {
      var (st1, c) := EmitExpr(g, st, test.value).value;
      EmitExprGood(g, st, test.value);
      ExtendsSkel(st, st1);
      var (st2, cid) := CoerceToBool(st1, c).value;
      CoerceToBoolGood(st1, c);
      ExtendsSkel(st1, st2);
      br := OpBranchConditional(cid, bodyL, merge);
      AppendSkel(st2, EmitTest(g, st, test, bodyL, merge).value, br);
    } else {
      AppendSkel(st, EmitTest(g, st, test, bodyL, merge).value, br);
    }
  }

  lemma {:induction false} ContinueSkel(g: Globals, st: St, update: Option<Expr>, header: Id, cont: Id)
    requires Good(st) && EmitContinue(g, st, update, header, cont).Ok? && cont < st.nextId && Unused(st, cont)
    ensures var st' := EmitContinue(g, st, update, header, cont).value;
      st'.open.None? && Skel(st') == Skel(st) + [Node(cont, [OpBranch(header)])]
  {
    hide Good, Skel, EmitExpr, Grows, Unused;
    var st1 := Begin(st, cont).value;
    BeginGood(st, cont);
    BeginSkel(st, cont);
    var st2 := EmitUpdate(g, st1, update).value;
    EmitUpdateGood(g, st1, update);
    ExtendsSkel(st1, st2);
    AppendSkel(st2, EmitContinue(g, st, update, header, cont).value, OpBranch(header));
    assert [] + [OpBranch(header)] == [OpBranch(header)];
  }

  lemma {:induction false} LoopBuilds(g: Globals, st: St, s: Stmt)
    requires s.For? && Good(st) && Straight(st) && EmitLoop(g, st, s).Ok?
    ensures BuildsOn(st, EmitLoop(g, st, s).value)
    decreases s, 0
  {
    hide Good, Grows, Unused, Skel, EmitHeader, EmitArm, EmitContinue, NodeOk, Arm, Within;
    var header := st.nextId;
    var st1 := EmitHeader(g, st, s.test).value;
    EmitHeaderGood(g, st, s.test);
    var br := HeaderSkel(g, st, s.test);
    ArmBuilds(g, st1, header + 1, s.body.stmts, header + 2);
    var st2 := EmitArm(g, st1, header + 1, s.body.stmts, header + 2).value;
    EmitArmGood(g, st1, header + 1, s.body.stmts, header + 2);
    UnusedStays(st1, st2, {header + 1}, header + 2);
    GrowsNextId(st1, st2, {header + 1});
    ContinueSkel(g, st2, s.update, header, header + 2);
    var st3 := EmitContinue(g, st2, s.update, header, header + 2).value;
    BeginSkel(st3, header + 3);
    StraightSkel(st);
    LoopShape(Skel(st), Skel(st1), Skel(st2), br, header, header + 1, header + 2, header + 3);
    assert Straight(EmitLoop(g, st, s).value) by { assert Control([]) == []; }
  }

  /** The block before, the header, the body, the continue block, the merge block. */
  lemma {:induction false} LoopShape(
    sk: seq<Node>, sk1: seq<Node>, sk2: seq<Node>, br: Instr, header: Id, body: Id, cont: Id, merge: Id)
    requires 0 < |sk| && |sk1| == |sk| + 1 && |sk1| < |sk2| && Kept(sk, sk1) && sk[|sk| - 1].ctl == []
    requires sk1[|sk| - 1].ctl == [OpBranch(header)] && sk1[|sk|] == Node(header, [OpLoopMerge(merge, cont), br])
    requires br == OpBranch(body) || (br.OpBranchConditional? && br.onTrue == body && br.onFalse == merge)
    requires sk2[..|sk1|] == sk1 && sk2[|sk1|].lbl == body && Arm(sk2, |sk1|, |sk2|, cont)
    requires forall b :: |sk1| <= b < |sk2| ==> NodeOk(sk2, b)
    ensures Built(sk, sk2 + [Node(cont, [OpBranch(header)])] + [Node(merge, [])], true)
  {
    hide NodeOk, Arm, Within;
    var n, q := |sk| - 1, |sk2|;
    var sk4 := sk2 + [Node(cont, [OpBranch(header)])] + [Node(merge, [])];
    assert sk4[..|sk2|] == sk2;
    ArmPrefix(sk2, sk4, n + 2, q, cont);
    assert sk4[n] == sk2[n] == sk1[n] && sk4[n + 1] == sk2[n + 1] == sk1[n + 1];
    assert Loop(sk4, n + 1, q);
    LoopOk(sk4, n + 1, q);
    forall b | n <= b < |sk4| - 1 ensures NodeOk(sk4, b) {
      if b == n || b == q {
        LastOk(sk4, b);
      } else if b > n + 1 {
        NodePrefix(sk2, sk4, b);
      }
    }
    forall b, j, l | n <= b < |sk4| && 0 <= j < |sk4[b].ctl| && l in TargetsOf(sk4[b].ctl[j]) ensures Within(sk4, n, |sk4|, l) {
      if b == n || b == n + 1 || b == q {
        LoopWithin(sk4, n + 1, q, l);
      } else {
        ArmWithin(sk4, n, n + 2, q, q, b, j, l);
      }
    }
  }

  lemma {:induction false} LoopOk(sk: seq<Node>, b: nat, q: nat)
    requires Loop(sk, b, q)
    ensures NodeOk(sk, b)
  {
  }

  lemma {:induction false} LoopWithin(sk: seq<Node>, b: nat, q: nat, l: Id)
    requires Loop(sk, b, q)
    requires l in {sk[b].lbl, sk[b + 1].lbl, sk[q].lbl, sk[q + 1].lbl}
    ensures Within(sk, b - 1, |sk|, l)
  {
    assert sk[b].lbl == l || sk[b + 1].lbl == l || sk[q].lbl == l || sk[q + 1].lbl == l;
  }

  // --- functions ---

  lemma {:induction false} ParamsBuild(g: Globals, st: St, params: seq<Param>, inputs: seq<Id>)
    requires |params| == |inputs| && Good(st) && Straight(st) && EmitParams(g, st, params, inputs).Ok?
    ensures var st' := EmitParams(g, st, params, inputs).value; Straight(st') && Skel(st') == Skel(st)
    decreases |params|
  {
    if params != [] {
      var st4 := ParamBuilds(g, st, params, inputs);
      hide Good, Skel, OneParam, Straight;
      OneParamGood(g, st, params, inputs) by { IsOpen(st); }
      ParamsBuild(g, st4, params[1..], inputs[1..]);
    }
  }

  lemma {:induction false} ParamBuilds(g: Globals, st: St, params: seq<Param>, inputs: seq<Id>) returns (st4: St)
    requires |params| == |inputs| > 0 && Good(st) && Straight(st) && EmitParams(g, st, params, inputs).Ok?
    ensures OneParam(g, st, params, inputs) == Ok(st4) && Straight(st4) && Skel(st4) == Skel(st)
    ensures EmitParams(g, st, params, inputs) == EmitParams(g, st4, params[1..], inputs[1..])
  {
    hide Good, Skel;
    var (st1, ptr) := AllocLocal(g, st, params[0].ty).value;
    AllocGood(g, st, params[0].ty);
    SameBlocksSkel(st, st1);
    var (st2, v) := EmitLoad(g, st1, Val(inputs[0], params[0].ty)).value;
    EmitLoadGood(g, st1, Val(inputs[0], params[0].ty));
    ExtendsSkel(st1, st2);
    PlainControl(st1.open.value.instrs, st2.open.value.instrs);
    StorePlain(st2, OpStore(ptr, v.id));
    st4 := OneParam(g, st, params, inputs).value;
    SameBlocksSkel(Push(st2, OpStore(ptr, v.id)).value, st4);
  }

  /** Hoisted variables do not show. */
  lemma {:induction false} ProgramSkeleton(fin: St)
    requires fin.open.None? && |fin.done| > 0
    ensures Skeleton(ProgramOf(fin)) == Skel(fin)
  {
    assert BlocksOf(fin) == fin.done;
    VariablesFirst(VariableInstrs(fin.vars), fin.done[0].instrs);
  }

  lemma {:induction false} VariablesFirst(vars: seq<Instr>, instrs: seq<Instr>)
    requires forall j :: 0 <= j < |vars| ==> vars[j].OpVariable?
    ensures Control(vars + instrs) == Control(instrs)
    decreases |vars| + |instrs|
  {
    var all := vars + instrs;
    if instrs != [] {
      assert all[..|all| - 1] == vars + instrs[..|instrs| - 1];
      VariablesFirst(vars, instrs[..|instrs| - 1]);
    } else if vars != [] {
      assert all[..|all| - 1] == vars[..|vars| - 1] + [];
      VariablesFirst(vars[..|vars| - 1], []);
    }
  }

  /** Every block of every compiled body branches, returns, or heads a selection or a loop whose merge and continue
      blocks are where structured control flow has them. */
  lemma {:induction false} BodyStructured(g: Globals, entry: Id, params: seq<Param>, body: Block)
    requires |g.inputs| == |params| && EmitBody(g, entry, params, body).Ok?
    ensures var sk := Skeleton(ProgramOf(EmitBody(g, entry, params, body).value));
      forall b :: 0 <= b < |sk| ==> NodeOk(sk, b)
  {
    hide Good, Skel, NodeOk, Arm, EmitParams, EmitStmts;
    var st1, st2 := BodyGood(g, entry, params, body);
    var st0, fin := EntrySt(entry), EmitBody(g, entry, params, body).value;
    EntryGood(entry);
    assert Straight(st0) by { assert Control([]) == []; }
    ParamsBuild(g, st0, params, g.inputs);
    EntrySkel(entry);
    StmtsBuild(g, st1, body.stmts);
    var sk0, sk2 := Skel(st1), Skel(st2);
    if st2.open.Some? {
      AppendSkel(st2, fin, OpReturn);
      forall b | 0 <= b < |sk2| ensures NodeOk(Skel(fin), b) {
        if b + 1 < |sk2| {
          NodeKept(sk2, Skel(fin), b);
        } else {
          LastOk(Skel(fin), b);
        }
      }
    }
    ProgramSkeleton(fin);
  }

  lemma {:induction false} EntrySkel(entry: Id)
    ensures |Skel(EntrySt(entry))| == 1
  {
  }
}
