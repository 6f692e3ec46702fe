/** What the trampolines' bytes do, measured against the two calling conventions: the Microsoft x64 convention
    on the caller's side and the System V AMD64 psABI (sections 3.2.2 and 3.2.3) on the callee's. */
module ThunkAbi {
  import opened Wrappers
  import opened Bytes
  import opened X86
  import opened ThunkCode

  // --- the conventions ---

  /** Where Windows argument `i` is at the entry of a function: RCX, RDX, R8, R9, then the stack above the
      return address and the 32-byte shadow space. */
  function WinSlot(sp: int, i: int): int { sp + 8 * i }

  function WinArg(c: Cpu, i: nat): Qword
    requires 1 <= i && (i >= 5 ==> WinSlot(c.regs(RSP), i) in c.mem)
  {
    if i == 1 then c.regs(RCX)
    else if i == 2 then c.regs(RDX)
    else if i == 3 then c.regs(R8)
    else if i == 4 then c.regs(R9)
    else c.mem[WinSlot(c.regs(RSP), i)]
  }

  /** Where a System V callee finds stack argument `i` (7 or more) at its entry. */
  function SysvSlot(sp: int, i: int): int { sp + 8 * (i - 6) }

  predicate SysvArgIs(c: Cpu, i: nat, v: Qword)
    requires 1 <= i
  {
    if i == 1 then c.regs(RDI) == v
    else if i == 2 then c.regs(RSI) == v
    else if i == 3 then c.regs(RDX) == v
    else if i == 4 then c.regs(RCX) == v
    else if i == 5 then c.regs(R8) == v
    else if i == 6 then c.regs(R9) == v
    else SysvSlot(c.regs(RSP), i) in c.mem && c.mem[SysvSlot(c.regs(RSP), i)] == v
  }

  const SYSV_PRESERVED: set<Reg> := {RBX, RBP, R12, R13, R14, R15}
  const WIN_PRESERVED: set<Reg> := {RBX, RBP, RDI, RSI, R12, R13, R14, R15}

  // --- entry ---

  /** Stack the trampoline uses below the stack pointer at entry, the callee's return address included. */
  function Depth(n: nat): nat { 24 + FrameSize(n) }

  /** The word-aligned addresses from `lo` up to `hi` are mapped. */
  predicate MappedRange(c: Cpu, lo: int, hi: int) {
    forall a :: lo <= a < hi && a % 8 == 0 ==> a in c.mem
  }

  predicate SlotsMapped(c: Cpu, n: nat) {
    forall i :: 5 <= i <= n ==> WinSlot(c.regs(RSP), i) in c.mem
  }

  /** The state just after a Windows caller's `call`: the stack pointer is 8 modulo 16, there is stack below it,
      and the slots of arguments 5 to n exist. Nothing else need be mapped. */
  predicate AtEntry(c: Cpu, n: nat, depth: nat) {
    var sp := c.regs(RSP);
    && sp % 16 == 8 && depth <= sp && sp + 8 * n + 8 <= TWO_64
    && MappedRange(c, sp - depth, sp) && SlotsMapped(c, n)
  }

  // --- small steps ---

  lemma {:induction false} ExecCons(i: Insn, rest: seq<Insn>, c: Cpu)
    requires Exec(i, c).Some?
    ensures ExecAll([i] + rest, c) == ExecAll(rest, Exec(i, c).value)
  {
    assert ([i] + rest)[1..] == rest;
  }

  lemma {:induction false} ExecTwo(a: Insn, b: Insn, c: Cpu)
    requires Exec(a, c).Some? && Exec(b, Exec(a, c).value).Some?
    ensures ExecAll([a, b], c) == Exec(b, Exec(a, c).value)
  {
    assert [a] + [b] == [a, b] && [b] + [] == [b];
    hide Exec;
    ExecCons(a, [b], c);
    ExecCons(b, [], Exec(a, c).value);
  }

  lemma {:induction false} ExecThree(a: Insn, b: Insn, d: Insn, c: Cpu)
    requires Exec(a, c).Some? && Exec(b, Exec(a, c).value).Some? && Exec(d, Exec(b, Exec(a, c).value).value).Some?
    ensures ExecAll([a, b, d], c) == Exec(d, Exec(b, Exec(a, c).value).value)
  {
    hide Exec;
    assert [a] + [b, d] == [a, b, d];
    ExecCons(a, [b, d], c);
    ExecTwo(b, d, Exec(a, c).value);
  }

  /** Same registers outside `changed`, same memory outside `lo..hi`, nothing unmapped. */
  ghost predicate Changes(c: Cpu, c': Cpu, changed: set<Reg>, lo: int, hi: int) {
    && (forall r :: r !in changed ==> c'.regs(r) == c.regs(r))
    && c'.mem.Keys == c.mem.Keys
    && (forall a :: a in c.mem && !(lo <= a < hi) ==> c'.mem[a] == c.mem[a])
  }

  lemma {:induction false} SmallWord(x: int)
    requires 0 <= x < TWO_64
    ensures W64(x) == x
  {
  }

  lemma {:induction false} RunPush(c: Cpu, r: Reg, sp: int)
    requires c.regs(RSP) == sp >= 8 && Mapped(c, sp - 8)
    ensures Exec(Push(r), c) == Some(Cpu(Set(c.regs, RSP, sp - 8), c.mem[sp - 8 := c.regs(r)]))
  {
    SmallWord(sp - 8);
  }

  lemma {:induction false} RunPrologue(n: nat, c: Cpu) returns (c': Cpu)
    requires n <= 32 && AtEntry(c, n, Depth(n))
    ensures ExecAll(Prologue(n), c) == Some(c') && c'.regs(RSP) == c.regs(RSP) - 16 - FrameSize(n)
    ensures Changes(c, c', {RSP}, c.regs(RSP) - 16, c.regs(RSP))
    ensures Mapped(c', c.regs(RSP) - 8) && c'.mem[c.regs(RSP) - 8] == c.regs(RDI)
    ensures Mapped(c', c.regs(RSP) - 16) && c'.mem[c.regs(RSP) - 16] == c.regs(RSI)
  {
    var sp := c.regs(RSP);
    var frame := FrameSize(n);
    FrameMapped(c, n);
    SmallWord(sp - 16 - frame);
    hide AtEntry, MappedRange, SlotsMapped, W64, FrameSize;
    RunPush(c, RDI, sp);
    var c1 := Cpu(Set(c.regs, RSP, sp - 8), c.mem[sp - 8 := c.regs(RDI)]);
    RunPush(c1, RSI, sp - 8);
    var c2 := Cpu(Set(c1.regs, RSP, sp - 16), c1.mem[sp - 16 := c1.regs(RSI)]);
    var sub := SubImm(RSP, frame);
    c' := c2.(regs := Set(c2.regs, RSP, sp - 16 - frame));
    assert Exec(sub, c2) == Some(c2.(regs := Set(c2.regs, RSP, W64(sp - 16 - frame))));
    hide Exec;
    ExecThree(Push(RDI), Push(RSI), sub, c);
  }

  /** The four moves read every source before it is overwritten. */
  lemma {:induction false} RunMoves(c: Cpu) returns (c': Cpu)
    ensures ExecAll(RegisterMoves(), c) == Some(c') && Changes(c, c', {RDI, RSI, RDX, RCX}, 0, 0)
    ensures c'.regs(RDI) == c.regs(RCX) && c'.regs(RSI) == c.regs(RDX)
    ensures c'.regs(RDX) == c.regs(R8) && c'.regs(RCX) == c.regs(R9)
  {
    RunMov(c, RDI, RCX);
    var c1 := c.(regs := Set(c.regs, RDI, c.regs(RCX)));
    RunMov(c1, RSI, RDX);
    var c2 := c1.(regs := Set(c1.regs, RSI, c1.regs(RDX)));
    RunMov(c2, RDX, R8);
    var c3 := c2.(regs := Set(c2.regs, RDX, c2.regs(R8)));
    RunMov(c3, RCX, R9);
    c' := c3.(regs := Set(c3.regs, RCX, c3.regs(R9)));
    hide Exec, ExecAll;
    ExecTwo(Mov(RDI, RCX), Mov(RSI, RDX), c);
    ExecTwo(Mov(RDX, R8), Mov(RCX, R9), c2);
    ExecAllAppend([Mov(RDI, RCX), Mov(RSI, RDX)], [Mov(RDX, R8), Mov(RCX, R9)], c, c2);
    assert [Mov(RDI, RCX), Mov(RSI, RDX)] + [Mov(RDX, R8), Mov(RCX, R9)] == RegisterMoves();
  }

  lemma {:induction false} RunMov(c: Cpu, d: Reg, r: Reg)
    ensures Exec(Mov(d, r), c) == Some(c.(regs := Set(c.regs, d, c.regs(r))))
  {
  }

  lemma {:induction false} RunLoad(c: Cpu, d: Reg, disp: Simm, sp: int)
    requires Mapped(c, sp) && c.regs(RSP) + disp == sp && 0 <= sp < TWO_64
    ensures Exec(Load(d, RSP, disp), c) == Some(c.(regs := Set(c.regs, d, c.mem[sp])))
  {
  }

  lemma {:induction false} RunStore(c: Cpu, r: Reg, disp: Simm, sp: int)
    requires Mapped(c, sp) && c.regs(RSP) + disp == sp && 0 <= sp < TWO_64
    ensures Exec(Store(RSP, disp, r), c) == Some(c.(mem := c.mem[sp := c.regs(r)]))
  {
    SmallWord(sp);
  }

  /** Arguments 5 and 6 are loaded only when there are that many. */
  lemma {:induction false} RunFifthAndSixth(n: nat, shift: nat, c: Cpu, sp: nat) returns (c': Cpu)
    requires n <= 32 && shift <= 0x1000 && c.regs(RSP) + shift == sp && sp % 8 == 0 && sp + 8 * n + 8 <= TWO_64
    requires n >= 5 ==> WinSlot(sp, 5) in c.mem
    requires n >= 6 ==> WinSlot(sp, 6) in c.mem
    ensures ExecAll(FifthAndSixth(n, shift), c) == Some(c') && Changes(c, c', {R8, R9}, 0, 0)
    ensures n >= 5 ==> c'.regs(R8) == c.mem[WinSlot(sp, 5)]
    ensures n >= 6 ==> c'.regs(R9) == c.mem[WinSlot(sp, 6)]
  {
    c' := c;
    var first := Load(R8, RSP, 0x28 + shift);
    var second := Load(R9, RSP, 0x30 + shift);
    if n >= 5 {
      RunLoad(c, R8, 0x28 + shift, WinSlot(sp, 5));
      c' := Exec(first, c).value;
      if n >= 6 {
        var c1 := c';
        RunLoad(c1, R9, 0x30 + shift, WinSlot(sp, 6));
        c' := Exec(second, c1).value;
        ExecTwo(first, second, c);
        assert FifthAndSixth(n, shift) == [first, second];
      } else {
        ExecCons(first, [], c);
        assert FifthAndSixth(n, shift) == [first] + [];
      }
    } else {
      assert FifthAndSixth(n, shift) == [];
    }
  }

  /** The copy loop: destinations stay below the saved registers and all sources stay above them. */
  lemma {:induction false} RunCopies(n: nat, count: nat, c: Cpu, sp: nat) returns (c': Cpu)
    requires n <= 32 && count <= StackArgs(n) && sp % 8 == 0 && sp + 8 * n + 8 <= TWO_64
    requires Depth(n) <= sp && c.regs(RSP) == sp - 16 - FrameSize(n)
    requires MappedRange(c, sp - Depth(n), sp)
    requires forall i :: 7 <= i <= n ==> WinSlot(sp, i) in c.mem
    ensures ExecAll(Copies(FrameSize(n), count), c) == Some(c')
    ensures Changes(c, c', {RAX}, sp - 16 - FrameSize(n), sp - 16)
    ensures forall j :: 7 <= j < 7 + count ==> Copied(c, c', sp, n, j)
    decreases count
  {
    if count == 0 {
      c' := c;
    } else {
      var c1 := RunCopies(n, count - 1, c, sp);
      c' := RunOneCopy(n, count - 1, c1, sp);
      ExecAllAppend(Copies(FrameSize(n), count - 1), OneCopy(FrameSize(n), count - 1), c, c1);
      forall j | 7 <= j < 7 + count ensures Copied(c, c', sp, n, j) {
        assert WinSlot(sp, j) in c.mem;
        if j < 6 + count {
          assert Copied(c, c1, sp, n, j);
        }
      }
    }
  }

  /** Stack argument `j` of the caller is in the slot of the callee. */
  ghost predicate Copied(c: Cpu, c': Cpu, sp: int, n: nat, j: int) {
    var slot := SysvSlot(sp - Depth(n), j);
    WinSlot(sp, j) in c.mem && Mapped(c', slot) && c'.mem[slot] == c.mem[WinSlot(sp, j)]
  }

  lemma {:induction false} RunOneCopy(n: nat, i: nat, c: Cpu, sp: nat) returns (c': Cpu)
    requires n <= 32 && i < StackArgs(n) && sp % 8 == 0 && sp + 8 * n + 8 <= TWO_64
    requires Depth(n) <= sp && c.regs(RSP) == sp - 16 - FrameSize(n)
    requires MappedRange(c, sp - Depth(n), sp) && WinSlot(sp, 7 + i) in c.mem
    ensures ExecAll(OneCopy(FrameSize(n), i), c) == Some(c')
    ensures var slot := SysvSlot(sp - Depth(n), 7 + i);
      Changes(c, c', {RAX}, slot, slot + 1) && Mapped(c', slot) && c'.mem[slot] == c.mem[WinSlot(sp, 7 + i)]
  {
    var slot := SysvSlot(sp - Depth(n), 7 + i);
    var load := Load(RAX, RSP, 0x48 + FrameSize(n) + 8 * i);
    Eighths(WinSlot(sp, 7 + i), sp / 8 + 7 + i);
    RunLoad(c, RAX, 0x48 + FrameSize(n) + 8 * i, WinSlot(sp, 7 + i));
    var c1 := Exec(load, c).value;
    Eighths(slot, sp / 8 - 2 - FrameSize(n) / 8 + i);
    WordMapped(c, sp - Depth(n), sp, slot);
    var store := Store(RSP, 8 * i, RAX);
    RunStore(c1, RAX, 8 * i, slot);
    hide Exec, MappedRange;
    c' := Exec(store, c1).value;
    ExecTwo(load, store, c);
  }

  lemma {:induction false} ChangesTrans(
    a: Cpu, b: Cpu, c: Cpu, r1: set<Reg>, lo1: int, hi1: int, r2: set<Reg>, lo2: int, hi2: int, r: set<Reg>, lo: int, hi: int)
    requires Changes(a, b, r1, lo1, hi1) && Changes(b, c, r2, lo2, hi2) && r1 <= r && r2 <= r
    requires (lo1 >= hi1 || (lo <= lo1 && hi1 <= hi)) && (lo2 >= hi2 || (lo <= lo2 && hi2 <= hi))
    ensures Changes(a, c, r, lo, hi)
  {
  }

  /** Registers as a System V callee with `n` arguments expects them, taken from the Windows positions in `c`. */
  ghost predicate Shuffled(c: Cpu, c': Cpu, n: nat, sp: int) {
    && c'.regs(RDI) == c.regs(RCX) && c'.regs(RSI) == c.regs(RDX)
    && c'.regs(RDX) == c.regs(R8) && c'.regs(RCX) == c.regs(R9)
    && (n >= 5 ==> WinSlot(sp, 5) in c.mem && c'.regs(R8) == c.mem[WinSlot(sp, 5)])
    && (n >= 6 ==> WinSlot(sp, 6) in c.mem && c'.regs(R9) == c.mem[WinSlot(sp, 6)])
  }

  /** Arguments 1 to 6. */
  lemma {:induction false} RunShuffle(n: nat, shift: nat, c: Cpu, sp: nat) returns (c': Cpu)
    requires n <= 32 && shift <= 0x1000 && c.regs(RSP) + shift == sp && sp % 8 == 0 && sp + 8 * n + 8 <= TWO_64
    requires n >= 5 ==> WinSlot(sp, 5) in c.mem
    requires n >= 6 ==> WinSlot(sp, 6) in c.mem
    ensures ExecAll(RegisterMoves() + FifthAndSixth(n, shift), c) == Some(c')
    ensures Changes(c, c', {RDI, RSI, RDX, RCX, R8, R9}, 0, 0) && Shuffled(c, c', n, sp)
  {
    hide Exec, ExecAll;
    var c1 := RunMoves(c);
    c' := RunFifthAndSixth(n, shift, c1, sp);
    ExecAllAppend(RegisterMoves(), FifthAndSixth(n, shift), c, c1);
    ChangesTrans(c, c1, c', {RDI, RSI, RDX, RCX}, 0, 0, {R8, R9}, 0, 0, {RDI, RSI, RDX, RCX, R8, R9}, 0, 0);
  }

  /** The state just before the call. */
  ghost predicate ReadyToCall(target: Qword, n: nat, c: Cpu, c': Cpu) {
    var sp := c.regs(RSP);
    && c'.regs(RSP) == sp - 16 - FrameSize(n) && c'.regs(RAX) == target
    && Changes(c, c', {RSP, RAX, RDI, RSI, RDX, RCX, R8, R9}, sp - 16 - FrameSize(n), sp)
    && Mapped(c', sp - 8) && c'.mem[sp - 8] == c.regs(RDI)
    && Mapped(c', sp - 16) && c'.mem[sp - 16] == c.regs(RSI)
    && Shuffled(c, c', n, sp)
    && forall j :: 7 <= j <= n ==> Copied(c, c', sp, n, j)
  }

  /** All of the code before the call. */
  lemma {:induction false} RunBeforeCall(target: Qword, n: nat, c: Cpu) returns (c': Cpu)
    requires n <= 32 && AtEntry(c, n, Depth(n))
    ensures ExecAll(BeforeCall(target, n), c) == Some(c') && ReadyToCall(target, n, c, c')
  {
    hide Exec, ExecAll, ReadyToCall, Shuffled, Copied, Copies, Prologue, BeforeCall;
    var sp := c.regs(RSP);
    assert n >= 5 ==> WinSlot(sp, 5) in c.mem;
    assert n >= 6 ==> WinSlot(sp, 6) in c.mem;
    var c1 := RunPrologue(n, c);
    var c3 := RunShuffle(n, 16 + FrameSize(n), c1, sp);
    forall i | 7 <= i <= n ensures WinSlot(sp, i) in c3.mem {
      assert WinSlot(sp, i) in c.mem;
    }
    var c4 := RunCopies(n, StackArgs(n), c3, sp);
    ComposeBeforeCall(target, n, c, c1, c3, c4);
    c' := c4.(regs := Set(c4.regs, RAX, target));
    JoinBeforeCall(target, n, c, c1, c3, c4);
  }

  lemma {:induction false} JoinBeforeCall(target: Qword, n: nat, c: Cpu, c1: Cpu, c3: Cpu, c4: Cpu)
    requires n <= 32 && c1.regs(RSP) == c.regs(RSP) - 16 - FrameSize(n) && c.regs(RSP) % 8 == 0
    requires Changes(c, c1, {RSP}, c.regs(RSP) - 16, c.regs(RSP))
    requires Mapped(c1, c.regs(RSP) - 8) && c1.mem[c.regs(RSP) - 8] == c.regs(RDI)
    requires Mapped(c1, c.regs(RSP) - 16) && c1.mem[c.regs(RSP) - 16] == c.regs(RSI)
    requires Changes(c1, c3, {RDI, RSI, RDX, RCX, R8, R9}, 0, 0) && Shuffled(c1, c3, n, c.regs(RSP))
    requires Changes(c3, c4, {RAX}, c.regs(RSP) - 16 - FrameSize(n), c.regs(RSP) - 16)
    requires forall j :: 7 <= j < 7 + StackArgs(n) ==> Copied(c3, c4, c.regs(RSP), n, j)
    ensures ReadyToCall(target, n, c, c4.(regs := Set(c4.regs, RAX, target)))
  {
    var sp := c.regs(RSP);
    var frame := FrameSize(n);
    var c' := c4.(regs := Set(c4.regs, RAX, target));
    ChangesTrans(c, c1, c3, {RSP}, sp - 16, sp, {RDI, RSI, RDX, RCX, R8, R9}, 0, 0, {RSP, RDI, RSI, RDX, RCX, R8, R9}, sp - 16, sp);
    ChangesTrans(c, c3, c4, {RSP, RDI, RSI, RDX, RCX, R8, R9}, sp - 16, sp, {RAX}, sp - 16 - frame, sp - 16,
                 {RSP, RAX, RDI, RSI, RDX, RCX, R8, R9}, sp - 16 - frame, sp);
    forall j | 7 <= j <= n ensures Copied(c, c', sp, n, j) {
      assert Copied(c3, c4, sp, n, j);
      assert c3.mem[WinSlot(sp, j)] == c.mem[WinSlot(sp, j)];
    }
  }

  lemma {:induction false} ComposeBeforeCall(target: Qword, n: nat, c: Cpu, c1: Cpu, c3: Cpu, c4: Cpu)
    requires n <= 32 && ExecAll(Prologue(n), c) == Some(c1)
    requires ExecAll(RegisterMoves() + FifthAndSixth(n, 16 + FrameSize(n)), c1) == Some(c3)
    requires ExecAll(Copies(FrameSize(n), StackArgs(n)), c3) == Some(c4)
    ensures ExecAll(BeforeCall(target, n), c) == Some(c4.(regs := Set(c4.regs, RAX, target)))
  {
    hide ExecAll, Exec;
    var a, b := Prologue(n), RegisterMoves() + FifthAndSixth(n, 16 + FrameSize(n));
    ExecAllAppend(a, b, c, c1);
    ExecAllAppend(a + b, Copies(FrameSize(n), StackArgs(n)), c, c3);
    ExecAllAppend(a + b + Copies(FrameSize(n), StackArgs(n)), [MovImm(RAX, target)], c, c4);
    ExecMovImm(target, c4);
  }

  lemma {:induction false} ExecMovImm(target: Qword, c: Cpu)
    ensures ExecAll([MovImm(RAX, target)], c) == Some(c.(regs := Set(c.regs, RAX, target)))
  {
    ExecCons(MovImm(RAX, target), [], c);
    assert [MovImm(RAX, target)] + [] == [MovImm(RAX, target)];
  }

  // --- the call ---

  /** Address of the instruction after the call. */
  function ReturnAddress(target: Qword, n: nat, base: nat): int
    requires n <= 32
  {
    base + |Assemble(BeforeCall(target, n) + [CallReg(RAX)])|
  }

  lemma {:induction false} StepCall(code: seq<Byte>, base: nat, rip: int, c: Cpu)
    requires base <= rip < base + |code| && Decode(code[rip - base..]) == Some((CallReg(RAX), 2))
    requires rip + 2 < TWO_64 && c.regs(RSP) >= 8 && Mapped(c, c.regs(RSP) - 8)
    ensures Step(code, base, Run(rip, c)) ==
      Run(c.regs(RAX), Cpu(Set(c.regs, RSP, c.regs(RSP) - 8), c.mem[c.regs(RSP) - 8 := rip + 2]))
  {
    hide Decode;
  }

  /** What the callee is given, at its first instruction. */
  ghost predicate CalleeEntered(target: Qword, n: nat, base: nat, c: Cpu, c1: Cpu)
    requires n <= 32
  {
    var sp := c.regs(RSP);
    && c1.regs(RSP) == sp - Depth(n) && c1.regs(RSP) % 16 == 8
    && Mapped(c1, c1.regs(RSP)) && c1.mem[c1.regs(RSP)] == ReturnAddress(target, n, base)
    && Changes(c, c1, {RSP, RAX, RDI, RSI, RDX, RCX, R8, R9}, sp - Depth(n), sp)
    && Mapped(c1, sp - 8) && c1.mem[sp - 8] == c.regs(RDI)
    && Mapped(c1, sp - 16) && c1.mem[sp - 16] == c.regs(RSI)
  }

  /** The bytes of the returning trampoline, run from any proper entry state, deliver every Windows argument in
      its System V position at the entry of `target`, on a properly aligned stack. The machine faults on unmapped
      words, so nothing but its own frame and the slots of arguments 5 to n is read. */
  lemma {:induction false} ArgumentsDelivered(target: Qword, n: nat, code: seq<Byte>, base: nat, c: Cpu)
    returns (k: nat, c1: Cpu)
    requires n <= 32 && code == Assemble(ReturningCode(target, n)) && base + |code| <= TWO_64
    requires AtEntry(c, n, Depth(n))
    ensures Steps(code, base, Run(base, c), k) == Run(target, c1)
    ensures forall i :: 1 <= i <= n ==> (i >= 5 ==> WinSlot(c.regs(RSP), i) in c.mem) && SysvArgIs(c1, i, WinArg(c, i))
    ensures CalleeEntered(target, n, base, c, c1)
  {
    hide Assemble, Encode, Decode, Step, Exec, ExecAll, BeforeCall, AfterCall, AtEntry, MappedRange, ReadyToCall, CalleeEntered,
      SysvArgIs, FrameSize;
    var sp := c.regs(RSP);
    var before, call := BeforeCall(target, n), [CallReg(RAX)];
    var post := AfterCall(n) + [Ret];
    var c0 := RunBeforeCall(target, n, c);
    assert [] + before + (call + post) == ReturningCode(target, n);
    AssembleNothing();
    RunStraight([], before, call + post, code, base, c);
    assert [] + before == before;
    assert before + call + post == ReturningCode(target, n);
    FetchAt(before, CallReg(RAX), post, code);
    ShortOpcodes();
    var rip := base + |Assemble(before)|;
    CodeGoesOn(target, n);
    c1 := Cpu(Set(c0.regs, RSP, W64(sp - Depth(n))), c0.mem[sp - Depth(n) := rip + 2]);
    EnterCallee(target, n, base, rip, c, c0, c1);
    StepCall(code, base, rip, c0);
    k := |before| + 1;
    StepsAdd(code, base, Run(base, c), |before|, 1);
    assert Steps(code, base, Run(rip, c0), 1) == Step(code, base, Run(rip, c0));
  }

  /** Pushing the return address. */
  lemma {:induction false} EnterCallee(target: Qword, n: nat, base: nat, rip: int, c: Cpu, c0: Cpu, c1: Cpu)
    requires n <= 32 && AtEntry(c, n, Depth(n)) && ReadyToCall(target, n, c, c0) && 0 <= rip + 2 < TWO_64
    requires c1 == Cpu(Set(c0.regs, RSP, W64(c.regs(RSP) - Depth(n))), c0.mem[c.regs(RSP) - Depth(n) := rip + 2])
    requires rip + 2 == ReturnAddress(target, n, base)
    ensures c0.regs(RSP) >= 8 && Mapped(c0, c0.regs(RSP) - 8) && c0.regs(RSP) - 8 == c.regs(RSP) - Depth(n) && c0.regs(RAX) == target
    ensures W64(c.regs(RSP) - Depth(n)) == c.regs(RSP) - Depth(n)
    ensures CalleeEntered(target, n, base, c, c1)
    ensures forall i :: 1 <= i <= n ==> (i >= 5 ==> WinSlot(c.regs(RSP), i) in c.mem) && SysvArgIs(c1, i, WinArg(c, i))
  {
    FrameMapped(c, n);
    SmallWord(c.regs(RSP) - Depth(n));
    hide Assemble, BeforeCall, ReturnAddress, FrameSize, W64, MappedRange;
    var sp := c.regs(RSP);
    forall i | 1 <= i <= n
      ensures (i >= 5 ==> WinSlot(sp, i) in c.mem) && SysvArgIs(c1, i, WinArg(c, i))
    {
      SlotMapped(c, n, i);
      if i >= 7 {
        assert Copied(c, c0, sp, n, i);
      }
    }
  }

  lemma {:induction false} SlotMapped(c: Cpu, n: nat, i: nat)
    requires SlotsMapped(c, n) && i <= n
    ensures i >= 5 ==> WinSlot(c.regs(RSP), i) in c.mem
  {
  }

  /** The frame is an odd number of words. */
  lemma {:induction false} FrameOdd(n: nat) returns (half: nat)
    requires n <= 32
    ensures FrameSize(n) == 16 * half + 8
  {
    half := StackArgs(n) / 2;
    assert StackArgs(n) == 2 * half || StackArgs(n) == 2 * half + 1;
  }

  lemma {:induction false} FrameMapped(c: Cpu, n: nat)
    requires n <= 32 && AtEntry(c, n, Depth(n))
    ensures Mapped(c, c.regs(RSP) - Depth(n)) && Mapped(c, c.regs(RSP) - 8) && Mapped(c, c.regs(RSP) - 16)
    ensures (c.regs(RSP) - Depth(n)) % 16 == 8
  {
    var sp := c.regs(RSP);
    var half := FrameOdd(n);
    var q := sp / 16;
    hide FrameSize, MappedRange;
    Residues(sp, q);
    Residues(sp - Depth(n), q - half - 2);
    Residues(sp - 16, q - 1);
    Eighths(sp - 8, 2 * q);
    WordMapped(c, sp - Depth(n), sp, sp - Depth(n));
    WordMapped(c, sp - Depth(n), sp, sp - 16);
    WordMapped(c, sp - Depth(n), sp, sp - 8);
  }

  lemma {:induction false} Residues(x: int, k: int)
    ensures x == 16 * k + 8 ==> x % 16 == 8 && x % 8 == 0
    ensures x % 16 == 8 && k == x / 16 ==> x == 16 * k + 8
  {
  }

  lemma {:induction false} Eighths(x: int, k: int)
    requires x == 8 * k
    ensures x % 8 == 0
  {
  }

  lemma {:induction false} WordMapped(c: Cpu, lo: int, hi: int, a: int)
    requires MappedRange(c, lo, hi) && lo <= a < hi && a % 8 == 0
    ensures Mapped(c, a)
  {
  }

  lemma {:induction false} CodeGoesOn(target: Qword, n: nat)
    requires n <= 32
    ensures |Assemble(BeforeCall(target, n) + [CallReg(RAX)])| == |Assemble(BeforeCall(target, n))| + 2
    ensures |Assemble(BeforeCall(target, n))| + 2 < |Assemble(ReturningCode(target, n))|
  {
    hide Assemble, Encode, BeforeCall, AfterCall;
    ShortOpcodes();
    var pre := BeforeCall(target, n) + [CallReg(RAX)];
    AssembleSnoc(BeforeCall(target, n), CallReg(RAX));
    AssembleAppend(pre, AfterCall(n));
    AssembleSnoc(pre + AfterCall(n), Ret);
  }

  // --- the return ---

  /** A System V callee entered in `c1` returns in `c2`: it pops its return address and keeps the callee-saved
      registers and the words of the caller's frame above its argument area. Everything else, its stack
      arguments included, may have changed. */
  ghost predicate SysvReturned(c1: Cpu, c2: Cpu, sp: int) {
    && c2.regs(RSP) == c1.regs(RSP) + 8
    && (forall r :: r in SYSV_PRESERVED ==> c2.regs(r) == c1.regs(r))
    && c1.mem.Keys <= c2.mem.Keys
    && (forall a :: a in c1.mem && sp - 16 <= a <= sp ==> c2.mem[a] == c1.mem[a])
  }

  /** The epilogue, from the state the callee left. */
  lemma {:induction false} RunAfterCall(n: nat, c: Cpu, sp: nat) returns (c': Cpu)
    requires n <= 32 && 16 + FrameSize(n) <= sp < TWO_64 && sp % 8 == 0 && c.regs(RSP) == sp - 16 - FrameSize(n)
    requires Mapped(c, sp - 16) && Mapped(c, sp - 8)
    ensures ExecAll(AfterCall(n), c) == Some(c') && c'.mem == c.mem && c'.regs(RSP) == sp
    ensures c'.regs(RSI) == c.mem[sp - 16] && c'.regs(RDI) == c.mem[sp - 8]
    ensures forall r :: r !in {RSP, RSI, RDI} ==> c'.regs(r) == c.regs(r)
  {
    var c1 := Exec(AddImm(RSP, FrameSize(n)), c).value;
    assert c1.regs(RSP) == sp - 16;
    var c2 := Exec(Pop(RSI), c1).value;
    assert c2.regs(RSP) == sp - 8;
    c' := Exec(Pop(RDI), c2).value;
    ExecThree(AddImm(RSP, FrameSize(n)), Pop(RSI), Pop(RDI), c);
  }

  lemma {:induction false} StepRet(code: seq<Byte>, base: nat, rip: int, c: Cpu)
    requires base <= rip < base + |code| && Decode(code[rip - base..]) == Some((Ret, 1))
    requires Mapped(c, c.regs(RSP)) && c.regs(RSP) + 8 < TWO_64
    ensures Step(code, base, Run(rip, c)) == Run(c.mem[c.regs(RSP)], c.(regs := Set(c.regs, RSP, c.regs(RSP) + 8)))
  {
    hide Decode;
  }

  /** Whatever a conforming callee did, the trampoline then returns to the Windows caller with all the registers
      that convention preserves, with the stack pointer just above the popped return address, with the callee's
      result in RAX, and without writing to memory. */
  lemma {:induction false} CalleeReturnRestores(target: Qword, n: nat, code: seq<Byte>, base: nat, c: Cpu, c1: Cpu, c2: Cpu)
    returns (k: nat, c3: Cpu)
    requires n <= 32 && code == Assemble(ReturningCode(target, n)) && base + |code| <= TWO_64
    requires AtEntry(c, n, Depth(n)) && c.regs(RSP) in c.mem && c.regs(RSP) + 8 < TWO_64
    requires CalleeEntered(target, n, base, c, c1) && SysvReturned(c1, c2, c.regs(RSP))
    ensures Steps(code, base, Run(c1.mem[c1.regs(RSP)], c2), k) == Run(c.mem[c.regs(RSP)], c3)
    ensures c3.regs(RSP) == c.regs(RSP) + 8 && c3.regs(RAX) == c2.regs(RAX) && c3.mem == c2.mem
    ensures forall r :: r in WIN_PRESERVED ==> c3.regs(r) == c.regs(r)
  {
    hide Assemble, Encode, Decode, Step, Exec, ExecAll, BeforeCall, AfterCall, MappedRange, SlotsMapped,
      RegisterMoves, FrameSize;
    var sp := c.regs(RSP);
    var pre := BeforeCall(target, n) + [CallReg(RAX)];
    FrameMapped(c, n);
    var cr := RunAfterCall(n, c2, sp);
    assert pre + AfterCall(n) + [Ret] == ReturningCode(target, n);
    RunStraight(pre, AfterCall(n), [Ret], code, base, c2);
    assert pre + AfterCall(n) + [Ret] + [] == ReturningCode(target, n);
    FetchAt(pre + AfterCall(n), Ret, [], code);
    ShortOpcodes();
    var rip := base + |Assemble(pre + AfterCall(n))|;
    StepRet(code, base, rip, cr);
    c3 := cr.(regs := Set(cr.regs, RSP, sp + 8));
    k := |AfterCall(n)| + 1;
    StepsAdd(code, base, Run(c1.mem[c1.regs(RSP)], c2), |AfterCall(n)|, 1);
    assert Steps(code, base, Run(rip, cr), 1) == Step(code, base, Run(rip, cr));
  }

  // --- the trampoline that does not return ---

  lemma {:induction false} StepJmp(code: seq<Byte>, base: nat, rip: int, c: Cpu)
    requires base <= rip < base + |code| && Decode(code[rip - base..]) == Some((JmpReg(RAX), 2))
    ensures Step(code, base, Run(rip, c)) == Run(c.regs(RAX), c)
  {
    hide Decode;
  }

  /** The other trampoline reaches `target` with up to six arguments in place, with the stack pointer and memory
      untouched, needing no stack of its own. */
  lemma {:induction false} NoreturnDelivers(target: Qword, n: nat, code: seq<Byte>, base: nat, c: Cpu)
    returns (k: nat, c1: Cpu)
    requires n <= 6 && code == Assemble(NoreturnCode(target, n)) && base + |code| <= TWO_64
    requires AtEntry(c, n, 0)
    ensures Steps(code, base, Run(base, c), k) == Run(target, c1)
    ensures forall i :: 1 <= i <= n ==> (i >= 5 ==> WinSlot(c.regs(RSP), i) in c.mem) && SysvArgIs(c1, i, WinArg(c, i))
    ensures c1.mem == c.mem && c1.regs(RSP) == c.regs(RSP)
  {
    hide Assemble, Encode, Decode, Step, Exec, ExecAll, MappedRange, RegisterMoves, FifthAndSixth, Mapped;
    var sp := c.regs(RSP);
    assert n >= 5 ==> WinSlot(sp, 5) in c.mem;
    assert n >= 6 ==> WinSlot(sp, 6) in c.mem;
    var c3 := RunShuffle(n, 0, c, sp);
    c1 := c3.(regs := Set(c3.regs, RAX, target));
    var before := NoreturnBeforeJump(target, n);
    ExecAllAppend(RegisterMoves() + FifthAndSixth(n, 0), [MovImm(RAX, target)], c, c3);
    ExecMovImm(target, c3);
    assert [] + before + [JmpReg(RAX)] == NoreturnCode(target, n);
    AssembleNothing();
    RunStraight([], before, [JmpReg(RAX)], code, base, c);
    assert [] + before == before;
    assert before + [JmpReg(RAX)] + [] == NoreturnCode(target, n);
    FetchAt(before, JmpReg(RAX), [], code);
    ShortOpcodes();
    var rip := base + |Assemble(before)|;
    StepJmp(code, base, rip, c1);
    k := |before| + 1;
    StepsAdd(code, base, Run(base, c), |before|, 1);
    assert Steps(code, base, Run(rip, c1), 1) == Step(code, base, Run(rip, c1));
    MemSame(c, c3);
  }

  lemma {:induction false} MemSame(c: Cpu, c': Cpu)
    requires c'.mem.Keys == c.mem.Keys && forall a :: a in c.mem ==> c'.mem[a] == c.mem[a]
    ensures c'.mem == c.mem
  {
    var m, m' := c.mem, c'.mem;
    assert forall a :: a in m.Keys <==> a in m'.Keys;
    assert forall a :: a in m <==> a in m';
    assert forall a :: a in m ==> m[a] == m'[a];
    assert m == m';
  }
}
