/** The machine code of the Win64-to-System-V trampolines, byte by byte as the emitters push it, and the
    instructions those bytes are. */
module ThunkCode {
  import opened Bytes
  import opened X86

  // --- the instructions meant ---

  /** System V stack arguments: Windows arguments 7 to n. */
  function StackArgs(n: nat): nat {
    if n > 6 then n - 6 else 0
  }

  /** Stack-argument area, padded so that the call is made from a 16-aligned stack. */
  function FrameSize(n: nat): nat {
    8 * StackArgs(n) + (if StackArgs(n) % 2 == 0 then 8 else 0)
  }

  /** The frame is the smallest that holds the stack arguments and, below the two saved registers, leaves the stack
      16-aligned at the call. */
  lemma {:induction false} FrameMinimal(n: nat, frame: nat)
    ensures StackArgs(n) == (if n <= 6 then 0 else n - 6)
    ensures frame % 8 == 0 && 8 * StackArgs(n) <= frame && (8 + 16 + frame) % 16 == 0 ==> FrameSize(n) <= frame
    ensures 8 * StackArgs(n) <= FrameSize(n) && (8 + 16 + FrameSize(n)) % 16 == 0
  {
  }

  function RegisterMoves(): seq<Insn> {
    [Mov(RDI, RCX), Mov(RSI, RDX), Mov(RDX, R8), Mov(RCX, R9)]
  }

  /** Loads of arguments 5 and 6, `shift` bytes above the stack pointer at entry. */
  function FifthAndSixth(n: nat, shift: nat): seq<Insn>
    requires n <= 32 && shift <= 0x1000
  {
    (if n >= 5 then [Load(R8, RSP, 0x28 + shift)] else []) + (if n >= 6 then [Load(R9, RSP, 0x30 + shift)] else [])
  }

  /** Copy `count` stack arguments down to the callee's argument area. */
  function Copies(frame: nat, count: nat): seq<Insn>
    requires count <= 26 && frame <= 0x100
  {
    if count == 0 then [] else Copies(frame, count - 1) + OneCopy(frame, count - 1)
  }

  function OneCopy(frame: nat, i: nat): seq<Insn>
    requires i < 26 && frame <= 0x100
  {
    [Load(RAX, RSP, 0x48 + frame + 8 * i), Store(RSP, 8 * i, RAX)]
  }

  function Prologue(n: nat): seq<Insn>
    requires n <= 32
  {
    [Push(RDI), Push(RSI), SubImm(RSP, FrameSize(n))]
  }

  /** Everything before the call. */
  function BeforeCall(target: Qword, n: nat): seq<Insn>
    requires n <= 32
  {
    Prologue(n) + (RegisterMoves() + FifthAndSixth(n, 16 + FrameSize(n)))
      + Copies(FrameSize(n), StackArgs(n)) + [MovImm(RAX, target)]
  }

  function AfterCall(n: nat): seq<Insn>
    requires n <= 32
  {
    [AddImm(RSP, FrameSize(n)), Pop(RSI), Pop(RDI)]
  }

  function ReturningCode(target: Qword, n: nat): seq<Insn>
    requires n <= 32
  {
    BeforeCall(target, n) + [CallReg(RAX)] + AfterCall(n) + [Ret]
  }

  function NoreturnBeforeJump(target: Qword, n: nat): seq<Insn>
    requires n <= 32
  {
    RegisterMoves() + FifthAndSixth(n, 0) + [MovImm(RAX, target)]
  }

  function NoreturnCode(target: Qword, n: nat): seq<Insn>
    requires n <= 32
  {
    NoreturnBeforeJump(target, n) + [JmpReg(RAX)]
  }

  // --- the emitters ---

  /** Each constant the emitters push is the encoding of the instruction its comment names. */
  lemma {:induction false} Opcodes(d: Simm, v: Qword)
    ensures Encode(Push(RDI)) == [0x57] && Encode(Push(RSI)) == [0x56]
    ensures Encode(Pop(RDI)) == [0x5F] && Encode(Pop(RSI)) == [0x5E] && Encode(Ret) == [0xC3]
    ensures Encode(SubImm(RSP, d)) == [0x48, 0x81, 0xEC] + Imm32(d)
    ensures Encode(AddImm(RSP, d)) == [0x48, 0x81, 0xC4] + Imm32(d)
    ensures Encode(Mov(RDI, RCX)) == [0x48, 0x89, 0xCF] && Encode(Mov(RSI, RDX)) == [0x48, 0x89, 0xD6]
    ensures Encode(Mov(RDX, R8)) == [0x4C, 0x89, 0xC2] && Encode(Mov(RCX, R9)) == [0x4C, 0x89, 0xC9]
    ensures Encode(MovImm(RAX, v)) == [0x48, 0xB8] + LittleEndian(v, 8)
    ensures Encode(CallReg(RAX)) == [0xFF, 0xD0] && Encode(JmpReg(RAX)) == [0xFF, 0xE0]
  {
    ShortOpcodes();
    MoveOpcodes();
    ImmediateOpcodes(d, v);
  }

  lemma {:induction false} ShortOpcodes()
    ensures Encode(Push(RDI)) == [0x57] && Encode(Push(RSI)) == [0x56]
    ensures Encode(Pop(RDI)) == [0x5F] && Encode(Pop(RSI)) == [0x5E] && Encode(Ret) == [0xC3]
    ensures Encode(CallReg(RAX)) == [0xFF, 0xD0] && Encode(JmpReg(RAX)) == [0xFF, 0xE0]
  {
  }

  lemma {:induction false} MoveOpcodes()
    ensures Encode(Mov(RDI, RCX)) == [0x48, 0x89, 0xCF] && Encode(Mov(RSI, RDX)) == [0x48, 0x89, 0xD6]
    ensures Encode(Mov(RDX, R8)) == [0x4C, 0x89, 0xC2] && Encode(Mov(RCX, R9)) == [0x4C, 0x89, 0xC9]
  {
  }

  lemma {:induction false} ImmediateOpcodes(d: Simm, v: Qword)
    ensures Encode(SubImm(RSP, d)) == [0x48, 0x81, 0xEC] + Imm32(d)
    ensures Encode(AddImm(RSP, d)) == [0x48, 0x81, 0xC4] + Imm32(d)
    ensures Encode(MovImm(RAX, v)) == [0x48, 0xB8] + LittleEndian(v, 8)
  {
    hide LittleEndian, Imm32;
  }

  /** The same for loads and stores at a displacement from the stack pointer. */
  lemma {:induction false} StackOpcodes(d: Simm)
    ensures Encode(Load(R8, RSP, d)) == [0x4C, 0x8B, 0x84, 0x24] + Imm32(d)
    ensures Encode(Load(R9, RSP, d)) == [0x4C, 0x8B, 0x8C, 0x24] + Imm32(d)
    ensures Encode(Load(RAX, RSP, d)) == [0x48, 0x8B, 0x84, 0x24] + Imm32(d)
    ensures Encode(Store(RSP, d, RAX)) == [0x48, 0x89, 0x84, 0x24] + Imm32(d)
  {
    hide Imm32, MemOperand, Encode;
    StackOperands(d);
    StackLoad(R8, d);
    StackLoad(R9, d);
    StackLoad(RAX, d);
    StackStore(RAX, d);
  }

  lemma {:induction false} StackLoad(r: Reg, d: Simm)
    ensures Encode(Load(r, RSP, d)) == [Rex(true, NumberOf(r), 4), 0x8B] + MemOperand(NumberOf(r), 4, d)
  {
    hide MemOperand;
  }

  lemma {:induction false} StackStore(r: Reg, d: Simm)
    ensures Encode(Store(RSP, d, r)) == [Rex(true, NumberOf(r), 4), 0x89] + MemOperand(NumberOf(r), 4, d)
  {
    hide MemOperand;
  }

  lemma {:induction false} StackOperands(d: Simm)
    ensures MemOperand(8, 4, d) == [0x84, 0x24] + Imm32(d)
    ensures MemOperand(9, 4, d) == [0x8C, 0x24] + Imm32(d)
    ensures MemOperand(0, 4, d) == [0x84, 0x24] + Imm32(d)
  {
    hide Imm32;
  }

  lemma {:induction false} AssembleSnoc(ins: seq<Insn>, i: Insn)
    ensures Assemble(ins + [i]) == Assemble(ins) + Encode(i)
  {
    AssembleAppend(ins, [i]);
    AssembleOne(i);
  }

  /** Append the moves of the four register arguments. */
  method EmitMoves(v0: seq<Byte>, ghost ins: seq<Insn>) returns (v: seq<Byte>)
    requires v0 == Assemble(ins)
    ensures v == Assemble(ins + RegisterMoves())
  {
    hide Assemble, Encode;
    v := v0 + [0x48, 0x89, 0xCF];
    v := v + [0x48, 0x89, 0xD6];
    v := v + [0x4C, 0x89, 0xC2];
    v := v + [0x4C, 0x89, 0xC9];
    Opcodes(0, 0);
    AssembleSnoc(ins, Mov(RDI, RCX));
    AssembleSnoc(ins + [Mov(RDI, RCX)], Mov(RSI, RDX));
    AssembleSnoc(ins + [Mov(RDI, RCX)] + [Mov(RSI, RDX)], Mov(RDX, R8));
    AssembleSnoc(ins + [Mov(RDI, RCX)] + [Mov(RSI, RDX)] + [Mov(RDX, R8)], Mov(RCX, R9));
    assert ins + [Mov(RDI, RCX)] + [Mov(RSI, RDX)] + [Mov(RDX, R8)] + [Mov(RCX, R9)] == ins + RegisterMoves();
  }

  /** Append the loads of arguments 5 and 6. */
  method EmitFifthAndSixth(v0: seq<Byte>, n: nat, shift: nat, ghost ins: seq<Insn>) returns (v: seq<Byte>)
    requires n <= 32 && shift <= 0x1000 && v0 == Assemble(ins)
    ensures v == Assemble(ins + FifthAndSixth(n, shift))
  {
    hide Assemble, Encode;
    v := v0;
    ghost var done := ins;
    if n >= 5 {
      var disp := 0x28 + shift;
      v := v + [0x4C, 0x8B, 0x84, 0x24];
      v := v + Imm32(disp);
      StackOpcodes(disp);
      AssembleSnoc(done, Load(R8, RSP, disp));
      done := done + [Load(R8, RSP, disp)];
    }
    if n >= 6 {
      var disp := 0x30 + shift;
      v := v + [0x4C, 0x8B, 0x8C, 0x24];
      v := v + Imm32(disp);
      StackOpcodes(disp);
      AssembleSnoc(done, Load(R9, RSP, disp));
      done := done + [Load(R9, RSP, disp)];
    }
    assert done == ins + FifthAndSixth(n, shift);
  }

  /** The trampoline for functions that return. */
  method EmitReturning(target: Qword, n: nat) returns (v: seq<Byte>)
    requires n <= 32
    ensures v == Assemble(ReturningCode(target, n))
  {
    hide Assemble, Encode;
    var s := if n > 6 then n - 6 else 0;
    var frame := 8 * s + if s % 2 == 0 then 8 else 0;
    v := [];
    ghost var done: seq<Insn> := [];
    assert v == Assemble(done) by { AssembleNothing(); }
    v := v + [0x57];
    v := v + [0x56];
    if frame > 0 {
      v := v + [0x48, 0x81, 0xEC];
      v := v + Imm32(frame);
    }
    Opcodes(frame, target);
    AssembleSnoc([], Push(RDI));
    AssembleSnoc([Push(RDI)], Push(RSI));
    AssembleSnoc([Push(RDI)] + [Push(RSI)], SubImm(RSP, frame));
    assert [] + [Push(RDI)] == [Push(RDI)];
    done := [Push(RDI)] + [Push(RSI)] + [SubImm(RSP, frame)];
    assert done == Prologue(n);
    v := EmitMoves(v, done);
    done := done + RegisterMoves();
    v := EmitFifthAndSixth(v, n, 16 + frame, done);
    done := Prologue(n) + (RegisterMoves() + FifthAndSixth(n, 16 + frame));
    assert done == Prologue(n) + RegisterMoves() + FifthAndSixth(n, 16 + frame);
    v := EmitCopies(v, s, frame, done);
    done := done + Copies(frame, s);
    v := v + [0x48, 0xB8];
    v := v + LittleEndian(target, 8);
    v := v + [0xFF, 0xD0];
    AssembleSnoc(done, MovImm(RAX, target));
    done := BeforeCall(target, n);
    AssembleSnoc(done, CallReg(RAX));
    done := done + [CallReg(RAX)];
    if frame > 0 {
      v := v + [0x48, 0x81, 0xC4];
      v := v + Imm32(frame);
    }
    v := v + [0x5E];
    v := v + [0x5F];
    v := v + [0xC3];
    AssembleSnoc(done, AddImm(RSP, frame));
    AssembleSnoc(done + [AddImm(RSP, frame)], Pop(RSI));
    AssembleSnoc(done + [AddImm(RSP, frame)] + [Pop(RSI)], Pop(RDI));
    assert done + [AddImm(RSP, frame)] + [Pop(RSI)] + [Pop(RDI)] == done + AfterCall(n);
    AssembleSnoc(done + AfterCall(n), Ret);
  }

  lemma {:induction false} AssembleNothing()
    ensures Assemble([]) == []
  {
  }

  /** Append the copies of arguments 7 and up. */
  method EmitCopies(v0: seq<Byte>, s: nat, frame: nat, ghost ins: seq<Insn>) returns (v: seq<Byte>)
    requires s <= 26 && frame <= 0x100 && v0 == Assemble(ins)
    ensures v == Assemble(ins + Copies(frame, s))
  {
    hide Assemble, Encode;
    v := v0;
    assert ins + Copies(frame, 0) == ins;
    for i := 0 to s
      invariant v == Assemble(ins + Copies(frame, i))
    {
      var src := 0x48 + frame + 8 * i;
      var dst := 8 * i;
      v := v + [0x48, 0x8B, 0x84, 0x24];
      v := v + Imm32(src);
      v := v + [0x48, 0x89, 0x84, 0x24];
      v := v + Imm32(dst);
      ghost var done := ins + Copies(frame, i);
      StackOpcodes(src);
      StackOpcodes(dst);
      AssembleSnoc(done, Load(RAX, RSP, src));
      AssembleSnoc(done + [Load(RAX, RSP, src)], Store(RSP, dst, RAX));
      assert done + [Load(RAX, RSP, src)] + [Store(RSP, dst, RAX)] == ins + Copies(frame, i + 1);
    }
  }

  /** The trampoline for functions that never return. */
  method EmitNoreturn(target: Qword, n: nat) returns (v: seq<Byte>)
    requires n <= 32
    ensures v == Assemble(NoreturnCode(target, n))
  {
    hide Assemble, Encode;
    v := [];
    assert v == Assemble([]) by { AssembleNothing(); }
    v := EmitMoves(v, []);
    assert [] + RegisterMoves() == RegisterMoves();
    v := EmitFifthAndSixth(v, n, 0, RegisterMoves());
    v := v + [0x48, 0xB8];
    v := v + LittleEndian(target, 8);
    v := v + [0xFF, 0xE0];
    Opcodes(0, target);
    AssembleSnoc(RegisterMoves() + FifthAndSixth(n, 0), MovImm(RAX, target));
    AssembleSnoc(NoreturnBeforeJump(target, n), JmpReg(RAX));
  }
}
