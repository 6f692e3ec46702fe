/** The x86-64 instructions the trampolines use: encoding, decoding and execution. Memory is a map of aligned
    64-bit words; touching a word that is not mapped is a fault. */
module X86 {
  import opened Wrappers
  import opened Bytes

  const TWO_31: int := 0x8000_0000

  type Qword = q: int | 0 <= q < TWO_64

  function W64(x: int): Qword { x % TWO_64 }

  datatype Reg = RAX | RCX | RDX | RBX | RSP | RBP | RSI | RDI | R8 | R9 | R10 | R11 | R12 | R13 | R14 | R15

  function RegAt(n: nat): (r: Reg)
    requires n < 16
    ensures NumberOf(r) == n
  {
    if n == 0 then RAX else if n == 1 then RCX else if n == 2 then RDX else if n == 3 then RBX
    else if n == 4 then RSP else if n == 5 then RBP else if n == 6 then RSI else if n == 7 then RDI
    else if n == 8 then R8 else if n == 9 then R9 else if n == 10 then R10 else if n == 11 then R11
    else if n == 12 then R12 else if n == 13 then R13 else if n == 14 then R14 else R15
  }

  function NumberOf(r: Reg): (n: nat)
    ensures n < 16
  {
    match r
    case RAX => 0
    case RCX => 1
    case RDX => 2
    case RBX => 3
    case RSP => 4
    case RBP => 5
    case RSI => 6
    case RDI => 7
    case R8 => 8
    case R9 => 9
    case R10 => 10
    case R11 => 11
    case R12 => 12
    case R13 => 13
    case R14 => 14
    case R15 => 15
  }

  /** Immediates and displacements are signed 32-bit, sign-extended to 64. */
  type Simm = d: int | -TWO_31 <= d < TWO_31

  datatype Insn =
    | Push(r: Reg)
    | Pop(r: Reg)
    | AddImm(r: Reg, imm: Simm)
    | SubImm(r: Reg, imm: Simm)
    | Mov(dst: Reg, src: Reg)
    | Load(dst: Reg, base: Reg, disp: Simm)
    | Store(base: Reg, disp: Simm, src: Reg)
    | MovImm(dst: Reg, val: Qword)
    | CallReg(r: Reg)
    | JmpReg(r: Reg)
    | Ret

  // --- immediates ---

  function Imm32(d: Simm): seq<Byte> { LittleEndian(d % TWO_32, 4) }

  function SignExtend(u: nat): Simm
    requires u < TWO_32
  {
    if u < TWO_31 then u else u - TWO_32
  }

  function ReadImm32(s: seq<Byte>): Simm
    requires |s| >= 4
  {
    FromLittleEndianBound(s[..4]);
    Pow256Values();
    SignExtend(FromLittleEndian(s[..4]))
  }

  function ReadImm64(s: seq<Byte>): Qword
    requires |s| >= 8
  {
    FromLittleEndianBound(s[..8]);
    Pow256Values();
    FromLittleEndian(s[..8])
  }

  // --- encoding ---

  /** REX prefix with W, R and B; X is never needed. */
  function Rex(w: bool, r: nat, b: nat): Byte
    requires r < 16 && b < 16
  {
    0x40 + (if w then 8 else 0) + (if r >= 8 then 4 else 0) + (if b >= 8 then 1 else 0)
  }

  function ModRm(mode: nat, reg: nat, rm: nat): Byte
    requires mode < 4 && reg < 16 && rm < 16
  {
    64 * mode + 8 * (reg % 8) + rm % 8
  }

  function OptionalRexB(n: nat): seq<Byte>
    requires n < 16
  {
    if n >= 8 then [Rex(false, 0, n)] else []
  }

  /** Operand `[base + disp32]`; RSP and R12 as base need a SIB byte. */
  function MemOperand(reg: nat, base: nat, disp: Simm): seq<Byte>
    requires reg < 16 && base < 16
  {
    if base % 8 == 4 then [ModRm(2, reg, 4), 0x24] + Imm32(disp) else [ModRm(2, reg, base)] + Imm32(disp)
  }

  function Encode(i: Insn): seq<Byte> {
    match i
    case Push(r) => OptionalRexB(NumberOf(r)) + [0x50 + NumberOf(r) % 8]
    case Pop(r) => OptionalRexB(NumberOf(r)) + [0x58 + NumberOf(r) % 8]
    case AddImm(r, imm) => [Rex(true, 0, NumberOf(r)), 0x81, ModRm(3, 0, NumberOf(r))] + Imm32(imm)
    case SubImm(r, imm) => [Rex(true, 0, NumberOf(r)), 0x81, ModRm(3, 5, NumberOf(r))] + Imm32(imm)
    case Mov(d, s) => [Rex(true, NumberOf(s), NumberOf(d)), 0x89, ModRm(3, NumberOf(s), NumberOf(d))]
    case Load(d, b, disp) => [Rex(true, NumberOf(d), NumberOf(b)), 0x8B] + MemOperand(NumberOf(d), NumberOf(b), disp)
    case Store(b, disp, s) => [Rex(true, NumberOf(s), NumberOf(b)), 0x89] + MemOperand(NumberOf(s), NumberOf(b), disp)
    case MovImm(d, v) => [Rex(true, 0, NumberOf(d)), 0xB8 + NumberOf(d) % 8] + LittleEndian(v, 8)
    case CallReg(r) => OptionalRexB(NumberOf(r)) + [0xFF, ModRm(3, 2, NumberOf(r))]
    case JmpReg(r) => OptionalRexB(NumberOf(r)) + [0xFF, ModRm(3, 4, NumberOf(r))]
    case Ret => [0xC3]
  }

  function Assemble(ins: seq<Insn>): seq<Byte> {
    if ins == [] then [] else Encode(ins[0]) + Assemble(ins[1..])
  }

  lemma {:induction false} AssembleAppend(a: seq<Insn>, b: seq<Insn>)
    ensures Assemble(a + b) == Assemble(a) + Assemble(b)
  {
    if a == [] {
      assert a + b == b;
    } else {
      assert (a + b)[0] == a[0] && (a + b)[1..] == a[1..] + b;
      AssembleAppend(a[1..], b);
    }
  }

  lemma {:induction false} AssembleOne(i: Insn)
    ensures Assemble([i]) == Encode(i)
  {
    assert [i][1..] == [];
  }

  // --- decoding ---

  /** The first instruction of `s` and its length. */
  function Decode(s: seq<Byte>): Option<(Insn, nat)> {
    if s == [] then None
    else if 0x40 <= s[0] < 0x50 then
      var rex := s[0] - 0x40;
      var (i, n) :- DecodeOp(rex / 8 == 1, (rex / 4) % 2, (rex / 2) % 2, rex % 2, s[1..]);
      Some((i, n + 1))
    else DecodeOp(false, 0, 0, 0, s)
  }

  /** Opcode and operands, given the four REX bits. */
  function DecodeOp(w: bool, r: nat, x: nat, b: nat, s: seq<Byte>): Option<(Insn, nat)>
    requires r < 2 && x < 2 && b < 2
  {
    if s == [] then None
    else
      var op := s[0];
      if 0x50 <= op < 0x58 then Some((Push(RegAt(op - 0x50 + 8 * b)), 1))
      else if 0x58 <= op < 0x60 then Some((Pop(RegAt(op - 0x58 + 8 * b)), 1))
      else if op == 0xC3 then Some((Ret, 1))
      else if 0xB8 <= op < 0xC0 then
        if w && |s| >= 9 then Some((MovImm(RegAt(op - 0xB8 + 8 * b), ReadImm64(s[1..])), 9)) else None
      else if |s| < 2 then None
      else
        var mode, reg, rm := s[1] / 64, (s[1] / 8) % 8, s[1] % 8;
        if op == 0x81 then
          if w && mode == 3 && |s| >= 6 && reg in {0, 5} then
            var imm := ReadImm32(s[2..]);
            Some((if reg == 0 then AddImm(RegAt(rm + 8 * b), imm) else SubImm(RegAt(rm + 8 * b), imm), 6))
          else None
        else if op == 0xFF then
          if mode == 3 && reg in {2, 4} then
            Some((if reg == 2 then CallReg(RegAt(rm + 8 * b)) else JmpReg(RegAt(rm + 8 * b)), 2))
          else None
        else if op in {0x89, 0x8B} && w then
          var other := RegAt(reg + 8 * r);
          if mode == 3 then
            var direct := RegAt(rm + 8 * b);
            Some((if op == 0x89 then Mov(direct, other) else Mov(other, direct), 2))
          else
            var (base, disp, n) :- DecodeMem(x, b, mode, rm, s);
            Some((if op == 0x89 then Store(base, disp, other) else Load(other, base, disp), n))
        else None
  }

  /** `[base + disp32]` with or without a SIB byte; no index register. */
  function DecodeMem(x: nat, b: nat, mode: nat, rm: nat, s: seq<Byte>): Option<(Reg, Simm, nat)>
    requires x < 2 && b < 2 && rm < 8 && |s| >= 2
  {
    if mode != 2 then None
    else if rm != 4 then
      if |s| >= 6 then Some((RegAt(rm + 8 * b), ReadImm32(s[2..]), 6)) else None
    else if |s| >= 7 && (s[2] / 8) % 8 + 8 * x == 4 then Some((RegAt(s[2] % 8 + 8 * b), ReadImm32(s[3..]), 7))
    else None
  }

  lemma {:induction false} Imm32RoundTrip(d: Simm, s: seq<Byte>)
    requires |s| >= 4 && s[..4] == Imm32(d)
    ensures ReadImm32(s) == d
  {
    Pow256Values();
    LittleEndianRoundTrip(d % TWO_32, 4);
  }

  lemma {:induction false} RegAtNumber(r: Reg)
    ensures RegAt(NumberOf(r)) == r
  {
  }

  lemma {:induction false} RexBits(w: bool, r: nat, b: nat)
    requires r < 16 && b < 16
    ensures var rex := Rex(w, r, b) - 0x40;
      && 0 <= rex < 16 && (rex / 8 == 1 <==> w) && (rex / 4) % 2 == r / 8 && (rex / 2) % 2 == 0 && rex % 2 == b / 8
  {
  }

  lemma {:induction false} ModRmBits(mode: nat, reg: nat, rm: nat)
    requires mode < 4 && reg < 16 && rm < 16
    ensures var m := ModRm(mode, reg, rm); m / 64 == mode && (m / 8) % 8 == reg % 8 && m % 8 == rm % 8
  {
    var low, mid := rm % 8, reg % 8;
    assert 0 <= low < 8 && 0 <= mid < 8;
    assert ModRm(mode, reg, rm) == 64 * mode + 8 * mid + low;
    assert (64 * mode + 8 * mid + low) / 8 == 8 * mode + mid;
  }

  lemma {:induction false} MemRoundTrip(reg: Reg, base: Reg, disp: Simm, op: Byte, rest: seq<Byte>)
    ensures var s := [op] + MemOperand(NumberOf(reg), NumberOf(base), disp) + rest;
      && |s| >= 2 && s[1] / 64 == 2 && (s[1] / 8) % 8 == NumberOf(reg) % 8
      && DecodeMem(0, NumberOf(base) / 8, s[1] / 64, s[1] % 8, s)
           == Some((base, disp, 1 + |MemOperand(NumberOf(reg), NumberOf(base), disp)|))
  {
    var r, b := NumberOf(reg), NumberOf(base);
    var s := [op] + MemOperand(r, b, disp) + rest;
    RegAtNumber(base);
    if b % 8 == 4 {
      ModRmBits(2, r, 4);
      assert s[3..][..4] == Imm32(disp);
      Imm32RoundTrip(disp, s[3..]);
    } else {
      ModRmBits(2, r, b);
      assert s[2..][..4] == Imm32(disp);
      Imm32RoundTrip(disp, s[2..]);
    }
  }

  /** Decoding undoes encoding, whatever follows, for every instruction and every register. */
  lemma {:induction false} DecodeEncode(i: Insn, rest: seq<Byte>)
    ensures Decode(Encode(i) + rest) == Some((i, |Encode(i)|))
  {
    hide Decode, Encode;
    match i
    case Push(_) => DecodeEncodeStack(i, rest);
    case Pop(_) => DecodeEncodeStack(i, rest);
    case CallReg(_) => DecodeEncodeJump(i, rest);
    case JmpReg(_) => DecodeEncodeJump(i, rest);
    case AddImm(_, _) => DecodeEncodeImm(i, rest);
    case SubImm(_, _) => DecodeEncodeImm(i, rest);
    case Mov(_, _) => DecodeEncodeMov(i, rest);
    case Load(_, _, _) => DecodeEncodeMem(i, rest);
    case Store(_, _, _) => DecodeEncodeMem(i, rest);
    case MovImm(_, _) => DecodeEncodeMovImm(i, rest);
    case Ret => DecodeEncodeStack(i, rest);
  }

  lemma {:induction false} DecodeEncodeStack(i: Insn, rest: seq<Byte>)
    requires i.Push? || i.Pop? || i.Ret?
    ensures Decode(Encode(i) + rest) == Some((i, |Encode(i)|))
  {
    hide RegAt, ReadImm32, ReadImm64, LittleEndian, DecodeMem;
    if !i.Ret? {
      RegAtNumber(i.r);
      RexBits(false, 0, NumberOf(i.r));
    }
  }

  lemma {:induction false} DecodeEncodeMov(i: Insn, rest: seq<Byte>)
    requires i.Mov?
    ensures Decode(Encode(i) + rest) == Some((i, |Encode(i)|))
  {
    RegAtNumber(i.dst);
    RegAtNumber(i.src);
    RexBits(true, NumberOf(i.src), NumberOf(i.dst));
    ModRmBits(3, NumberOf(i.src), NumberOf(i.dst));
  }

  lemma {:induction false} DecodeEncodeMovImm(i: Insn, rest: seq<Byte>)
    requires i.MovImm?
    ensures Decode(Encode(i) + rest) == Some((i, |Encode(i)|))
  {
    var s := Encode(i) + rest;
    RegAtNumber(i.dst);
    RexBits(true, 0, NumberOf(i.dst));
    assert s[1..][1..][..8] == LittleEndian(i.val, 8);
    Pow256Values();
    LittleEndianRoundTrip(i.val, 8);
    hide LittleEndian, FromLittleEndian, RegAt, NumberOf, Rex;
  }

  lemma {:induction false} DecodeEncodeJump(i: Insn, rest: seq<Byte>)
    requires i.CallReg? || i.JmpReg?
    ensures Decode(Encode(i) + rest) == Some((i, |Encode(i)|))
  {
    hide RegAt, ReadImm32, ReadImm64, LittleEndian;
    RegAtNumber(i.r);
    RexBits(false, 0, NumberOf(i.r));
    ModRmBits(3, if i.CallReg? then 2 else 4, NumberOf(i.r));
  }

  lemma {:induction false} DecodeEncodeImm(i: Insn, rest: seq<Byte>)
    requires i.AddImm? || i.SubImm?
    ensures Decode(Encode(i) + rest) == Some((i, |Encode(i)|))
  {
    var s := Encode(i) + rest;
    RegAtNumber(i.r);
    RexBits(true, 0, NumberOf(i.r));
    ModRmBits(3, if i.AddImm? then 0 else 5, NumberOf(i.r));
    assert s[1..][2..][..4] == Imm32(i.imm);
    Imm32RoundTrip(i.imm, s[1..][2..]);
  }

  lemma {:induction false} DecodeEncodeMem(i: Insn, rest: seq<Byte>)
    requires i.Load? || i.Store?
    ensures Decode(Encode(i) + rest) == Some((i, |Encode(i)|))
  {
    var reg := if i.Load? then i.dst else i.src;
    var op: Byte := if i.Load? then 0x8B else 0x89;
    var operand := MemOperand(NumberOf(reg), NumberOf(i.base), i.disp);
    var rex := Rex(true, NumberOf(reg), NumberOf(i.base));
    RegAtNumber(reg);
    RexBits(true, NumberOf(reg), NumberOf(i.base));
    MemRoundTrip(reg, i.base, i.disp, op, rest);
    EncodeMem(i, reg, op);
    hide MemOperand, Rex, NumberOf, Encode;
    var tail := [op] + operand + rest;
    assert Encode(i) + rest == [rex] + tail;
    assert ([rex] + tail)[1..] == tail && tail[0] == op;
    hide DecodeMem, MemOperand, ReadImm32, ReadImm64, RegAt, NumberOf, Rex, Encode;
    DecodeOpMem(i, reg, op, NumberOf(reg), NumberOf(i.base), tail, 1 + |operand|);
    DecodeRex(true, NumberOf(reg), NumberOf(i.base), tail);
    hide Decode, DecodeOp;
  }

  /** The REX prefix passes its bits on. */
  lemma {:induction false} DecodeRex(w: bool, r: nat, b: nat, tail: seq<Byte>)
    requires r < 16 && b < 16 && DecodeOp(w, r / 8, 0, b / 8, tail).Some?
    ensures var (i, n) := DecodeOp(w, r / 8, 0, b / 8, tail).value; Decode([Rex(w, r, b)] + tail) == Some((i, n + 1))
  {
    RexBits(w, r, b);
    hide Rex, DecodeOp;
    assert ([Rex(w, r, b)] + tail)[1..] == tail;
  }

  lemma {:induction false} EncodeMem(i: Insn, reg: Reg, op: Byte)
    requires i.Load? || i.Store?
    requires op == (if i.Load? then 0x8B else 0x89) && reg == (if i.Load? then i.dst else i.src)
    ensures Encode(i) == [Rex(true, NumberOf(reg), NumberOf(i.base)), op] + MemOperand(NumberOf(reg), NumberOf(i.base), i.disp)
  {
    hide MemOperand, Rex, NumberOf;
  }

  /** The memory forms of `mov`, once the operand has been decoded. */
  lemma {:induction false} DecodeOpMem(i: Insn, reg: Reg, op: Byte, r: nat, b: nat, s: seq<Byte>, n: nat)
    requires r < 16 && b < 16 && |s| >= 2 && s[0] == op && (i.Load? || i.Store?)
    requires op == (if i.Load? then 0x8B else 0x89) && reg == (if i.Load? then i.dst else i.src)
    requires s[1] / 64 == 2 && (s[1] / 8) % 8 == r % 8 && RegAt(r) == reg
    requires DecodeMem(0, b / 8, s[1] / 64, s[1] % 8, s) == Some((i.base, i.disp, n))
    ensures DecodeOp(true, r / 8, 0, b / 8, s) == Some((i, n))
  {
    hide DecodeMem, RegAt, ReadImm32, ReadImm64;
    assert (s[1] / 8) % 8 + 8 * (r / 8) == r;
  }

  // --- execution ---

  type Regs = Reg -> Qword

  datatype Cpu = Cpu(regs: Regs, mem: map<int, Qword>)

  function Set(regs: Regs, r: Reg, v: Qword): Regs {
    x => if x == r then v else regs(x)
  }

  /** A word that can be read and written. */
  predicate Mapped(c: Cpu, a: int) {
    a % 8 == 0 && a in c.mem
  }

  /** Instructions that fall through to the next one; `None` is a fault. */
  function Exec(i: Insn, c: Cpu): Option<Cpu> {
    match i
    case Push(r) => PushWord(c, c.regs(r))
    case Pop(r) =>
      var sp := c.regs(RSP);
      if Mapped(c, sp) then Some(c.(regs := Set(Set(c.regs, RSP, W64(sp + 8)), r, c.mem[sp]))) else None
    case AddImm(r, imm) => Some(c.(regs := Set(c.regs, r, W64(c.regs(r) + imm))))
    case SubImm(r, imm) => Some(c.(regs := Set(c.regs, r, W64(c.regs(r) - imm))))
    case Mov(d, s) => Some(c.(regs := Set(c.regs, d, c.regs(s))))
    case Load(d, b, disp) =>
      var a := W64(c.regs(b) + disp);
      if Mapped(c, a) then Some(c.(regs := Set(c.regs, d, c.mem[a]))) else None
    case Store(b, disp, s) =>
      var a := W64(c.regs(b) + disp);
      if Mapped(c, a) then Some(c.(mem := c.mem[a := c.regs(s)])) else None
    case MovImm(d, v) => Some(c.(regs := Set(c.regs, d, v)))
    case _ => None
  }

  function PushWord(c: Cpu, v: Qword): Option<Cpu> {
    var sp := W64(c.regs(RSP) - 8);
    if Mapped(c, sp) then Some(Cpu(Set(c.regs, RSP, sp), c.mem[sp := v])) else None
  }

  /** A processor about to execute the byte at `rip`. */
  datatype Machine = Run(rip: int, cpu: Cpu) | Fault

  /** One step of code loaded at `base`. */
  function Step(code: seq<Byte>, base: nat, m: Machine): Machine {
    if m.Fault? || !(base <= m.rip < base + |code|) then Fault
    else match Decode(code[m.rip - base..])
      case None => Fault
      case Some((i, n)) =>
        match i
        case CallReg(r) => (
          match PushWord(m.cpu, W64(m.rip + n))
          case None => Fault
          case Some(c) => Run(m.cpu.regs(r), c))
        case JmpReg(r) => Run(m.cpu.regs(r), m.cpu)
        case Ret =>
          var sp := m.cpu.regs(RSP);
          if Mapped(m.cpu, sp) then Run(m.cpu.mem[sp], m.cpu.(regs := Set(m.cpu.regs, RSP, W64(sp + 8)))) else Fault
        case _ =>
          match Exec(i, m.cpu)
          case None => Fault
          case Some(c) => Run(m.rip + n, c)
  }

  function Steps(code: seq<Byte>, base: nat, m: Machine, k: nat): Machine
    decreases k
  {
    if k == 0 then m else Steps(code, base, Step(code, base, m), k - 1)
  }

  lemma {:induction false} StepsAdd(code: seq<Byte>, base: nat, m: Machine, a: nat, b: nat)
    ensures Steps(code, base, m, a + b) == Steps(code, base, Steps(code, base, m, a), b)
    decreases a
  {
    if a > 0 {
      StepsAdd(code, base, Step(code, base, m), a - 1, b);
    }
  }

  /** A straight-line sequence. */
  function ExecAll(ins: seq<Insn>, c: Cpu): Option<Cpu> {
    if ins == [] then Some(c)
    else
      var c1 :- Exec(ins[0], c);
      ExecAll(ins[1..], c1)
  }

  lemma {:induction false} ExecAllAppend(a: seq<Insn>, b: seq<Insn>, c: Cpu, c1: Cpu)
    requires ExecAll(a, c) == Some(c1)
    ensures ExecAll(a + b, c) == ExecAll(b, c1)
  {
    if a == [] {
      assert a + b == b;
    } else {
      assert (a + b)[0] == a[0] && (a + b)[1..] == a[1..] + b;
      ExecAllAppend(a[1..], b, Exec(a[0], c).value, c1);
    }
  }

  lemma {:induction false} EncodeNonEmpty(i: Insn)
    ensures |Encode(i)| > 0
  {
  }

  /** What is fetched inside assembled code. */
  lemma {:induction false} FetchAt(pre: seq<Insn>, i: Insn, post: seq<Insn>, code: seq<Byte>)
    requires code == Assemble(pre + [i] + post)
    ensures |Assemble(pre)| < |code| && Decode(code[|Assemble(pre)|..]) == Some((i, |Encode(i)|))
    ensures |Assemble(pre + [i])| == |Assemble(pre)| + |Encode(i)|
  {
    hide Decode, Encode, Assemble;
    EncodeNonEmpty(i);
    AssembleAppend(pre + [i], post);
    AssembleAppend(pre, [i]);
    AssembleOne(i);
    assert code[|Assemble(pre)|..] == Encode(i) + Assemble(post);
    DecodeEncode(i, Assemble(post));
  }

  /** Straight-line code runs as its instructions do. */
  lemma {:induction false} RunStraight(pre: seq<Insn>, ins: seq<Insn>, post: seq<Insn>, code: seq<Byte>, base: nat, c: Cpu)
    requires code == Assemble(pre + ins + post) && ExecAll(ins, c).Some?
    ensures Steps(code, base, Run(base + |Assemble(pre)|, c), |ins|) == Run(base + |Assemble(pre + ins)|, ExecAll(ins, c).value)
    decreases |ins|
  {
    hide Decode, Encode, Assemble, Step, Exec;
    if ins == [] {
      assert pre + ins == pre;
    } else {
      assert pre + ins + post == pre + [ins[0]] + (ins[1..] + post);
      FetchAt(pre, ins[0], ins[1..] + post, code);
      assert pre + [ins[0]] + ins[1..] + post == pre + ins + post;
      RunStraight(pre + [ins[0]], ins[1..], post, code, base, Exec(ins[0], c).value);
      assert pre + [ins[0]] + ins[1..] == pre + ins;
      StepStraight(code, base, base + |Assemble(pre)|, c, ins[0]);
    }
  }

  lemma {:induction false} StepStraight(code: seq<Byte>, base: nat, rip: int, c: Cpu, i: Insn)
    requires base <= rip < base + |code| && Decode(code[rip - base..]) == Some((i, |Encode(i)|)) && Exec(i, c).Some?
    ensures Step(code, base, Run(rip, c)) == Run(rip + |Encode(i)|, Exec(i, c).value)
  {
    hide Decode, Encode;
  }
}
