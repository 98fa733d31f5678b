/** Immediate operands on the ARM (jit/jit-gen-arm.c, jit/jit-gen-arm.h), and what the instruction words mean (ARM
    Architecture Reference Manual DDI 0100, sections A3.4, A3.11 and A5.1.3). */
module ArmImmediates {
  type Word = bv32

  const R2: Word := 2
  const R3: Word := 3
  const R4: Word := 4
  const WORK: Word := 12
  const SP: Word := 13
  const PC: Word := 15

  const ADD: Word := 4
  const MOV: Word := 13
  const MVN: Word := 15

  // ---- The processor ----

  /** Memory as the list of the words stored, the last one first. */
  datatype Mem = Unknown | Stored(at: Word, value: Word, before: Mem)

  function Load(m: Mem, at: Word): Word { if m.Unknown? then 0 else if m.at == at then m.value else Load(m.before, at) }

  function Index(r: Word): (i: nat)
    requires r < 16
    ensures i < 16
  {
    if r < 8 then
      if r < 4 then if r < 2 then if r == 0 then 0 else 1 else if r == 2 then 2 else 3
      else if r < 6 then if r == 4 then 4 else 5 else if r == 6 then 6 else 7
    else
      if r < 12 then if r < 10 then if r == 8 then 8 else 9 else if r == 10 then 10 else 11
      else if r < 14 then if r == 12 then 12 else 13 else if r == 14 then 14 else 15
  }

  lemma IndexOnce(r: Word, x: Word)
    requires r < 16 && x < 16 && Index(r) == Index(x)
    ensures r == x
  {
  }

  type Regs = s: seq<Word> | |s| == 16 witness seq(16, _ => 0)

  datatype Cpu = Cpu(regs: Regs, mem: Mem, carry: bool)

  function Reg(s: Cpu, r: Word): Word
    requires r < 16
  {
    s.regs[Index(r)]
  }

  function Set(s: Cpu, r: Word, v: Word): Cpu
    requires r < 16
  {
    s.(regs := s.regs[Index(r) := v])
  }

  /** Setting a register sets that register and no other one. */
  lemma SetReg(s: Cpu, r: Word, v: Word, x: Word)
    requires r < 16 && x < 16
    ensures Reg(Set(s, r, v), x) == if x == r then v else Reg(s, x)
  {
    hide Index;
    if x != r { assert Index(x) != Index(r) by { if Index(x) == Index(r) { IndexOnce(x, r); } } }
  }

  lemma SetSet(s: Cpu, r: Word, v: Word, w: Word)
    requires r < 16
    ensures Set(Set(s, r, v), r, w) == Set(s, r, w)
  {
    hide Index;
    assert s.regs[Index(r) := v][Index(r) := w] == s.regs[Index(r) := w];
  }

  function Plus(a: Word, b: Word): Word { a + b }

  function Ror(x: Word, n: Word): Word
    requires n < 32
  {
    if n == 0 then x else (x >> n) | (x << (32 - n))
  }

  function And(a: Word, b: Word): Word { a & b }
  function Eor(a: Word, b: Word): Word { a ^ b }
  function Minus(a: Word, b: Word): Word { a - b }
  function PlusCarry(a: Word, b: Word, carry: bool): Word { a + b + if carry then 1 else 0 }
  function MinusBorrow(a: Word, b: Word, carry: bool): Word { a - b - if carry then 0 else 1 }
  function Orr(a: Word, b: Word): Word { a | b }
  function Bic(a: Word, b: Word): Word { a & !b }
  function Not(b: Word): Word { !b }

  /** The operations of the data-processing instructions that do not set flags. */
  function Alu(op: Word, a: Word, b: Word, carry: bool): Word {
    if op == 0 then And(a, b)
    else if op == 1 then Eor(a, b)
    else if op == 2 then Minus(a, b)
    else if op == 3 then Minus(b, a)
    else if op == ADD then Plus(a, b)
    else if op == 5 then PlusCarry(a, b, carry)
    else if op == 6 then MinusBorrow(a, b, carry)
    else if op == 7 then MinusBorrow(b, a, carry)
    else if op == 12 then Orr(a, b)
    else if op == MOV then b
    else if op == 14 then Bic(a, b)
    else Not(b)
  }

  function Cond(w: Word): Word { w >> 28 }

  datatype Operand = Imm(value: Word) | Rm(reg: Word)
  datatype Decoded =
    | Push(reg: Word)
    | Pop(reg: Word)
    | DataProcessing(op: Word, rd: Word, rn: Word, operand: Operand)
    | Other                         // any other instruction

  predicate FourBits(o: Operand) { o.Rm? ==> o.reg < 16 }

  predicate InRange(d: Decoded) {
    match d
    case DataProcessing(_, rd, rn, operand) => rd < 16 && rn < 16 && FourBits(operand)
    case Push(r) => r < 16
    case Pop(r) => r < 16
    case Other => true
  }

  /** A data-processing instruction has bits 27 and 26 clear; here it does not set flags, and a register operand is not
      shifted. */
  predicate Plain(w: Word) { w & 0x0C10_0000 == 0 && (w & 0x0200_0000 != 0 || w & 0x0FF0 == 0) }

  function Decode(w: Word): (d: Decoded)
    ensures InRange(d)
  {
    if w & 0x0FFF_0FFF == 0x052D_0004 then Push((w >> 12) & 15)         // STR Rd, [SP, #-4]!
    else if w & 0x0FFF_0FFF == 0x049D_0004 then Pop((w >> 12) & 15)     // LDR Rd, [SP], #4
    else if !Plain(w) then Other
    else
      DataProcessing((w >> 21) & 15, (w >> 12) & 15, (w >> 16) & 15,
                     if w & 0x0200_0000 != 0 then Imm(Ror(w & 0xFF, ((w >> 8) & 15) << 1)) else Rm(w & 15))
  }

  function Value(o: Operand, s: Cpu): Word
    requires FourBits(o)
  {
    if o.Imm? then o.value else Reg(s, o.reg)
  }

  function Perform(d: Decoded, s: Cpu): Cpu
    requires InRange(d)
  {
    match d
    case Push(r) => Set(s, SP, Reg(s, SP) - 4).(mem := Stored(Reg(s, SP) - 4, Reg(s, r), s.mem))
    case Pop(r) => Set(Set(s, SP, Reg(s, SP) + 4), r, Load(s.mem, Reg(s, SP)))
    case DataProcessing(op, rd, rn, operand) => Set(s, rd, Alu(op, Reg(s, rn), Value(operand, s), s.carry))
    case Other => Cpu(seq(16, _ => 0), Unknown, false)    // nothing is known of the state after it
  }

  /** Execute one instruction.  `passed` says whether the condition of the code holds; condition 14 is "always". */
  function Execute(passed: bool, w: Word, s: Cpu): Cpu {
    if Cond(w) != 14 && !passed then s else Perform(Decode(w), s)
  }

  function Run(passed: bool, words: seq<Word>, s: Cpu): Cpu {
    if words == [] then s else Run(passed, words[1..], Execute(passed, words[0], s))
  }

  // ---- The encoders ----

  predicate Prefix(p: Word) { p & 0x0FFF_FFFF == 0 && p >> 28 != 15 }

  function Imm8Rotate(prefix: Word, op: Word, dreg: Word, sreg: Word, imm: Word, rotate: Word): Word {
    prefix | 0x0200_0000 | (op << 21) | (dreg << 12) | (sreg << 16) | (rotate << 8) | (imm & 0xFF)
  }

  function RegReg(prefix: Word, op: Word, dreg: Word, sreg1: Word, sreg2: Word): Word {
    prefix | (op << 21) | (dreg << 12) | (sreg1 << 16) | sreg2
  }

  function PushReg(reg: Word): Word { 0xE520_0004 | (SP << 16) | (reg << 12) }
  function PopReg(reg: Word): Word { 0xE490_0004 | (SP << 16) | (reg << 12) }

  lemma Imm8Decodes(prefix: Word, op: Word, dreg: Word, sreg: Word, imm: Word, rotate: Word)
    requires Prefix(prefix) && op < 16 && dreg < 16 && sreg < 16 && imm < 256 && rotate < 16
    ensures var w := Imm8Rotate(prefix, op, dreg, sreg, imm, rotate);
      Cond(w) == prefix >> 28 && Decode(w) == DataProcessing(op, dreg, sreg, Imm(Ror(imm, rotate << 1)))
  {
  }

  lemma RegDecodes(prefix: Word, op: Word, dreg: Word, sreg1: Word, sreg2: Word)
    requires Prefix(prefix) && op < 16 && dreg < 16 && sreg1 < 16 && sreg2 < 16
    ensures var w := RegReg(prefix, op, dreg, sreg1, sreg2);
      Cond(w) == prefix >> 28 && Decode(w) == DataProcessing(op, dreg, sreg1, Rm(sreg2))
  {
  }

  lemma StackDecodes(reg: Word)
    requires reg < 16
    ensures Cond(PushReg(reg)) == 14 && Decode(PushReg(reg)) == Push(reg)
    ensures Cond(PopReg(reg)) == 14 && Decode(PopReg(reg)) == Pop(reg)
  {
  }

  // ---- Bytes in rotated positions ----

  predicate Position(bit: Word) { bit <= 24 && bit & 1 == 0 }

  predicate Fits(v: Word, bit: Word)
    requires bit <= 24
  {
    v & (0xFF << bit) == v
  }

  function Rotation(bit: Word): Word { (16 - (bit >> 1)) & 15 }

  lemma RotatedByte(v: Word, bit: Word)
    requires Position(bit) && Fits(v, bit)
    ensures Ror((v >> bit) & 0xFF, Rotation(bit) << 1) == v && Rotation(bit) < 16
  {
  }

  /** The byte at a position, in place and moved down. */
  function Part(v: Word, shift: Word): Word
    requires shift <= 24
  {
    v & (0xFF << shift)
  }

  function ByteOf(v: Word, shift: Word): (r: Word)
    requires shift <= 24
    ensures r < 256
  {
    (v >> shift) & 0xFF
  }

  lemma Bytes(v: Word)
    ensures Ror(ByteOf(v, 24), 4 << 1) == Part(v, 24) && Ror(ByteOf(v, 16), 8 << 1) == Part(v, 16)
    ensures Ror(ByteOf(v, 8), 12 << 1) == Part(v, 8) && Ror(ByteOf(v, 0), 0 << 1) == Part(v, 0)
  {
  }

  lemma OneByte(v: Word)
    requires !Fits(v, 0) && !Fits(v, 8) && !Fits(v, 16) && !Fits(v, 24)
    ensures Part(v, 24) != 0 ==> Part(v, 16) != 0 || Part(v, 8) != 0 || Part(v, 0) != 0
    ensures Part(v, 24) == 0 && Part(v, 16) != 0 ==> Part(v, 8) != 0 || Part(v, 0) != 0
    ensures Part(v, 24) == 0 && Part(v, 16) == 0 ==> Part(v, 8) != 0 && Part(v, 0) != 0
  {
  }

  /** The bit positions that the loops try, in order. */
  const POSITIONS: seq<Word> := [0, 2, 4, 6, 8, 10, 12, 14, 16, 18, 20, 22, 24]

  lemma PositionAt(i: nat)
    requires i < 13
    ensures Position(POSITIONS[i])
  {
  }

  /** The first position from the `i`th on where the value is a byte; 13 if there is none. */
  function FirstFit(v: Word, i: nat): (r: nat)
    requires i <= 13
    ensures i <= r <= 13 && (r < 13 ==> Position(POSITIONS[r]) && Fits(v, POSITIONS[r]))
    ensures forall k :: i <= k < r ==> Position(POSITIONS[k]) && !Fits(v, POSITIONS[k])
    decreases 13 - i
  {
    if i == 13 then 13
    else
      PositionAt(i);
      if Fits(v, POSITIONS[i]) then i else FirstFit(v, i + 1)
  }

  /** `arm_is_complex_imm` in one expression: neither the value nor its complement is a byte in some position. */
  predicate Complex(v: Word) { FirstFit(v, 0) == 13 && FirstFit(!v, 0) == 13 }

  // ---- Moving an immediate ----

  /** One instruction for a byte in some position. */
  function ByteWord(prefix: Word, op: Word, dreg: Word, sreg: Word, v: Word, bit: Word): Word
    requires bit <= 24
  {
    Imm8Rotate(prefix, op, dreg, sreg, ByteOf(v, bit), Rotation(bit))
  }

  /** Add a byte of the value, if it is not zero. */
  function AddByte(prefix: Word, reg: Word, v: Word, shift: Word, rotate: Word): seq<Word>
    requires shift <= 24
  {
    if Part(v, shift) == 0 then [] else [Imm8Rotate(prefix, ADD, reg, reg, ByteOf(v, shift), rotate)]
  }

  function MovByte(prefix: Word, reg: Word, v: Word, shift: Word, rotate: Word): seq<Word>
    requires shift <= 24
  {
    [Imm8Rotate(prefix, MOV, reg, 0, ByteOf(v, shift), rotate)]
  }

  /** "Build the value the hard way, byte by byte." */
  function HardWords(prefix: Word, reg: Word, v: Word): seq<Word> {
    var x, y, z := AddByte(prefix, reg, v, 16, 8), AddByte(prefix, reg, v, 8, 12), AddByte(prefix, reg, v, 0, 0);
    if Part(v, 24) != 0 then MovByte(prefix, reg, v, 24, 4) + x + y + z
    else if Part(v, 16) != 0 then MovByte(prefix, reg, v, 16, 8) + y + z
    else if Part(v, 8) != 0 then MovByte(prefix, reg, v, 8, 12) + z
    else MovByte(prefix, reg, v, 0, 0)
  }

  function MovWords(prefix: Word, reg: Word, v: Word): seq<Word> {
    var i, j := FirstFit(v, 0), FirstFit(!v, 0);
    if i < 13 then [ByteWord(prefix, MOV, reg, 0, v, POSITIONS[i])]
    else if j < 13 then [ByteWord(prefix, MVN, reg, 0, !v, POSITIONS[j])]
    else HardWords(prefix, reg, v)
  }

  predicate Running(passed: bool, prefix: Word) { passed || prefix >> 28 == 14 }

  /** The result of code that sets `r` to `v`, or of code that is not executed. */
  function Outcome(running: bool, s: Cpu, r: Word, v: Word): Cpu
    requires r < 16
  {
    if running then Set(s, r, v) else s
  }

  lemma ByteRuns(passed: bool, prefix: Word, op: Word, dreg: Word, sreg: Word, imm: Word, rotate: Word, s: Cpu)
    requires Prefix(prefix) && op < 16 && dreg < 16 && sreg < 16 && imm < 256 && rotate < 16
    ensures Execute(passed, Imm8Rotate(prefix, op, dreg, sreg, imm, rotate), s)
         == Outcome(Running(passed, prefix), s, dreg, Alu(op, Reg(s, sreg), Ror(imm, rotate << 1), s.carry))
  {
    Imm8Decodes(prefix, op, dreg, sreg, imm, rotate);
    hide Alu, Ror, Imm8Rotate, Cond, Set, Reg, Decode;
  }

  lemma RunOne(passed: bool, w: Word, rest: seq<Word>, s: Cpu)
    ensures Run(passed, [w] + rest, s) == Run(passed, rest, Execute(passed, w, s))
  {
    assert ([w] + rest)[1..] == rest;
  }

  lemma {:induction false} RunConcat(passed: bool, a: seq<Word>, b: seq<Word>, s: Cpu)
    ensures Run(passed, a + b, s) == Run(passed, b, Run(passed, a, s))
  {
    hide Execute;
    if a == [] {
      assert a + b == b;
    } else {
      assert (a + b)[1..] == a[1..] + b;
      RunConcat(passed, a[1..], b, Execute(passed, a[0], s));
    }
  }

  lemma AddByteRuns(passed: bool, prefix: Word, reg: Word, v: Word, shift: Word, rotate: Word, s: Cpu)
    requires Prefix(prefix) && reg < PC && shift <= 24 && rotate < 16
      && Ror(ByteOf(v, shift), rotate << 1) == Part(v, shift)
    ensures Run(passed, AddByte(prefix, reg, v, shift, rotate), s) ==
      if Part(v, shift) == 0 then s else Outcome(Running(passed, prefix), s, reg, Plus(Reg(s, reg), Part(v, shift)))
  {
    hide Execute, Imm8Rotate, Ror, Set, Reg, Plus, Part, ByteOf;
    ByteRuns(passed, prefix, ADD, reg, reg, ByteOf(v, shift), rotate, s);
    RunOne(passed, Imm8Rotate(prefix, ADD, reg, reg, ByteOf(v, shift), rotate), [], s);
  }

  lemma MovByteRuns(passed: bool, prefix: Word, reg: Word, v: Word, shift: Word, rotate: Word, s: Cpu)
    requires Prefix(prefix) && reg < PC && shift <= 24 && rotate < 16
      && Ror(ByteOf(v, shift), rotate << 1) == Part(v, shift)
    ensures Run(passed, MovByte(prefix, reg, v, shift, rotate), s)
      == Outcome(Running(passed, prefix), s, reg, Part(v, shift))
  {
    hide Execute, Imm8Rotate, Ror, Set, Reg, Part, ByteOf;
    ByteRuns(passed, prefix, MOV, reg, 0, ByteOf(v, shift), rotate, s);
    RunOne(passed, Imm8Rotate(prefix, MOV, reg, 0, ByteOf(v, shift), rotate), [], s);
  }

  /** Code that moves `a` to the register, and then code that adds `b`. */
  lemma Then(passed: bool, prefix: Word, reg: Word, x: seq<Word>, y: seq<Word>, s: Cpu, a: Word, b: Word)
    requires reg < PC && Run(passed, x, s) == Outcome(Running(passed, prefix), s, reg, a)
    requires var t := Run(passed, x, s);
      Run(passed, y, t) == if b == 0 then t else Outcome(Running(passed, prefix), t, reg, Plus(Reg(t, reg), b))
    ensures Run(passed, x + y, s) == Outcome(Running(passed, prefix), s, reg, Plus(a, b))
  {
    hide Run, Set, Reg, Plus, Running;
    RunConcat(passed, x, y, s);
    SetReg(s, reg, a, reg);
    SetSet(s, reg, a, Plus(a, b));
    assert b == 0 ==> Plus(a, b) == a by { PlusZero(a); }
  }

  lemma PlusZero(a: Word)
    ensures Plus(a, 0) == a
  {
  }

  lemma SumFour(v: Word)
    ensures Plus(Plus(Plus(Part(v, 24), Part(v, 16)), Part(v, 8)), Part(v, 0)) == v
  {
  }

  lemma SumThree(v: Word)
    requires Part(v, 24) == 0
    ensures Plus(Plus(Part(v, 16), Part(v, 8)), Part(v, 0)) == v
  {
  }

  lemma SumTwo(v: Word)
    requires Part(v, 24) == 0 && Part(v, 16) == 0
    ensures Plus(Part(v, 8), Part(v, 0)) == v && (Part(v, 8) == 0 ==> Part(v, 0) == v)
  {
  }

  lemma PartialSums(v: Word)
    ensures Plus(Plus(Plus(Part(v, 24), Part(v, 16)), Part(v, 8)), Part(v, 0)) == v
    ensures Part(v, 24) == 0 ==> Plus(Plus(Part(v, 16), Part(v, 8)), Part(v, 0)) == v
    ensures Part(v, 24) == 0 && Part(v, 16) == 0 ==> Plus(Part(v, 8), Part(v, 0)) == v
    ensures Part(v, 24) == 0 && Part(v, 16) == 0 && Part(v, 8) == 0 ==> Part(v, 0) == v
  {
    hide Part, Plus;
    SumFour(v);
    if Part(v, 24) == 0 {
      SumThree(v);
      if Part(v, 16) == 0 { SumTwo(v); }
    }
  }

  /** The bytes of the value, added up one after the other. */
  lemma HardRuns(passed: bool, prefix: Word, reg: Word, v: Word, s: Cpu)
    requires Prefix(prefix) && reg < PC
    ensures Run(passed, HardWords(prefix, reg, v), s) == Outcome(Running(passed, prefix), s, reg, v)
  {
    hide Ror, Set, Reg, AddByte, MovByte, Outcome, Run, Plus, Running, Part, ByteOf, Prefix;
    Bytes(v);
    PartialSums(v);
    var x, y, z := AddByte(prefix, reg, v, 16, 8), AddByte(prefix, reg, v, 8, 12), AddByte(prefix, reg, v, 0, 0);
    if Part(v, 24) != 0 {
      var w := MovByte(prefix, reg, v, 24, 4);
      MovByteRuns(passed, prefix, reg, v, 24, 4, s);
      AddByteRuns(passed, prefix, reg, v, 16, 8, Run(passed, w, s));
      Then(passed, prefix, reg, w, x, s, Part(v, 24), Part(v, 16));
      AddByteRuns(passed, prefix, reg, v, 8, 12, Run(passed, w + x, s));
      Then(passed, prefix, reg, w + x, y, s, Plus(Part(v, 24), Part(v, 16)), Part(v, 8));
      AddByteRuns(passed, prefix, reg, v, 0, 0, Run(passed, w + x + y, s));
      Then(passed, prefix, reg, w + x + y, z, s, Plus(Plus(Part(v, 24), Part(v, 16)), Part(v, 8)), Part(v, 0));
    } else if Part(v, 16) != 0 {
      var w := MovByte(prefix, reg, v, 16, 8);
      MovByteRuns(passed, prefix, reg, v, 16, 8, s);
      AddByteRuns(passed, prefix, reg, v, 8, 12, Run(passed, w, s));
      Then(passed, prefix, reg, w, y, s, Part(v, 16), Part(v, 8));
      AddByteRuns(passed, prefix, reg, v, 0, 0, Run(passed, w + y, s));
      Then(passed, prefix, reg, w + y, z, s, Plus(Part(v, 16), Part(v, 8)), Part(v, 0));
    } else if Part(v, 8) != 0 {
      var w := MovByte(prefix, reg, v, 8, 12);
      MovByteRuns(passed, prefix, reg, v, 8, 12, s);
      AddByteRuns(passed, prefix, reg, v, 0, 0, Run(passed, w, s));
      Then(passed, prefix, reg, w, z, s, Part(v, 8), Part(v, 0));
    } else {
      MovByteRuns(passed, prefix, reg, v, 0, 0, s);
    }
  }

  lemma FitRuns(passed: bool, prefix: Word, op: Word, reg: Word, v: Word, bit: Word, s: Cpu)
    requires Prefix(prefix) && reg < PC && op < 16 && Position(bit) && Fits(v, bit)
    ensures Run(passed, [ByteWord(prefix, op, reg, 0, v, bit)], s)
      == Outcome(Running(passed, prefix), s, reg, Alu(op, Reg(s, 0), v, s.carry))
  {
    RotatedByte(v, bit);
    hide Execute, Imm8Rotate, Ror, Set, Reg, ByteOf, Rotation, Alu, Fits;
    ByteRuns(passed, prefix, op, reg, 0, ByteOf(v, bit), Rotation(bit), s);
    RunOne(passed, ByteWord(prefix, op, reg, 0, v, bit), [], s);
  }

  lemma MovMvn(a: Word, v: Word, carry: bool)
    ensures Alu(MOV, a, v, carry) == v && Alu(MVN, a, !v, carry) == v
  {
  }

  /** The code leaves exactly the value in the register and nothing else changed. */
  lemma MovRuns(passed: bool, prefix: Word, reg: Word, v: Word, s: Cpu)
    requires Prefix(prefix) && reg < PC
    ensures Run(passed, MovWords(prefix, reg, v), s) == Outcome(Running(passed, prefix), s, reg, v)
  {
    hide Run, HardWords, ByteWord, Outcome, Running, Set, Reg, Alu, Prefix, FirstFit, Fits, Position;
    var i, j := FirstFit(v, 0), FirstFit(!v, 0);
    MovMvn(Reg(s, 0), v, s.carry);
    if i < 13 {
      FitRuns(passed, prefix, MOV, reg, v, POSITIONS[i], s);
    } else if j < 13 {
      FitRuns(passed, prefix, MVN, reg, !v, POSITIONS[j], s);
    } else {
      HardRuns(passed, prefix, reg, v, s);
    }
  }

  /** How many of the four bytes are not zero. */
  function BytesOf(v: Word): nat {
    (if Part(v, 24) == 0 then 0 else 1) + (if Part(v, 16) == 0 then 0 else 1)
    + (if Part(v, 8) == 0 then 0 else 1) + (if Part(v, 0) == 0 then 0 else 1)
  }

  /** One instruction if and only if the immediate is not complex; otherwise one for each byte that is not zero. */
  lemma MovLength(prefix: Word, reg: Word, v: Word)
    ensures |MovWords(prefix, reg, v)| == if Complex(v) then BytesOf(v) else 1
    ensures Complex(v) ==> 2 <= BytesOf(v) <= 4
  {
    hide Imm8Rotate, Part, ByteOf, Fits, FirstFit, Rotation, HardWords, BytesOf;
    if FirstFit(v, 0) == 13 {
      NoFit(v);
      HardLength(prefix, reg, v);
    }
  }

  lemma HardLength(prefix: Word, reg: Word, v: Word)
    requires !Fits(v, 0) && !Fits(v, 8) && !Fits(v, 16) && !Fits(v, 24)
    ensures 2 <= |HardWords(prefix, reg, v)| == BytesOf(v) <= 4
  {
    OneByte(v);
    hide Imm8Rotate, Part, ByteOf, Fits;
  }

  lemma NoFit(v: Word)
    requires FirstFit(v, 0) == 13
    ensures !Fits(v, 0) && !Fits(v, 8) && !Fits(v, 16) && !Fits(v, 24)
  {
    hide Fits, FirstFit;
    assert POSITIONS[0] == 0 && POSITIONS[4] == 8 && POSITIONS[8] == 16 && POSITIONS[12] == 24;
  }

  // ---- Operations with an immediate ----

  /** A register that the operation does not use. */
  function Temp(dreg: Word, sreg: Word): (t: Word)
    ensures t < SP && t != dreg && t != sreg
  {
    if dreg != R2 && sreg != R2 then R2 else if dreg != R3 && sreg != R3 then R3 else R4
  }

  function AluWords(prefix: Word, op: Word, dreg: Word, sreg: Word, imm: Word, saveWork: bool): seq<Word> {
    var i := FirstFit(imm, 0);
    if i < 13 then [ByteWord(prefix, op, dreg, sreg, imm, POSITIONS[i])]
    else if saveWork then
      var t := Temp(dreg, sreg);
      [PushReg(t)] + MovWords(prefix, t, imm) + [RegReg(prefix, op, dreg, sreg, t)] + [PopReg(t)]
    else
      MovWords(prefix, WORK, imm) + [RegReg(prefix, op, dreg, sreg, WORK)]
  }

  lemma FitAluRuns(passed: bool, prefix: Word, op: Word, dreg: Word, sreg: Word, v: Word, bit: Word, s: Cpu)
    requires Prefix(prefix) && dreg < PC && sreg < PC && op < 16 && Position(bit) && Fits(v, bit)
    ensures Run(passed, [ByteWord(prefix, op, dreg, sreg, v, bit)], s)
         == Outcome(Running(passed, prefix), s, dreg, Alu(op, Reg(s, sreg), v, s.carry))
  {
    RotatedByte(v, bit);
    hide Execute, Imm8Rotate, Ror, Set, Reg, ByteOf, Rotation, Alu, Fits;
    ByteRuns(passed, prefix, op, dreg, sreg, ByteOf(v, bit), Rotation(bit), s);
    RunOne(passed, ByteWord(prefix, op, dreg, sreg, v, bit), [], s);
  }

  lemma RegRuns(passed: bool, prefix: Word, op: Word, dreg: Word, sreg1: Word, sreg2: Word, s: Cpu)
    requires Prefix(prefix) && op < 16 && dreg < PC && sreg1 < PC && sreg2 < PC
    ensures Run(passed, [RegReg(prefix, op, dreg, sreg1, sreg2)], s)
         == Outcome(Running(passed, prefix), s, dreg, Alu(op, Reg(s, sreg1), Reg(s, sreg2), s.carry))
  {
    RegDecodes(prefix, op, dreg, sreg1, sreg2);
    hide Alu, Ror, RegReg, Cond, Set, Reg, Decode;
    RunOne(passed, RegReg(prefix, op, dreg, sreg1, sreg2), [], s);
  }

  function Pushed(s: Cpu, reg: Word): Cpu
    requires reg < 16
  {
    Set(s, SP, Reg(s, SP) - 4).(mem := Stored(Reg(s, SP) - 4, Reg(s, reg), s.mem))
  }

  function Popped(s: Cpu, reg: Word): Cpu
    requires reg < 16
  {
    Set(Set(s, SP, Reg(s, SP) + 4), reg, Load(s.mem, Reg(s, SP)))
  }

  lemma StackRuns(passed: bool, reg: Word, s: Cpu)
    requires reg < 16
    ensures Run(passed, [PushReg(reg)], s) == Pushed(s, reg) && Run(passed, [PopReg(reg)], s) == Popped(s, reg)
  {
    StackDecodes(reg);
    hide PushReg, PopReg, Cond, Set, Reg, Decode, Load;
    RunOne(passed, PushReg(reg), [], s);
    RunOne(passed, PopReg(reg), [], s);
  }

  /** Without `saveWork`, the work register holds the immediate afterwards. */
  lemma AluRunsWork(passed: bool, prefix: Word, op: Word, dreg: Word, sreg: Word, imm: Word, s: Cpu)
    requires Prefix(prefix) && dreg < PC && sreg < PC && op < 16 && FirstFit(imm, 0) == 13
    ensures var running := Running(passed, prefix);
      var s1 := Outcome(running, s, WORK, imm);
      Run(passed, AluWords(prefix, op, dreg, sreg, imm, false), s)
        == Outcome(running, s1, dreg, Alu(op, Reg(s1, sreg), Reg(s1, WORK), s1.carry))
  {
    hide FirstFit, MovWords, RegReg, Run, Set, Reg, Alu, Running;
    MovRuns(passed, prefix, WORK, imm, s);
    RegRuns(passed, prefix, op, dreg, sreg, WORK, Outcome(Running(passed, prefix), s, WORK, imm));
    RunConcat(passed, MovWords(prefix, WORK, imm), [RegReg(prefix, op, dreg, sreg, WORK)], s);
  }

  /** With it, a register is pushed, used for the immediate and popped. */
  lemma AluRunsSaved(passed: bool, prefix: Word, op: Word, dreg: Word, sreg: Word, imm: Word, s: Cpu)
    requires Prefix(prefix) && dreg < PC && sreg < PC && op < 16 && FirstFit(imm, 0) == 13
    ensures var running, t := Running(passed, prefix), Temp(dreg, sreg);
      var s1 := Outcome(running, Pushed(s, t), t, imm);
      Run(passed, AluWords(prefix, op, dreg, sreg, imm, true), s)
        == Popped(Outcome(running, s1, dreg, Alu(op, Reg(s1, sreg), Reg(s1, t), s1.carry)), t)
  {
    hide FirstFit, MovWords, RegReg, Run, Set, Reg, Alu, Running, Pushed, Popped, PushReg, PopReg, Temp;
    var running, t := Running(passed, prefix), Temp(dreg, sreg);
    var a, b, c, d := [PushReg(t)], MovWords(prefix, t, imm), [RegReg(prefix, op, dreg, sreg, t)], [PopReg(t)];
    var s0 := Pushed(s, t);
    var s1 := Outcome(running, s0, t, imm);
    var s2 := Outcome(running, s1, dreg, Alu(op, Reg(s1, sreg), Reg(s1, t), s1.carry));
    StackRuns(passed, t, s);
    MovRuns(passed, prefix, t, imm, s0);
    RegRuns(passed, prefix, op, dreg, sreg, t, s1);
    StackRuns(passed, t, s2);
    RunConcat(passed, a, b, s);
    RunConcat(passed, a + b, c, s);
    RunConcat(passed, a + b + c, d, s);
  }

  /** Operation codes 8 to 11 only set flags: without the S bit they are other instructions. */
  predicate Computes(op: Word) { op < 16 && !(8 <= op <= 11) }

  function Down(a: Word): Word { a - 4 }
  function Up(a: Word): Word { a + 4 }

  /** What the operation sees of its source register in the code for a complex immediate: the stack pointer is lowered
      by the push, and the work register holds the immediate. */
  function Seen(sreg: Word, imm: Word, saveWork: bool, s: Cpu): Word
    requires sreg < PC
  {
    if saveWork && sreg == SP then Down(Reg(s, SP)) else if !saveWork && sreg == WORK then imm else Reg(s, sreg)
  }

  /** What that code leaves in register `x` if it is executed. */
  function Left(op: Word, dreg: Word, sreg: Word, imm: Word, saveWork: bool, s: Cpu, x: Word): Word
    requires dreg < PC && sreg < PC && x < PC
  {
    var v, t := Alu(op, Seen(sreg, imm, saveWork, s), imm, s.carry), Temp(dreg, sreg);
    if x == dreg then (if saveWork && dreg == SP then Up(v) else v)
    else if saveWork && dreg == SP && x == t then Load(Stored(Down(Reg(s, SP)), Reg(s, t), s.mem), v)
    else if !saveWork && x == WORK then imm
    else Reg(s, x)
  }

  /** What the code does to every register and to memory, for all operands and states. */
  lemma AluRuns(passed: bool, prefix: Word, op: Word, dreg: Word, sreg: Word, imm: Word, saveWork: bool, s: Cpu,
                x: Word)
    requires Prefix(prefix) && dreg < PC && sreg < PC && Computes(op) && x < PC
    ensures Reg(Run(passed, AluWords(prefix, op, dreg, sreg, imm, saveWork), s), x) ==
      if !Running(passed, prefix) then Reg(s, x)
      else if FirstFit(imm, 0) == 13 then Left(op, dreg, sreg, imm, saveWork, s, x)
      else if x == dreg then Alu(op, Reg(s, sreg), imm, s.carry)
      else Reg(s, x)
    ensures var t, temp := Run(passed, AluWords(prefix, op, dreg, sreg, imm, saveWork), s), Temp(dreg, sreg);
      t.mem == if FirstFit(imm, 0) == 13 && saveWork then Stored(Down(Reg(s, SP)), Reg(s, temp), s.mem) else s.mem
  {
    hide Run, Set, Reg, Alu, Running, FirstFit, ByteWord, AluWords, Up, Down;
    var running := Running(passed, prefix);
    if FirstFit(imm, 0) < 13 {
      OneWord(passed, prefix, op, dreg, sreg, imm, saveWork, s);
      OutcomeReg(running, s, dreg, Alu(op, Reg(s, sreg), imm, s.carry), x);
    } else if saveWork {
      AluRunsSaved(passed, prefix, op, dreg, sreg, imm, s);
      SavedReg(running, op, dreg, sreg, imm, s, x);
    } else {
      AluRunsWork(passed, prefix, op, dreg, sreg, imm, s);
      var s1 := Outcome(running, s, WORK, imm);
      OutcomeReg(running, s, WORK, imm, x);
      OutcomeReg(running, s, WORK, imm, sreg);
      OutcomeReg(running, s, WORK, imm, WORK);
      OutcomeReg(running, s1, dreg, Alu(op, Reg(s1, sreg), Reg(s1, WORK), s1.carry), x);
    }
  }

  lemma SetCarry(s: Cpu, r: Word, v: Word)
    requires r < 16
    ensures Set(s, r, v).carry == s.carry && Set(s, r, v).mem == s.mem
  {
  }

  lemma OneWord(passed: bool, prefix: Word, op: Word, dreg: Word, sreg: Word, imm: Word, saveWork: bool, s: Cpu)
    requires Prefix(prefix) && dreg < PC && sreg < PC && op < 16 && FirstFit(imm, 0) < 13
    ensures Run(passed, AluWords(prefix, op, dreg, sreg, imm, saveWork), s)
         == Outcome(Running(passed, prefix), s, dreg, Alu(op, Reg(s, sreg), imm, s.carry))
  {
    hide Run, Set, Reg, Alu, Running, ByteWord, FirstFit;
    FitAluRuns(passed, prefix, op, dreg, sreg, imm, POSITIONS[FirstFit(imm, 0)], s);
  }

  lemma DownUp(a: Word)
    ensures Up(Down(a)) == a
  {
  }

  lemma PushedReg(s: Cpu, t: Word, x: Word)
    requires t < SP && x < PC
    ensures Reg(Pushed(s, t), x) == (if x == SP then Down(Reg(s, SP)) else Reg(s, x)) && Pushed(s, t).carry == s.carry
    ensures Pushed(s, t).mem == Stored(Down(Reg(s, SP)), Reg(s, t), s.mem)
  {
    SetReg(s, SP, Reg(s, SP) - 4, x);
  }

  lemma PoppedReg(s: Cpu, t: Word, x: Word)
    requires t < SP && x < PC
    ensures Reg(Popped(s, t), x)
      == (if x == t then Load(s.mem, Reg(s, SP)) else if x == SP then Up(Reg(s, SP)) else Reg(s, x))
    ensures Popped(s, t).mem == s.mem
  {
    SetCarry(s, SP, Reg(s, SP) + 4);
    SetCarry(Set(s, SP, Reg(s, SP) + 4), t, Load(s.mem, Reg(s, SP)));
    hide Load, Set, Reg;
    SetReg(s, SP, Reg(s, SP) + 4, x);
    SetReg(Set(s, SP, Reg(s, SP) + 4), t, Load(s.mem, Reg(s, SP)), x);
  }

  lemma OutcomeReg(running: bool, s: Cpu, r: Word, v: Word, x: Word)
    requires r < 16 && x < 16
    ensures Reg(Outcome(running, s, r, v), x) == (if running && x == r then v else Reg(s, x))
    ensures Outcome(running, s, r, v).mem == s.mem && Outcome(running, s, r, v).carry == s.carry
  {
    hide Reg;
    SetReg(s, r, v, x);
  }

  lemma SavedReg(running: bool, op: Word, dreg: Word, sreg: Word, imm: Word, s: Cpu, x: Word)
    requires dreg < PC && sreg < PC && op < 16 && x < PC
    ensures var t := Temp(dreg, sreg);
      var s1 := Outcome(running, Pushed(s, t), t, imm);
      var s2 := Popped(Outcome(running, s1, dreg, Alu(op, Reg(s1, sreg), Reg(s1, t), s1.carry)), t);
      && Reg(s2, x) == (if running then Left(op, dreg, sreg, imm, true, s, x) else Reg(s, x))
      && s2.mem == Stored(Down(Reg(s, SP)), Reg(s, t), s.mem)
  {
    hide Set, Reg, Alu, Pushed, Popped, Temp, Outcome, Up, Down;
    var t := Temp(dreg, sreg);
    var s0 := Pushed(s, t);
    var s1 := Outcome(running, s0, t, imm);
    var v := Alu(op, Reg(s1, sreg), Reg(s1, t), s1.carry);
    var s2 := Outcome(running, s1, dreg, v);
    PushedReg(s, t, x); PushedReg(s, t, sreg); PushedReg(s, t, SP);
    OutcomeReg(running, s0, t, imm, x); OutcomeReg(running, s0, t, imm, sreg);
    OutcomeReg(running, s0, t, imm, t); OutcomeReg(running, s0, t, imm, SP);
    OutcomeReg(running, s1, dreg, v, x); OutcomeReg(running, s1, dreg, v, SP);
    PoppedReg(s2, t, x);
    DownUp(Reg(s, SP));
  }

  // ---- When the result is right, and when the other registers are kept ----

  /** The operation does not depend on those bits of its source that `mask` leaves out. */
  predicate Ignores(op: Word, imm: Word, mask: Word) {
    op == MOV || op == MVN || ((op == 12 || op == 14) && imm >= mask)
  }

  /** The stack pointer as source and destination comes out right: what the push takes away the pop adds again. */
  predicate Evens(op: Word, imm: Word) {
    || op == 2 || op == ADD || op == 5 || op == 6 || (op == 0 && imm >= 0xFFFF_FFFC)
    || (op == 1 && 0x8000_0000 <= imm < 0x8000_0004)
  }

  /** The destination gets the result of the operation, in all states. */
  predicate Right(op: Word, dreg: Word, sreg: Word, imm: Word, saveWork: bool) {
    || FirstFit(imm, 0) < 13
    || if !saveWork then sreg != WORK || Ignores(op, imm, 0xFFFF_FFFF)
       else if dreg == SP then sreg == SP && Evens(op, imm)
       else sreg != SP || Ignores(op, imm, 0xFFFF_FFFC)
  }

  /** All other registers keep their values, in all states; the work register if it is to be saved. */
  predicate Keeps(op: Word, dreg: Word, sreg: Word, imm: Word, saveWork: bool) {
    FirstFit(imm, 0) < 13 || !saveWork || dreg != SP || (sreg == SP && op == 0 && imm == 0xFFFF_FFFF)
  }

  predicate RightAt(passed: bool, prefix: Word, op: Word, dreg: Word, sreg: Word, imm: Word, saveWork: bool, s: Cpu)
    requires dreg < PC && sreg < PC
  {
    Reg(Run(passed, AluWords(prefix, op, dreg, sreg, imm, saveWork), s), dreg) == Alu(op, Reg(s, sreg), imm, s.carry)
  }

  ghost predicate KeptAt(passed: bool, prefix: Word, op: Word, dreg: Word, sreg: Word, imm: Word, saveWork: bool,
                         s: Cpu)
    requires dreg < PC && sreg < PC
  {
    forall x :: x < PC && x != dreg && (x != WORK || saveWork) ==>
      Reg(Run(passed, AluWords(prefix, op, dreg, sreg, imm, saveWork), s), x) == Reg(s, x)
  }

  /** Exactly when the code computes what it is for. */
  lemma RightIff(prefix: Word, op: Word, dreg: Word, sreg: Word, imm: Word, saveWork: bool)
    requires Prefix(prefix) && dreg < PC && sreg < PC && Computes(op)
    ensures (forall passed: bool, s: Cpu ::
               Running(passed, prefix) ==> RightAt(passed, prefix, op, dreg, sreg, imm, saveWork, s))
       <==> Right(op, dreg, sreg, imm, saveWork)
  {
    hide Right, RightAt;
    if Right(op, dreg, sreg, imm, saveWork) {
      forall passed: bool, s: Cpu | Running(passed, prefix)
        ensures RightAt(passed, prefix, op, dreg, sreg, imm, saveWork, s)
      {
        RightResult(passed, prefix, op, dreg, sreg, imm, saveWork, s);
      }
    } else {
      var s := WrongResult(prefix, op, dreg, sreg, imm, saveWork);
    }
  }

  lemma RightResult(passed: bool, prefix: Word, op: Word, dreg: Word, sreg: Word, imm: Word, saveWork: bool, s: Cpu)
    requires Prefix(prefix) && dreg < PC && sreg < PC && Computes(op) && Running(passed, prefix)
    requires Right(op, dreg, sreg, imm, saveWork)
    ensures RightAt(passed, prefix, op, dreg, sreg, imm, saveWork, s)
  {
    hide Run, Reg, Alu, FirstFit, AluWords, Temp, Right, Left, Prefix, Running, Computes;
    LeftRight(op, dreg, sreg, imm, saveWork, s);
    AluRuns(passed, prefix, op, dreg, sreg, imm, saveWork, s, dreg);
  }

  lemma WrongResult(prefix: Word, op: Word, dreg: Word, sreg: Word, imm: Word, saveWork: bool) returns (s: Cpu)
    requires Prefix(prefix) && dreg < PC && sreg < PC && Computes(op) && !Right(op, dreg, sreg, imm, saveWork)
    ensures Running(true, prefix) && !RightAt(true, prefix, op, dreg, sreg, imm, saveWork, s)
  {
    hide Run, Reg, Alu, FirstFit, AluWords, Temp, Ignores, Evens;
    NotSmall(imm);
    var a := WrongSource(op, dreg, sreg, imm, saveWork);
    s := Uniform(a, false);
    UniformReg(a, false, sreg);
    UniformReg(a, false, SP);
    AluRuns(true, prefix, op, dreg, sreg, imm, saveWork, s, dreg);
  }

  /** Exactly when the code changes nothing else. */
  lemma KeepsIff(prefix: Word, op: Word, dreg: Word, sreg: Word, imm: Word, saveWork: bool)
    requires Prefix(prefix) && dreg < PC && sreg < PC && Computes(op)
    ensures (forall passed: bool, s: Cpu ::
               Running(passed, prefix) ==> KeptAt(passed, prefix, op, dreg, sreg, imm, saveWork, s))
       <==> Keeps(op, dreg, sreg, imm, saveWork)
  {
    hide Run, Reg, Alu, FirstFit, AluWords, Temp, Left, Prefix, Computes;
    if Keeps(op, dreg, sreg, imm, saveWork) {
      forall passed: bool, s: Cpu, x | Running(passed, prefix) && x < PC && x != dreg && (x != WORK || saveWork)
        ensures Reg(Run(passed, AluWords(prefix, op, dreg, sreg, imm, saveWork), s), x) == Reg(s, x)
      {
        LeftKept(op, dreg, sreg, imm, saveWork, s, x);
        AluRuns(passed, prefix, op, dreg, sreg, imm, saveWork, s, x);
      }
    } else {
      var s := LostRegister(prefix, op, sreg, imm);
      assert Running(true, prefix) && !KeptAt(true, prefix, op, dreg, sreg, imm, saveWork, s);
    }
  }

  lemma LostRegister(prefix: Word, op: Word, sreg: Word, imm: Word) returns (s: Cpu)
    requires Prefix(prefix) && sreg < PC && Computes(op) && FirstFit(imm, 0) == 13
    requires !(sreg == SP && op == 0 && imm == 0xFFFF_FFFF)
    ensures var t := Temp(SP, sreg); Reg(Run(true, AluWords(prefix, op, SP, sreg, imm, true), s), t) != Reg(s, t)
  {
    hide Run, Reg, Alu, FirstFit, AluWords, Temp, Load, Up, Down, Seen;
    var t := Temp(SP, sreg);
    NotSmall(imm);
    s := Lost(op, sreg, imm, t);
    AluRuns(true, prefix, op, SP, sreg, imm, true, s, t);
    NothingThere(Down(Reg(s, SP)), Reg(s, t), Alu(op, Seen(sreg, imm, true, s), imm, s.carry));
  }

  lemma NothingThere(at: Word, value: Word, v: Word)
    ensures v != at ==> Load(Stored(at, value, Unknown), v) == 0
  {
  }

  lemma LeftRight(op: Word, dreg: Word, sreg: Word, imm: Word, saveWork: bool, s: Cpu)
    requires dreg < PC && sreg < PC && Right(op, dreg, sreg, imm, saveWork)
    ensures FirstFit(imm, 0) == 13 ==>
      Left(op, dreg, sreg, imm, saveWork, s, dreg) == Alu(op, Reg(s, sreg), imm, s.carry)
  {
    hide Alu, Reg, FirstFit, Temp, Ignores, Evens, Load, Up, Down;
    SourceIgnored(op, Reg(s, sreg), imm, s.carry);
    LowerIgnored(op, Reg(s, sreg), imm, s.carry);
    EvensOut(op, Reg(s, sreg), imm, s.carry);
  }

  lemma LeftKept(op: Word, dreg: Word, sreg: Word, imm: Word, saveWork: bool, s: Cpu, x: Word)
    requires dreg < PC && sreg < PC && Keeps(op, dreg, sreg, imm, saveWork)
    requires x < PC && x != dreg && (x != WORK || saveWork)
    ensures FirstFit(imm, 0) == 13 ==> Left(op, dreg, sreg, imm, saveWork, s, x) == Reg(s, x)
  {
    hide Alu, Reg, FirstFit, Temp;
    AndAll(Down(Reg(s, SP)), s.carry);
  }

  lemma NotSmall(imm: Word)
    requires FirstFit(imm, 0) == 13
    ensures imm >= 256
  {
    NoFit(imm);
  }

  lemma LowerIgnored(op: Word, a: Word, imm: Word, carry: bool)
    ensures Ignores(op, imm, 0xFFFF_FFFC) ==> Alu(op, Down(a), imm, carry) == Alu(op, a, imm, carry)
  {
    OrrBicIgnore(a, imm);
    hide Up, Down, And, Eor, Minus, Plus, PlusCarry, MinusBorrow, Orr, Bic, Not;
  }

  lemma OrrBicIgnore(a: Word, imm: Word)
    ensures imm >= 0xFFFF_FFFC ==> Orr(Down(a), imm) == Orr(a, imm) && Bic(Down(a), imm) == Bic(a, imm)
    ensures imm == 0xFFFF_FFFF ==> Orr(imm, imm) == Orr(a, imm) && Bic(imm, imm) == Bic(a, imm)
  {
  }

  lemma SourceIgnored(op: Word, a: Word, imm: Word, carry: bool)
    ensures Ignores(op, imm, 0xFFFF_FFFF) ==> Alu(op, imm, imm, carry) == Alu(op, a, imm, carry)
  {
    OrrBicIgnore(a, imm);
    hide Up, Down, And, Eor, Minus, Plus, PlusCarry, MinusBorrow, Orr, Bic, Not;
  }

  lemma EvensOut(op: Word, a: Word, imm: Word, carry: bool)
    ensures Evens(op, imm) ==> Up(Alu(op, Down(a), imm, carry)) == Alu(op, a, imm, carry)
  {
    AndEvens(a, imm);
    EorEvens(a, imm);
    MinusEvens(a, imm);
    PlusEvens(a, imm);
    PlusCarryEvens(a, imm, carry);
    MinusBorrowEvens(a, imm, carry);
    hide And, Eor, Minus, Plus, PlusCarry, MinusBorrow, Orr, Bic, Not;
  }

  lemma AndEvens(a: Word, imm: Word)
    ensures imm >= 0xFFFF_FFFC ==> And(a - 4, imm) + 4 == And(a, imm)
  {
  }

  lemma EorEvens(a: Word, imm: Word)
    ensures 0x8000_0000 <= imm < 0x8000_0004 ==> Eor(a - 4, imm) + 4 == Eor(a, imm)
  {
  }

  lemma MinusEvens(a: Word, imm: Word)
    ensures Minus(a - 4, imm) + 4 == Minus(a, imm)
  {
  }

  lemma PlusEvens(a: Word, imm: Word)
    ensures Plus(a - 4, imm) + 4 == Plus(a, imm)
  {
  }

  lemma PlusCarryEvens(a: Word, imm: Word, carry: bool)
    ensures PlusCarry(a - 4, imm, carry) + 4 == PlusCarry(a, imm, carry)
  {
  }

  lemma MinusBorrowEvens(a: Word, imm: Word, carry: bool)
    ensures MinusBorrow(a - 4, imm, carry) + 4 == MinusBorrow(a, imm, carry)
  {
  }

  lemma AndAll(a: Word, carry: bool)
    ensures Alu(0, a, 0xFFFF_FFFF, carry) == a
  {
  }

  /** A value of the source for which the result is wrong. */
  lemma WrongSource(op: Word, dreg: Word, sreg: Word, imm: Word, saveWork: bool) returns (a: Word)
    requires Computes(op) && imm >= 256 && !Right(op, dreg, sreg, imm, saveWork)
    ensures var seen := if sreg == SP && saveWork then Down(a) else if sreg == WORK && !saveWork then imm else a;
      var v := Alu(op, seen, imm, false);
      (if saveWork && dreg == SP then Up(v) else v) != Alu(op, a, imm, false)
  {
    if !saveWork {
      a := WorkWitness(op, imm);
    } else if dreg == SP {
      a := 0;
      if sreg == SP { EvensWitness(op, imm); } else { FourMore(Alu(op, a, imm, false)); }
    } else {
      a := LowerWitness(op, imm);
    }
  }

  lemma FourMore(a: Word)
    ensures Up(a) != a
  {
  }

  lemma LowerWitness(op: Word, imm: Word) returns (a: Word)
    requires Computes(op) && imm >= 256 && !Ignores(op, imm, 0xFFFF_FFFC)
    ensures Alu(op, Down(a), imm, false) != Alu(op, a, imm, false)
  {
    a := if op == 0 then imm else if op == 12 || op == 14 then !imm else 0;
    LowerLogic(imm);
    LowerSums(imm);
    hide Up, Down, And, Eor, Minus, Plus, PlusCarry, MinusBorrow, Orr, Bic, Not;
  }

  lemma LowerLogic(imm: Word)
    requires imm >= 256
    ensures And(Down(imm), imm) != And(imm, imm) && Eor(Down(0), imm) != Eor(0, imm)
    ensures imm < 0xFFFF_FFFC ==> Orr(Down(!imm), imm) != Orr(!imm, imm) && Bic(Down(!imm), imm) != Bic(!imm, imm)
  {
  }

  lemma LowerSums(imm: Word)
    ensures Minus(Down(0), imm) != Minus(0, imm) && Minus(imm, Down(0)) != Minus(imm, 0)
    ensures Plus(Down(0), imm) != Plus(0, imm) && PlusCarry(Down(0), imm, false) != PlusCarry(0, imm, false)
    ensures MinusBorrow(Down(0), imm, false) != MinusBorrow(0, imm, false)
    ensures MinusBorrow(imm, Down(0), false) != MinusBorrow(imm, 0, false)
  {
  }

  lemma WorkWitness(op: Word, imm: Word) returns (a: Word)
    requires Computes(op) && imm >= 256 && !Ignores(op, imm, 0xFFFF_FFFF)
    ensures Alu(op, imm, imm, false) != Alu(op, a, imm, false)
  {
    a := if op == 12 || op == 14 then !imm else 0;
    WorkLogic(imm);
    WorkSums(imm);
    hide Up, Down, And, Eor, Minus, Plus, PlusCarry, MinusBorrow, Orr, Bic, Not;
  }

  lemma WorkLogic(imm: Word)
    requires imm != 0
    ensures And(imm, imm) != And(0, imm) && Eor(imm, imm) != Eor(0, imm)
    ensures imm != 0xFFFF_FFFF ==> Orr(imm, imm) != Orr(!imm, imm) && Bic(imm, imm) != Bic(!imm, imm)
  {
  }

  lemma WorkSums(imm: Word)
    requires imm != 0
    ensures Minus(imm, imm) != Minus(0, imm) && Minus(imm, imm) != Minus(imm, 0) && Plus(imm, imm) != Plus(0, imm)
    ensures PlusCarry(imm, imm, false) != PlusCarry(0, imm, false)
    ensures MinusBorrow(imm, imm, false) != MinusBorrow(0, imm, false)
    ensures MinusBorrow(imm, imm, false) != MinusBorrow(imm, 0, false)
  {
  }

  lemma EvensWitness(op: Word, imm: Word)
    requires Computes(op) && imm >= 256 && !Evens(op, imm)
    ensures Up(Alu(op, Down(0), imm, false)) != Alu(op, 0, imm, false)
  {
    UnevenLogic(imm);
    UnevenSums(imm);
    hide Up, Down, And, Eor, Minus, Plus, PlusCarry, MinusBorrow, Orr, Bic, Not;
  }

  lemma UnevenLogic(imm: Word)
    requires imm >= 256
    ensures imm < 0xFFFF_FFFC ==> Up(And(Down(0), imm)) != And(0, imm)
    ensures !(0x8000_0000 <= imm < 0x8000_0004) ==> Up(Eor(Down(0), imm)) != Eor(0, imm)
    ensures Up(Orr(Down(0), imm)) != Orr(0, imm) && Up(Bic(Down(0), imm)) != Bic(0, imm)
  {
    UnevenAnd(imm);
    if !(0x8000_0000 <= imm < 0x8000_0004) { UnevenEor(imm); }
    UnevenOrr(imm);
    hide Up, Down, And, Eor, Orr, Bic;
  }

  lemma UnevenAnd(imm: Word)
    requires imm >= 256
    ensures imm < 0xFFFF_FFFC ==> Up(And(Down(0), imm)) != And(0, imm)
    ensures Up(Bic(Down(0), imm)) != Bic(0, imm)
  {
  }

  lemma UnevenEor(imm: Word)
    requires imm >= 256 && !(0x8000_0000 <= imm < 0x8000_0004)
    ensures Up(Eor(Down(0), imm)) != Eor(0, imm)
  {
  }

  lemma UnevenOrr(imm: Word)
    requires imm >= 256
    ensures Up(Orr(Down(0), imm)) != Orr(0, imm)
  {
  }

  lemma UnevenSums(imm: Word)
    ensures Up(imm) != imm && Up(Not(imm)) != Not(imm) && Up(Minus(imm, Down(0))) != Minus(imm, 0)
    ensures Up(MinusBorrow(imm, Down(0), false)) != MinusBorrow(imm, 0, false)
  {
  }

  function Uniform(a: Word, carry: bool): Cpu { Cpu(seq(16, _ => a), Unknown, carry) }

  lemma UniformReg(a: Word, carry: bool, r: Word)
    requires r < 16
    ensures Reg(Uniform(a, carry), r) == a
  {
  }

  /** A state in which the register saved is not what the pop finds where the result points. */
  lemma Lost(op: Word, sreg: Word, imm: Word, t: Word) returns (s: Cpu)
    requires t < SP && Computes(op) && sreg < PC && imm >= 256 && !(sreg == SP && op == 0 && imm == 0xFFFF_FFFF)
    ensures var v := Alu(op, Seen(sreg, imm, true, s), imm, s.carry);
      s.mem == Unknown && v != Down(Reg(s, SP)) && Reg(s, t) == 1
  {
    var carry := op != 5;
    var a := 0;
    if sreg == SP { a := NotItself(op, imm); }
    var p := if sreg == SP then a + 4 else Alu(op, 1, imm, carry) + 5;
    var u := Uniform(1, carry);
    s := Set(u, SP, p);
    hide Reg, Set, Alu;
    SetCarry(u, SP, p);
    UniformReg(1, carry, t);
    UniformReg(1, carry, sreg);
    SetReg(u, SP, p, t);
    SetReg(u, SP, p, sreg);
    SetReg(u, SP, p, SP);
    Offsets(a, Alu(op, 1, imm, carry));
  }

  lemma Offsets(a: Word, v: Word)
    ensures Down(a + 4) == a && v != Down(v + 5)
  {
  }

  lemma NotItself(op: Word, imm: Word) returns (a: Word)
    requires Computes(op) && imm >= 256 && !(op == 0 && imm == 0xFFFF_FFFF)
    ensures Alu(op, a, imm, op != 5) != a
  {
    a := if op == 0 || op == MOV then !imm else if op == 14 then 0xFFFF_FFFF else if op == MVN then imm else 0;
    OtherValue(imm);
    hide And, Eor, Minus, Plus, PlusCarry, MinusBorrow, Orr, Bic, Not;
  }

  lemma OtherValue(imm: Word)
    requires imm != 0
    ensures imm != 0xFFFF_FFFF ==> And(!imm, imm) != !imm
    ensures Eor(0, imm) != 0 && Orr(0, imm) != 0 && Bic(0xFFFF_FFFF, imm) != 0xFFFF_FFFF
    ensures Not(imm) != imm && imm != !imm
    ensures Minus(0, imm) != 0 && Minus(imm, 0) != 0 && Plus(0, imm) != 0 && PlusCarry(0, imm, false) != 0
    ensures MinusBorrow(0, imm, true) != 0 && MinusBorrow(imm, 0, true) != 0
  {
  }

  // ---- The code ----

  /** As many of the words as there is room for. */
  function Taken(words: seq<Word>, room: nat): seq<Word> { if |words| <= room then words else words[..room] }

  lemma TakenConcat(a: seq<Word>, b: seq<Word>, room: nat)
    ensures |Taken(a, room)| <= room && Taken(a + b, room) == Taken(a, room) + Taken(b, room - |Taken(a, room)|)
  {
  }

  /** `arm_inst_buf`. */
  class InstBuf {
    const words: array<Word>
    var current: nat

    constructor (words: array<Word>)
      ensures this.words == words && current == 0
    {
      this.words, current := words, 0;
    }

    predicate Valid()
      reads this
    {
      current <= words.Length
    }

    function Contents(): seq<Word>
      requires Valid()
      reads this, words
    {
      words[..current]
    }

    /** `arm_inst_add`: a word for which there is no room is dropped. */
    method Add(value: Word)
      requires Valid()
      modifies this, words
      ensures Valid() && Contents() == old(Contents()) + Taken([value], words.Length - old(current))
    {
      if current < words.Length {
        words[current] := value;
        current := current + 1;
      }
    }

    /** The loop over the positions. */
    static method FindFit(value: Word) returns (i: nat)
      ensures i == FirstFit(value, 0)
    {
      hide Fits;
      i := 0;
      while i < 13
        invariant 0 <= i <= 13 && FirstFit(value, 0) == FirstFit(value, i)
      {
        PositionAt(i);
        if Fits(value, POSITIONS[i]) { return; }
        i := i + 1;
      }
    }

    method OutputByte(reg: Word, value: Word, shift: Word, rotate: Word, prefix: Word, ghost before: seq<Word>,
                      ghost start: seq<Word>)
      requires Valid() && shift <= 24 && |start| <= words.Length
        && Contents() == start + Taken(before, words.Length - |start|)
      modifies this, words
      ensures Valid()
      ensures Contents() == start + Taken(before + AddByte(prefix, reg, value, shift, rotate), words.Length - |start|)
    {
      hide Imm8Rotate, Part, ByteOf;
      TakenConcat(before, AddByte(prefix, reg, value, shift, rotate), words.Length - |start|);
      if Part(value, shift) != 0 {
        Add(Imm8Rotate(prefix, ADD, reg, reg, ByteOf(value, shift), rotate));
      } else {
        assert before + [] == before;
      }
    }

    /** "Build the value the hard way, byte by byte." */
    method BuildByBytes(reg: Word, value: Word, prefix: Word)
      requires Valid()
      modifies this, words
      ensures Valid()
        && Contents() == old(Contents()) + Taken(HardWords(prefix, reg, value), words.Length - old(current))
    {
      hide Imm8Rotate, Part, ByteOf, Taken, AddByte;
      ghost var x, y := AddByte(prefix, reg, value, 16, 8), AddByte(prefix, reg, value, 8, 12);
      ghost var start := Contents();
      if Part(value, 24) != 0 {
        ghost var w := MovByte(prefix, reg, value, 24, 4);
        Add(Imm8Rotate(prefix, MOV, reg, 0, ByteOf(value, 24), 4));
        OutputByte(reg, value, 16, 8, prefix, w, start);
        OutputByte(reg, value, 8, 12, prefix, w + x, start);
        OutputByte(reg, value, 0, 0, prefix, w + x + y, start);
      } else if Part(value, 16) != 0 {
        ghost var w := MovByte(prefix, reg, value, 16, 8);
        Add(Imm8Rotate(prefix, MOV, reg, 0, ByteOf(value, 16), 8));
        OutputByte(reg, value, 8, 12, prefix, w, start);
        OutputByte(reg, value, 0, 0, prefix, w + y, start);
      } else if Part(value, 8) != 0 {
        ghost var w := MovByte(prefix, reg, value, 8, 12);
        Add(Imm8Rotate(prefix, MOV, reg, 0, ByteOf(value, 8), 12));
        OutputByte(reg, value, 0, 0, prefix, w, start);
      } else {
        Add(Imm8Rotate(prefix, MOV, reg, 0, ByteOf(value, 0), 0));
      }
    }

    /** `_arm_mov_reg_imm`. */
    method MovRegImm(reg: Word, value: Word, prefix: Word)
      requires Valid()
      modifies this, words
      ensures Valid()
        && Contents() == old(Contents()) + Taken(MovWords(prefix, reg, value), words.Length - old(current))
    {
      hide Imm8Rotate, Part, ByteOf, Rotation, FirstFit, Fits, HardWords, Taken;
      var i := FindFit(value);
      if i < 13 {
        Add(Imm8Rotate(prefix, MOV, reg, 0, ByteOf(value, POSITIONS[i]), Rotation(POSITIONS[i])));
        return;
      }
      i := FindFit(!value);
      if i < 13 {
        Add(Imm8Rotate(prefix, MVN, reg, 0, ByteOf(!value, POSITIONS[i]), Rotation(POSITIONS[i])));
        return;
      }
      BuildByBytes(reg, value, prefix);
    }

    /** `_arm_alu_reg_imm`. */
    method AluRegImm(op: Word, dreg: Word, sreg: Word, imm: Word, saveWork: bool, prefix: Word)
      requires Valid()
      modifies this, words
      ensures Valid()
        && Contents()
        == old(Contents()) + Taken(AluWords(prefix, op, dreg, sreg, imm, saveWork), words.Length - old(current))
    {
      hide Imm8Rotate, Part, ByteOf, Rotation, MovWords, RegReg, PushReg, PopReg, FirstFit, Fits, Temp;
      var i := FindFit(imm);
      if i < 13 {
        Add(Imm8Rotate(prefix, op, dreg, sreg, ByteOf(imm, POSITIONS[i]), Rotation(POSITIONS[i])));
        return;
      }
      hide Taken, AluWords;
      if saveWork {
        SavedOp(op, dreg, sreg, imm, prefix, Temp(dreg, sreg));
      } else {
        ghost var start := Contents();
        ghost var a, b := MovWords(prefix, WORK, imm), [RegReg(prefix, op, dreg, sreg, WORK)];
        MovRegImm(WORK, imm, prefix);
        Extended(start, a, b, words.Length - |start|);
        Add(RegReg(prefix, op, dreg, sreg, WORK));
      }
      AluWordsAre(prefix, op, dreg, sreg, imm, saveWork);
    }

    /** The code with a register saved. */
    method SavedOp(op: Word, dreg: Word, sreg: Word, imm: Word, prefix: Word, temp: Word)
      requires Valid()
      modifies this, words
      ensures Valid()
      ensures Contents()
        == old(Contents())
        + Taken([PushReg(temp)] + MovWords(prefix, temp, imm) + [RegReg(prefix, op, dreg, sreg, temp)] + [PopReg(temp)],
                                                    words.Length - old(current))
    {
      hide MovWords, RegReg, PushReg, PopReg, Taken;
      ghost var start := Contents();
      ghost var room := words.Length - |start|;
      ghost var a, b, c, d :=
        [PushReg(temp)], MovWords(prefix, temp, imm), [RegReg(prefix, op, dreg, sreg, temp)], [PopReg(temp)];
      Add(PushReg(temp));
      Extended(start, a, b, room);
      MovRegImm(temp, imm, prefix);
      Extended(start, a + b, c, room);
      Add(RegReg(prefix, op, dreg, sreg, temp));
      Extended(start, a + b + c, d, room);
      Add(PopReg(temp));
    }
  }

  lemma Extended(start: seq<Word>, a: seq<Word>, b: seq<Word>, room: nat)
    ensures |Taken(a, room)| <= room
    ensures (start + Taken(a, room)) + Taken(b, room - |Taken(a, room)|) == start + Taken(a + b, room)
  {
    TakenConcat(a, b, room);
  }

  lemma AluWordsAre(prefix: Word, op: Word, dreg: Word, sreg: Word, imm: Word, saveWork: bool)
    requires FirstFit(imm, 0) == 13
    ensures var t := Temp(dreg, sreg);
      AluWords(prefix, op, dreg, sreg, imm, saveWork) ==
      if saveWork then [PushReg(t)] + MovWords(prefix, t, imm) + [RegReg(prefix, op, dreg, sreg, t)] + [PopReg(t)]
      else MovWords(prefix, WORK, imm) + [RegReg(prefix, op, dreg, sreg, WORK)]
  {
  }

  /** `arm_is_complex_imm`. */
  method IsComplexImm(value: Word) returns (r: bool)
    ensures r == Complex(value)
  {
    for i := 0 to 13
      invariant FirstFit(value, 0) == FirstFit(value, i) && FirstFit(!value, 0) == FirstFit(!value, i)
    {
      PositionAt(i);
      if Fits(value, POSITIONS[i]) { return false; }
      if Fits(!value, POSITIONS[i]) { return false; }
    }
    return true;
  }
}
