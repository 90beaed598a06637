/** What a step does to the machine when the fetched word is a data-processing instruction, MSR or MRS, stated over the
    bits of the word. */
module Operations {
  import opened Bits
  import opened Decode
  import opened Registers
  import opened Shifter
  import opened Core
  import opened DataProcessing
  import opened Instruction
  import opened Steps
  import LoadStore
  import LoadStoreMultiple
  import BranchOther

  /** The encodings of section A3.4 of ARM DDI 0100 that are not refused: the tests without S belong to MRS and MSR, the
      words with bits 7 and 4 to the half-word transfers. */
  predicate IsOperation(ins: Word) {
    var op, s := ins / 0x20_0000 % 16, ins / 0x10_0000 % 2;
    if ins / 0x200_0000 % 8 == 0 then
      !(ins / 0x80 % 2 == 1 && ins / 0x10 % 2 == 1) && !(8 <= op < 12 && s == 0) && !RefusesShift(ins)
    else
      ins / 0x200_0000 % 8 == 1 && !(s == 0 && (op == 9 || op == 11))
  }

  /** The shifter operand and its carry. */
  function OperandOf(s: State, ins: Word): Shifted {
    if ins / 0x200_0000 % 8 == 0 then ShifterOperand(s, ins) else RotatedByte(ins, FlagC(s.regs.cpsr))
  }

  /** The top four bits are N, Z, C and V of a result, and the others as before. */
  predicate FlagsOfResult(before: bv32, after: bv32, r: AluResult) {
    after & 0x0FFF_FFFF == before & 0x0FFF_FFFF
    && after >> 28 == (if r.value >= 0x8000_0000 then 8 else 0) | (if r.value == 0 then 4 else 0)
                      | (if r.carry then 2 else 0) | (if r.overflow then 1 else 0)
  }

  /** `t` is `u` after an operation with result r on Rd: if it is not a test, Rd and no other register holds the result.
      The flags are the result's if S is set and Rd is not the PC.  With S on the PC the CPSR stays, is copied to the
      SPSR, and where there is none the instruction reports itself undefined. */
  predicate After(u: State, t: State, code: int, rd: Byte, suffixed: bool, r: AluResult) {
    t.mem == u.mem && t.be == u.be && t.cycles == u.cycles
    && t.regs.general == (if r.writes then Write(u.regs, rd, Mode(u), r.value) else u.regs).general
    && (if suffixed && rd != 15 then FlagsOfResult(u.regs.cpsr, t.regs.cpsr, r) else t.regs.cpsr == u.regs.cpsr)
    && t.regs.status == (if suffixed && rd == 15 then WriteSpsr(u.regs, Mode(u), u.regs.cpsr) else u.regs).status
    && code == if suffixed && rd == 15 && !ExceptionMode(Mode(u)) then UNDEFINED_INSTRUCTION else SUCCESSFULLY_DECODED
  }

  lemma WithFlagsIs(before: bv32, r: AluResult)
    ensures FlagsOfResult(before, WithFlags(before, r.value >= 0x8000_0000, r.value == 0, r.carry, r.overflow), r)
  {
    FlagNibble(before, r.value >= 0x8000_0000, r.value == 0, r.carry, r.overflow);
  }

  lemma FlagNibble(before: bv32, n: bool, z: bool, c: bool, v: bool)
    ensures var after := WithFlags(before, n, z, c, v);
      after & 0x0FFF_FFFF == before & 0x0FFF_FFFF
      && after >> 28 == (if n then 8 else 0) | (if z then 4 else 0) | (if c then 2 else 0) | (if v then 1 else 0)
  {
  }

  lemma WriteBackIs(u: State, suffixed: bool, rd: Byte, r: AluResult)
    ensures var (t, code) := WriteBack(u, suffixed, rd, u.regs.cpsr, r);
      After(u, t, code, rd, suffixed, r)
  {
    hide WithFlags, FlagsOfResult, ModeOf, Write, WriteSpsr, ReadSpsr, RestoreCpsr, ExceptionMode;
    WithFlagsIs(u.regs.cpsr, r);
    var u1 := if r.writes then SetReg(u, rd, r.value) else u;
    SetRegKeeps(u, rd, r.value);
    RestoreIs(u1);
    SpsrWriteDepends(u1.regs, u.regs, Mode(u), u.regs.cpsr);
  }

  lemma RestoreIs(s: State)
    ensures var (t, has) := RestoreCpsr(s);
      has == ExceptionMode(Mode(s)) && t == s.(regs := t.regs) && t.regs.general == s.regs.general
      && t.regs.cpsr == s.regs.cpsr && t.regs.status == WriteSpsr(s.regs, Mode(s), s.regs.cpsr).status
  {
    hide ModeOf;
  }

  lemma SpsrWriteDepends(f: RegisterFile, h: RegisterFile, mode: bv8, c: bv32)
    requires f.status == h.status
    ensures WriteSpsr(f, mode, c).status == WriteSpsr(h, mode, c).status
  {
  }

  lemma ProcessIs(u: State, suffixed: bool, op: nat, rd: Byte, rn: Word, operand: Word, sc: bool)
    requires op < 16
    ensures var r := Alu(op, rn, operand, sc, FlagC(u.regs.cpsr), FlagV(u.regs.cpsr));
      var (t, code) := Process(u, suffixed, op, rd, rn, operand, sc);
      Yields(op, rn, operand, sc, FlagC(u.regs.cpsr), FlagV(u.regs.cpsr), r) && After(u, t, code, rd, suffixed, r)
  {
    hide Alu, WriteBack, After, Yields, FlagC, FlagV;
    var r := Alu(op, rn, operand, sc, FlagC(u.regs.cpsr), FlagV(u.regs.cpsr));
    OperationsByNumber(op, rn, operand, sc, FlagC(u.regs.cpsr), FlagV(u.regs.cpsr));
    WriteBackIs(u, suffixed, rd, r);
  }

  /** Which decoder the words of classes 0 and 1 reach. */
  lemma OperationDispatch(u: State, ins: Word, g: Garbage)
    requires IsOperation(ins)
    ensures Dispatch(u, ins, g) == if ins / 0x200_0000 % 8 == 0 then ProcessShift(u, ins) else ProcessImmediate(u, ins)
  {
    hide LoadStore.LoadOrStore, LoadStoreMultiple.Multiple, BranchOther.Branch, BranchOther.Miscellaneous, ProcessShift,
      ProcessImmediate, Msr, RefusesShift;
    OpcodeBits(ins);
  }

  lemma OpcodeBits(ins: Word)
    ensures var op := ins / 0x20_0000 % 16;
      Bit21(ins) == (op % 2 == 1) && Bit23(ins) == (op / 4 % 2 == 1) && Bit24(ins) == (op / 8 == 1)
  {
    var q := ins / 0x20_0000;
    assert ins / 0x80_0000 == q / 4 && ins / 0x100_0000 == q / 8;
    NibbleBits(q / 16, q % 16);
  }

  /** A step on any data-processing instruction: it calculates, by the number in bits 24 to 21, on Rn and the operand, and
      writes Rd, the flags and nothing else. */
  lemma OperationExecutes(s: State, ins: Word, g: Garbage)
    requires Ready(s, ins, g) && IsOperation(ins)
    ensures var u := Advanced(s);
      var op, rd, rn := ins / 0x20_0000 % 16, ins / 0x1000 % 16, Reg(u, ins / 0x1_0000 % 16);
      var (operand, sc) := OperandOf(u, ins);
      var c, v := FlagC(s.regs.cpsr), FlagV(s.regs.cpsr);
      var r := Alu(op, rn, operand, sc, c, v);
      var (t, code) := Execute(s, g);
      Yields(op, rn, operand, sc, c, v, r) && After(u, t, code, rd, ins / 0x10_0000 % 2 == 1, r)
  {
    hide Alu, Yields, After, FlagC, FlagV, Reg, ShifterOperand, RotatedByte, IsOperation, Execute, Dispatch, ProcessShift,
      ProcessImmediate, Process, Advanced, RefusesShift, Ready;
    var u := Advanced(s);
    ExecuteReady(s, ins, g);
    AdvancedKeeps(s);
    OperationDispatch(u, ins, g);
    NotRefused(ins);
    ShiftedOperand(u, ins);
    ImmediateOperand(u, ins);
    var (operand, sc) := OperandOf(u, ins);
    ProcessIs(u, ins / 0x10_0000 % 2 == 1, ins / 0x20_0000 % 16, ins / 0x1000 % 16, Reg(u, ins / 0x1_0000 % 16), operand, sc);
  }

  lemma NotRefused(ins: Word)
    requires IsOperation(ins)
    ensures ins / 0x200_0000 % 8 == 0 ==> !RefusesShift(ins)
  {
    hide RefusesShift;
  }

  /** MOV Rd, Rm with a shift by immediate n: bits 6 and 5 choose the product, the quotient, the quotient of the signed
      value or the rotation; n = 0 means 32 for the quotients and, for the rotation, one step through the carry. */
  lemma MoveShifted(s: State, ins: Word, g: Garbage)
    requires Ready(s, ins, g) && ins / 0x200_0000 % 8 == 0 && ins / 0x20_0000 % 16 == 13 && ins / 0x10 % 2 == 0
    requires ins % 16 != 15 && ins / 0x1_0000 % 16 != 15
    ensures var rd, x, n, c := ins / 0x1000 % 16, Reg(s, ins % 16), ins / 0x80 % 32, FlagC(s.regs.cpsr);
      var value := Read(Execute(s, g).0.regs, rd, Mode(s));
      Mapped(rd, Mode(s)) ==>
        (ins / 0x20 % 4 == 0 ==> value == Wrap(x * Pow2(n)))
        && (ins / 0x20 % 4 == 1 ==> value == if n == 0 then 0 else x / Pow2(n))
        && (ins / 0x20 % 4 == 2 ==> value == Wrap(Signed(x) / Pow2(if n == 0 then 32 else n)))
        && (ins / 0x20 % 4 == 3 && n > 0 ==> value == x / Pow2(n) + x % Pow2(n) * Pow2(32 - n))
        && (ins / 0x20 % 4 == 3 && n == 0 ==> value == x / 2 + if c then 0x8000_0000 else 0)
  {
    hide FlagC, Reg, Execute, Ready, ShiftByImmediate, Read, ModeOf, Mapped, Wrap, Pow2, Signed;
    MoveResult(s, ins, g);
    ShiftsByBits(ins / 0x20 % 4, Reg(s, ins % 16), ins / 0x80 % 32, FlagC(s.regs.cpsr));
  }

  lemma MoveResult(s: State, ins: Word, g: Garbage)
    requires Ready(s, ins, g) && ins / 0x200_0000 % 8 == 0 && ins / 0x20_0000 % 16 == 13 && ins / 0x10 % 2 == 0
    requires ins % 16 != 15 && ins / 0x1_0000 % 16 != 15
    ensures var rd := ins / 0x1000 % 16;
      Mapped(rd, Mode(s)) ==>
      Read(Execute(s, g).0.regs, rd, Mode(s))
      == ShiftByImmediate(ins / 0x20 % 4, Reg(s, ins % 16), ins / 0x80 % 32, FlagC(s.regs.cpsr)).0
  {
    hide Alu, Yields, After, FlagC, FlagV, Reg, Execute, Advanced, Ready, ShiftByImmediate, Read, ModeOf, Mapped;
    var u, rd := Advanced(s), ins / 0x1000 % 16;
    OperationExecutes(s, ins, g);
    AdvancedKeeps(s);
    AdvancedSees(s, ins % 16, Mode(s));
    var rn, sh := Reg(u, ins / 0x1_0000 % 16), ShifterOperand(u, ins);
    var r := Alu(13, rn, sh.0, sh.1, FlagC(s.regs.cpsr), FlagV(s.regs.cpsr));
    MoveYields(rn, sh.0, sh.1, FlagC(s.regs.cpsr), FlagV(s.regs.cpsr), r);
    var (t, code) := Execute(s, g);
    if Mapped(rd, Mode(s)) {
      AfterWrites(u, t, code, rd, ins / 0x10_0000 % 2 == 1, r);
    }
    assert Reg(u, ins % 16) == Reg(s, ins % 16) by { SeenBelow(s, ins % 16); }
  }

  lemma MoveYields(rn: Word, operand: Word, sc: bool, c: bool, v: bool, r: AluResult)
    requires Yields(13, rn, operand, sc, c, v, r)
    ensures r.value == operand && r.writes
  {
    hide Bit, LogicBit;
  }

  lemma AfterWrites(u: State, t: State, code: int, rd: Byte, suffixed: bool, r: AluResult)
    requires After(u, t, code, rd, suffixed, r) && r.writes && Mapped(rd, Mode(u))
    ensures Read(t.regs, rd, Mode(u)) == r.value
  {
    hide FlagsOfResult, ModeOf, WriteSpsr, ModeInd;
  }

  lemma ShiftsByBits(bits: nat, x: Word, n: nat, c: bool)
    requires bits < 4 && n < 32
    ensures var value := ShiftByImmediate(bits, x, n, c).0;
      (bits == 0 ==> value == Wrap(x * Pow2(n)))
      && (bits == 1 ==> value == if n == 0 then 0 else x / Pow2(n))
      && (bits == 2 ==> value == Wrap(Signed(x) / Pow2(if n == 0 then 32 else n)))
      && (bits == 3 && n > 0 ==> value == x / Pow2(n) + x % Pow2(n) * Pow2(32 - n))
      && (bits == 3 && n == 0 ==> value == x / 2 + if c then 0x8000_0000 else 0)
  {
    hide Pow2, Wrap, Bit, Signed;
    if n == 0 {
      Pow2Start();
      WrapWord(x);
      LargeDivisor(x, 32);
      WrapWord(0);
    } else if bits == 1 {
      LsrFits(x, n);
    } else if bits == 3 {
      RotationFits(x, n);
      SmallRotation(n);
    }
  }

  lemma SmallRotation(n: nat)
    requires n < 32
    ensures n % 32 == n
  {
  }

  lemma LsrFits(x: Word, n: nat)
    ensures Wrap(x / Pow2(n)) == x / Pow2(n)
  {
    hide Pow2, Wrap;
    DivShrinks(x, Pow2(n));
    WrapWord(x / Pow2(n));
  }

  // ----- status registers -----

  /** A step on MSR immediate: refused, it only moves on; else the selected fields of the status register, and nothing
      else, become those of the rotated byte. */
  lemma MsrExecutes(s: State, ins: Word, g: Garbage)
    requires Ready(s, ins, g) && ins / 0x200_0000 % 8 == 1
    requires ins / 0x10_0000 % 2 == 0 && (ins / 0x20_0000 % 16 == 9 || ins / 0x20_0000 % 16 == 11)
    ensures var u := Advanced(s);
      var (t, code) := Execute(s, g);
      var flags, low := ins / 0x8_0000 % 2 == 1, ins / 0x1_0000 % 2 == 1;
      if RefusesMsr(ins, Mode(s)) then (t, code) == (u, UNDEFINED_INSTRUCTION)
      else
        code == SUCCESSFULLY_DECODED
        && if ins / 0x40_0000 % 2 == 0 then
             t == SetCpsr(u, t.regs.cpsr)
             && WritesFields(s.regs.cpsr, t.regs.cpsr, MsrBits(ins), flags, if low && Privileged(Mode(s)) then 0xF else 0)
           else
             t == SetSpsr(u, Spsr(t))
             && WritesFields(s.regs.cpsr, Spsr(t), MsrBits(ins), flags, if low then 0x2F else 0)
  {
    hide Execute, Dispatch, Msr, Ready, Advanced, RefusesMsr, WritesFields, MsrBits, Privileged, ModeOf, ReadSpsr, WriteSpsr;
    var u := Advanced(s);
    ExecuteReady(s, ins, g);
    AdvancedKeeps(s);
    MsrDispatches(u, ins, g);
    MsrWrites(u, ins);
  }

  lemma MsrDispatches(u: State, ins: Word, g: Garbage)
    requires ins / 0x200_0000 % 8 == 1
    requires ins / 0x10_0000 % 2 == 0 && (ins / 0x20_0000 % 16 == 9 || ins / 0x20_0000 % 16 == 11)
    ensures Dispatch(u, ins, g) == Msr(u, ins)
  {
    hide LoadStore.LoadOrStore, LoadStoreMultiple.Multiple, BranchOther.Branch, BranchOther.Miscellaneous, ProcessShift,
      ProcessImmediate, Msr;
    OpcodeBits(ins);
  }

  /** A step on MRS: Rd becomes the CPSR, also if the SPSR is asked for, which becomes the CPSR too; refused exactly if
      there is no SPSR to ask for. */
  lemma MrsExecutes(s: State, ins: Word, g: Garbage)
    requires Ready(s, ins, g) && ins / 0x200_0000 % 8 == 0 && !(ins / 0x80 % 2 == 1 && ins / 0x10 % 2 == 1)
    requires 8 <= ins / 0x20_0000 % 16 < 12 && ins / 0x10_0000 % 2 == 0
    ensures var u := Advanced(s);
      var (t, code) := Execute(s, g);
      var spsr := ins / 0x40_0000 % 2 == 1;
      if spsr && !ExceptionMode(Mode(s)) then (t, code) == (u, UNDEFINED_INSTRUCTION)
      else
        code == SUCCESSFULLY_DECODED && t.mem == u.mem && t.be == u.be && t.cycles == u.cycles && t.regs.cpsr == s.regs.cpsr
        && t.regs.general == Write(u.regs, ins / 0x1000 % 16, Mode(s), s.regs.cpsr as int).general
        && t.regs.status == (if spsr then WriteSpsr(u.regs, Mode(s), s.regs.cpsr) else u.regs).status
  {
    hide Execute, Dispatch, Ready, Advanced, ModeOf, BranchOther.Miscellaneous;
    var u := Advanced(s);
    ExecuteReady(s, ins, g);
    AdvancedKeeps(s);
    MrsDispatches(u, ins, g);
    MrsMeaning(u, ins);
  }

  lemma MrsDispatches(u: State, ins: Word, g: Garbage)
    requires ins / 0x200_0000 % 8 == 0 && !(ins / 0x80 % 2 == 1 && ins / 0x10 % 2 == 1)
    requires 8 <= ins / 0x20_0000 % 16 < 12 && ins / 0x10_0000 % 2 == 0
    ensures Dispatch(u, ins, g) == BranchOther.Miscellaneous(u, ins) && Bit24(ins)
  {
    hide LoadStore.LoadOrStore, LoadStoreMultiple.Multiple, BranchOther.Branch, BranchOther.Miscellaneous, ProcessShift;
    OpcodeBits(ins);
  }

  lemma MrsMeaning(u: State, ins: Word)
    requires Bit24(ins)
    ensures var (t, code) := BranchOther.Miscellaneous(u, ins);
      var spsr := ins / 0x40_0000 % 2 == 1;
      if spsr && !ExceptionMode(Mode(u)) then (t, code) == (u, UNDEFINED_INSTRUCTION)
      else
        code == SUCCESSFULLY_DECODED && t.mem == u.mem && t.be == u.be && t.cycles == u.cycles && t.regs.cpsr == u.regs.cpsr
        && t.regs.general == Write(u.regs, ins / 0x1000 % 16, Mode(u), u.regs.cpsr as int).general
        && t.regs.status == (if spsr then WriteSpsr(u.regs, Mode(u), u.regs.cpsr) else u.regs).status
  {
    hide ModeOf, Bit24, ModeInd;
  }
}
