/** Which words are executed and which are refused, by their bits and the mode; what a step does with a refusal; and
    branches. */
module Decoding {
  import opened Bits
  import opened Decode
  import opened Registers
  import opened Memory
  import opened Core
  import opened DataProcessing
  import opened Instruction
  import opened Steps
  import opened Operations
  import opened LoadStore
  import opened LoadStoreMultiple
  import opened BranchOther
  import BlockTransfers
  import Exceptions

  // ----- refusals -----

  /** S-suffixed data processing on the PC where there is no SPSR to restore. */
  predicate ReturnsNowhere(ins: Word, mode: bv8) {
    ins / 0x10_0000 % 2 == 1 && ins / 0x1000 % 16 == 15 && !ExceptionMode(mode)
  }

  predicate RefusedOperation(ins: Word, mode: bv8) {
    var op, suffix := ins / 0x20_0000 % 16, ins / 0x10_0000 % 2;
    if ins / 0x200_0000 % 8 == 0 then
      if ins / 0x80 % 2 == 1 && ins / 0x10 % 2 == 1 then ins / 0x20 % 4 != 1
      else if 8 <= op < 12 && suffix == 0 then ins / 0x40_0000 % 2 == 1 && !ExceptionMode(mode)
      else RefusesShift(ins) || ReturnsNowhere(ins, mode)
    else if suffix == 0 && (op == 9 || op == 11) then RefusesMsr(ins, mode)
    else ReturnsNowhere(ins, mode)
  }

  /** Block transfers: an empty list, the S bit where there is no user bank apart, and the S bit with the PC where there is
      no SPSR. */
  predicate RefusedBlock(ins: Word, mode: bv8) {
    ins % 0x1_0000 == 0
    || (ins / 0x40_0000 % 2 == 1
        && (mode == 0x10 || mode == 0x1f
            || (ins / 0x10_0000 % 2 == 1 && ins % 0x1_0000 >= 0x8000 && !ExceptionMode(mode))))
  }

  /** The words that are reported as undefined. */
  predicate Refused(ins: Word, mode: bv8) {
    var kind, userAccess := ins / 0x200_0000 % 8, ins / 0x100_0000 % 2 == 0 && ins / 0x20_0000 % 2 == 1;
    if kind <= 1 then RefusedOperation(ins, mode)
    else if kind == 2 then userAccess
    else if kind == 3 then ins / 0x10 % 2 == 1 || (ins / 0x10 % 0x100 == 0 && userAccess)
    else if kind == 4 then RefusedBlock(ins, mode)
    else kind == 6 || (kind == 7 && ins / 0x100_0000 % 2 == 0)
  }

  /** The refusals that come after something has been written: the base of a half-word access, the PC of a return, the
      registers of an LDM. */
  predicate RefusedLate(ins: Word, mode: bv8) {
    var kind := ins / 0x200_0000 % 8;
    if kind == 0 then
      if ins / 0x80 % 2 == 1 && ins / 0x10 % 2 == 1 then ins / 0x100_0000 % 2 == ins / 0x20_0000 % 2
      else IsOperation(ins) && ReturnsNowhere(ins, mode)
    else if kind == 1 then ReturnsNowhere(ins, mode)
    else kind == 4 && ins % 0x1_0000 >= 0x8000 && ins / 0x40_0000 % 2 == 1 && ins / 0x10_0000 % 2 == 1 && !ValidMode(mode)
  }

  /** The outcome of a decoder: done, or refused, early with nothing changed or late. */
  predicate Outcome(u: State, result: (State, int), refused: bool, late: bool) {
    result.1 == (if refused then 7 else 0) && (refused && !late ==> result.0 == u)
  }

  lemma SingleRefused(u: State, ins: Word, g: Garbage)
    requires ins / 0x200_0000 % 8 == 2 || (ins / 0x200_0000 % 8 == 3 && ins / 0x10 % 2 == 0)
             || (ins / 0x200_0000 % 8 == 0 && ins / 0x80 % 2 == 1 && ins / 0x10 % 2 == 1)
    ensures Outcome(u, LoadOrStore(u, ins, g), Refused(ins, Mode(u)), RefusedLate(ins, Mode(u)))
  {
    hide Offset, Transfer, Reg, SetReg, ModeOf, LoadHalf, Store, ExceptionMode, ReturnsNowhere, RefusesShift, RefusesMsr;
    HalfBits(ins);
  }

  lemma HalfBits(ins: Word)
    ensures ins / 0x20 % 4 == 1 <==> Bit5(ins) && !Bit6(ins)
  {
    var q := ins / 0x20;
    assert ins / 0x40 == q / 2;
  }

  lemma BlockRefused(u: State, ins: Word, g: Garbage)
    requires ins / 0x200_0000 % 8 == 4
    ensures Outcome(u, Multiple(u, ins, g), Refused(ins, Mode(u)), RefusedLate(ins, Mode(u)))
  {
    hide Start, Count, Reg, SetReg, ModeOf, LoadRegisters, StoreRegisters, LoadPlain, RestoreCpsr, Listed, Address;
    var list := Low16(ins);
    BlockTransfers.PcIsListed(list);
    var start := Start(Bit24(ins), Bit23(ins), Reg(u, RnField(ins)), Count(list));
    TransferCode(u, Bit20(ins), Bit22(ins), list, start, g);
  }

  lemma TransferCode(u: State, load: bool, user: bool, list: Half, start: Word, g: Garbage)
    ensures TransferBlock(u, load, user, list, start, g).1
         == if load && user && Listed(list, 15) && !ExceptionMode(Mode(u)) then UNDEFINED_INSTRUCTION else SUCCESSFULLY_DECODED
  {
    hide LoadRegisters, StoreRegisters, LoadPlain, Listed, Address, ModeOf, WordAt, RestoreCpsr, SetReg;
    LoadKeepsMode(u, list, start, 15, Mode(u), g);
    RestoreKeepsCpsr(LoadRegisters(u, list, start, 15, Mode(u), g));
  }

  lemma OperationRefused(s: State, ins: Word, g: Garbage)
    requires Ready(s, ins, g) && ins / 0x200_0000 % 8 <= 1
    requires !(ins / 0x200_0000 % 8 == 0 && ins / 0x80 % 2 == 1 && ins / 0x10 % 2 == 1)
    ensures Outcome(Advanced(s), Execute(s, g), Refused(ins, Mode(s)), RefusedLate(ins, Mode(s)))
  {
    hide Ready, Execute, Advanced, ModeOf, RefusesShift, RefusesMsr, ExceptionMode, Alu, Yields, OperandOf, Reg, FlagC, FlagV, Write,
      WriteSpsr, FlagsOfResult, WritesFields, MsrBits, Privileged, ReadSpsr;
    AdvancedKeeps(s);
    if IsOperation(ins) {
      OperationExecutes(s, ins, g);
    } else if ins / 0x200_0000 % 8 == 1 {
      MsrExecutes(s, ins, g);
    } else if 8 <= ins / 0x20_0000 % 16 < 12 && ins / 0x10_0000 % 2 == 0 {
      MrsExecutes(s, ins, g);
    } else {
      ExecuteReady(s, ins, g);
      RefusedShiftDispatch(Advanced(s), ins, g);
    }
  }

  lemma RefusedShiftDispatch(u: State, ins: Word, g: Garbage)
    requires ins / 0x200_0000 % 8 == 0 && !(ins / 0x80 % 2 == 1 && ins / 0x10 % 2 == 1) && RefusesShift(ins)
    requires !(8 <= ins / 0x20_0000 % 16 < 12 && ins / 0x10_0000 % 2 == 0)
    ensures Dispatch(u, ins, g) == (u, UNDEFINED_INSTRUCTION)
  {
    hide LoadOrStore, Multiple, Branch, Miscellaneous, ProcessShift, Process, ShifterOperand, Reg, RefusesShift;
    OpcodeBits(ins);
    ShiftedOperand(u, ins);
  }

  /** Which decoder the words of the other classes reach. */
  lemma OtherDispatch(u: State, ins: Word, g: Garbage)
    requires ins / 0x200_0000 % 8 > 1 || (ins / 0x200_0000 % 8 == 0 && ins / 0x80 % 2 == 1 && ins / 0x10 % 2 == 1)
    ensures Dispatch(u, ins, g)
         == match ins / 0x200_0000 % 8
            case 4 => Multiple(u, ins, g)
            case 5 => Branch(u, ins)
            case 6 => (u, UNDEFINED_INSTRUCTION)
            case 7 => (u, if ins / 0x100_0000 % 2 == 1 then SOFTWARE_INTERRUPT else UNDEFINED_INSTRUCTION)
            case c => if c == 3 && ins / 0x10 % 2 == 1 then (u, UNDEFINED_INSTRUCTION) else LoadOrStore(u, ins, g)
  {
    hide LoadOrStore, Multiple, Branch, Miscellaneous, ProcessShift, ProcessImmediateOrMsr;
    TopNibble(ins);
  }

  lemma TopNibble(ins: Word)
    ensures ins / 0x200_0000 % 8 == 7 ==> (ins / 0x100_0000 % 16 == 15 <==> ins / 0x100_0000 % 2 == 1)
  {
    var q := ins / 0x100_0000;
    assert ins / 0x200_0000 == q / 2;
  }

  /** Over all words, all modes and all states: a step executes the word, reports a software interrupt, or refuses it
      exactly as described; a refusal that is not late has only moved on. */
  lemma RefusedExactlyWhen(s: State, ins: Word, g: Garbage)
    requires Ready(s, ins, g)
    ensures var (t, code) := Execute(s, g);
      if ins / 0x100_0000 % 16 == 15 then (t, code) == (Advanced(s), 8)
      else Outcome(Advanced(s), (t, code), Refused(ins, Mode(s)), RefusedLate(ins, Mode(s)))
  {
    hide Ready, Execute, Advanced, ModeOf, LoadOrStore, Multiple, Branch, RefusedOperation, RefusedBlock, RefusedLate, Dispatch;
    var u, kind := Advanced(s), ins / 0x200_0000 % 8;
    AdvancedKeeps(s);
    ClassOfInterrupt(ins);
    if kind <= 1 && !(kind == 0 && ins / 0x80 % 2 == 1 && ins / 0x10 % 2 == 1) {
      OperationRefused(s, ins, g);
    } else {
      ExecuteReady(s, ins, g);
      OtherDispatch(u, ins, g);
      if kind == 4 {
        BlockRefused(u, ins, g);
      } else if kind == 5 {
        BranchDone(u, ins);
      } else if kind < 3 || (kind == 3 && ins / 0x10 % 2 == 0) {
        SingleRefused(u, ins, g);
      }
    }
  }

  lemma ClassOfInterrupt(ins: Word)
    ensures ins / 0x100_0000 % 16 == 15 <==> ins / 0x200_0000 % 8 == 7 && ins / 0x100_0000 % 2 == 1
  {
    var q := ins / 0x100_0000;
    assert ins / 0x200_0000 == q / 2;
  }

  lemma BranchDone(u: State, ins: Word)
    requires ins / 0x200_0000 % 8 == 5
    ensures Branch(u, ins).1 == SUCCESSFULLY_DECODED
  {
    hide BranchOffset, Reg, SetReg;
  }

  /** A step on a refused word enters the handler at 4 in supervisor mode, with IRQs disabled and FIQs enabled;
      if nothing was written before, its link is 8 more than the address of the word. */
  lemma RefusedStep(s: State, ins: Word, g: Garbage)
    requires Ready(s, ins, g) && Refused(ins, Mode(s)) && ins / 0x100_0000 % 16 != 15
    ensures var (t, code) := Step(s, g);
      code == 7 && Pc(t) == 4 && t.regs.cpsr == 0x193
      && (!RefusedLate(ins, Mode(s)) && ValidMode(Mode(s)) && Pc(s) % 4 == 0 ==>
            t.mem == s.mem && RegIn(t, 14, Mode(s)) == Wrap(Pc(s) + 8))
  {
    hide Ready, Execute, Advanced, ModeOf, Refused, RefusedLate, ValidMode, Exceptions.Exception, Read, Wrap;
    var (s1, code) := Execute(s, g);
    RefusedExactlyWhen(s, ins, g);
    Exceptions.ExceptionTable(s1, 7, g);
    AdvancedKeeps(s);
    if Pc(s) % 4 == 0 {
      AlignedNext(Pc(s));
      WrapWrap(Pc(s) + 4, 4);
    }
  }

  /** A step on a word that is executed does no more. */
  lemma ExecutedStep(s: State, ins: Word, g: Garbage)
    requires Ready(s, ins, g) && !Refused(ins, Mode(s)) && ins / 0x100_0000 % 16 != 15
    ensures Step(s, g) == (Execute(s, g).0, 0)
  {
    hide Ready, Execute, Advanced, ModeOf, Refused, RefusedLate, Exceptions.Exception;
    RefusedExactlyWhen(s, ins, g);
  }

  // ----- branches -----

  /** A step on B or BL at word-aligned a goes to a + 8 plus four times the signed field; BL links a + 4, and B changes
      nothing but the PC. */
  lemma BranchExecutes(s: State, a: Word, ins: Word, g: Garbage)
    requires At(s, a, ins) && ins / 0x200_0000 % 8 == 5
    ensures var (t, code) := Execute(s, g);
      var target := Wrap(a + 8 + 4 * SignExtend24(ins % 0x100_0000));
      code == SUCCESSFULLY_DECODED
      && t.regs == (if ins / 0x100_0000 % 2 == 1 then SetReg(SetReg(s, 14, Wrap(a + 4)), 15, target) else SetReg(s, 15, target)).regs
      && t.mem == s.mem && t.be == s.be && t.cycles == Wrap(s.cycles + 1)
  {
    hide Execute, Dispatch, SignExtend24, BranchOffset, ModeOf, PcView, Wrap, At, Low24;
    var u := Advanced(s);
    ExecuteAt(s, a, ins, g);
    AdvancedKeeps(s);
    OtherDispatch(u, ins, g);
    AtMeans(s, a, ins);
    AlignedPcView(a);
    OffsetIsSigned(ins);
    LowField(ins);
    BranchSum(a, 4 * SignExtend24(ins % 0x100_0000));
    BranchRegisters(s, u, ins);
  }

  lemma AtMeans(s: State, a: Word, ins: Word)
    requires At(s, a, ins)
    ensures a % 4 == 0 && Pc(s) == a
  {
  }

  lemma LowField(ins: Word)
    ensures Low24(ins) == ins % 0x100_0000
  {
  }

  lemma BranchSum(a: Word, d: int)
    ensures Wrap(Wrap(a + 8) + Wrap(d)) == Wrap(a + 8 + d) && Wrap(Wrap(a + 8) - 4) == Wrap(a + 4)
  {
    hide Wrap;
    WrapWrap(a + 8, Wrap(d));
    WrapWrap(d, a + 8);
    WrapWrap(a + 8, -4);
  }

  /** The PC written by the fetch is written over. */
  lemma BranchRegisters(s: State, u: State, ins: Word)
    requires ins / 0x200_0000 % 8 == 5 && u == Advanced(s)
    ensures var pc := Reg(u, 15);
      var target := Wrap(pc + BranchOffset(ins));
      var t := Branch(u, ins).0;
      t.regs == (if ins / 0x100_0000 % 2 == 1 then SetReg(SetReg(s, 14, Wrap(pc - 4)), 15, target) else SetReg(s, 15, target)).regs
      && t.mem == u.mem && t.be == u.be && t.cycles == u.cycles && Branch(u, ins).1 == SUCCESSFULLY_DECODED
  {
    hide BranchOffset, PcView, Wrap, ModeOf, Reg, Read, Write;
    WriteKeepsCpsr();
    var pc := Reg(u, 15);
    var target := Wrap(pc + BranchOffset(ins));
    Overwrites(s.regs, Mode(s), Wrap(Pc(s) + 4), Wrap(pc - 4), target);
  }

  lemma Overwrites(f: RegisterFile, mode: bv8, first: Word, link: Word, last: Word)
    ensures Write(Write(f, 15, mode, first), 15, mode, last) == Write(f, 15, mode, last)
    ensures Write(Write(Write(f, 15, mode, first), 14, mode, link), 15, mode, last) == Write(Write(f, 14, mode, link), 15, mode, last)
  {
    hide ModeInd;
    PcSlot(14, mode);
    assert f.general[15 := first][15 := last] == f.general[15 := last];
    if Mapped(14, mode) {
      var k := Slot(14, mode);
      assert f.general[15 := first][k := link][15 := last] == f.general[k := link][15 := last];
    }
  }
}
