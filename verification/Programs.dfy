/** Short instruction sequences: comparisons and the conditions that read them, software interrupts,
    and calls that return. */
module Programs {
  import opened Bits
  import opened Decode
  import opened Registers
  import opened Memory
  import opened Shifter
  import opened Core
  import opened DataProcessing
  import opened Instruction
  import opened Steps
  import LoadStore
  import LoadStoreMultiple
  import BlockTransfers
  import Operations
  import BranchOther
  import opened Runs
  import Exceptions

  // condition codes
  const EQ := 0
  const NE := 1
  const HS := 2
  const LO := 3
  const MI := 4
  const VS := 6
  const HI := 8
  const LS := 9
  const GE := 10
  const LT := 11
  const GT := 12
  const LE := 13

  // ----- comparisons -----

  /** An S-suffixed operation not on the PC: Rd holds the result if the operation writes one, N and Z describe
      it, C and V are the operation's, and nothing else changes. */
  lemma FlagsAfter(s: State, op: nat, rd: Byte, a: Word, b: Word, sc: bool)
    requires rd < 15
    ensures var r := Alu(op, a, b, sc, FlagC(s.regs.cpsr), FlagV(s.regs.cpsr));
      var (t, code) := Process(s, true, op, rd, a, b, sc);
      code == SUCCESSFULLY_DECODED && SameButFlags(t.regs.cpsr, s.regs.cpsr)
      && FlagN(t.regs.cpsr) == (Signed(r.value) < 0) && FlagZ(t.regs.cpsr) == (r.value == 0)
      && FlagC(t.regs.cpsr) == r.carry && FlagV(t.regs.cpsr) == r.overflow
      && SetCpsr(t, s.regs.cpsr) == if r.writes then SetReg(s, rd, r.value) else s
  {
    hide Alu, WithFlags, FlagN, FlagZ, FlagC, FlagV, Write, ModeOf, SameButFlags;
    var r := Alu(op, a, b, sc, FlagC(s.regs.cpsr), FlagV(s.regs.cpsr));
    FlagsOf(s.regs.cpsr, r.value >= 0x8000_0000, r.value == 0, r.carry, r.overflow);
    FlagsChange(s.regs.cpsr, r.value >= 0x8000_0000, r.value == 0, r.carry, r.overflow);
    SetRegKeeps(s, rd, r.value);
  }

  /** Without S an operation changes Rd at most. */
  lemma WithoutFlags(s: State, op: nat, rd: Byte, a: Word, b: Word, sc: bool)
    ensures var r := Alu(op, a, b, sc, FlagC(s.regs.cpsr), FlagV(s.regs.cpsr));
      Process(s, false, op, rd, a, b, sc) == (if r.writes then SetReg(s, rd, r.value) else s, SUCCESSFULLY_DECODED)
  {
    hide Alu, Write, ModeOf;
  }

  /** The conditions come in complementary pairs; AL always holds, and the last code never. */
  lemma ConditionsArePaired(cpsr: bv32, k: nat)
    requires k < 7
    ensures Passes(cpsr, 2 * k) <==> !Passes(cpsr, 2 * k + 1)
    ensures Passes(cpsr, 14) && !Passes(cpsr, 15)
  {
    hide FlagN, FlagZ, FlagC, FlagV;
  }

  /** After an S-suffixed operation MI tells the sign of the result.  VS tells whether the exact result of an
      arithmetic operation overflows exactly where V is right, and LT whether that of one without carry is negative;
      the logic operations leave VS as it was, and HS holds if the shifter carries. */
  lemma SignAndOverflowConditions(s: State, op: nat, rd: Byte, a: Word, b: Word, sc: bool)
    requires rd < 15
    ensures var c := FlagC(s.regs.cpsr);
      var cpsr := Process(s, true, op, rd, a, b, sc).0.regs.cpsr;
      (Passes(cpsr, MI) <==> Signed(Alu(op, a, b, sc, c, FlagV(s.regs.cpsr)).value) < 0)
      && (Arithmetic(op) ==> ((Passes(cpsr, VS) <==> Overflows(Exact(op, a, b, c))) <==> OverflowIsRight(op, a, b, c)))
      && (Arithmetic(op) && op !in {ADC, SBC, RSC} ==> (Passes(cpsr, LT) <==> Exact(op, a, b, c) < 0))
      && (!Arithmetic(op) ==> (Passes(cpsr, VS) <==> Passes(s.regs.cpsr, VS)) && (Passes(cpsr, HS) <==> sc))
  {
    hide Process, Alu, Exact, Overflows, OverflowIsRight, FlagN, FlagZ, FlagC, FlagV, Signed;
    var c, v := FlagC(s.regs.cpsr), FlagV(s.regs.cpsr);
    FlagsAfter(s, op, rd, a, b, sc);
    if Arithmetic(op) {
      OverflowFlag(op, a, b, sc, c, v);
      if op !in {ADC, SBC, RSC} {
        PlainFlags(op, a, b, sc, c, v);
      }
    } else {
      LogicKeepsFlags(op, a, b, sc, c, v);
    }
  }

  /** After CMP the signed conditions decide the signed comparison of the operands, for all operands. */
  lemma SignedConditions(s: State, rd: Byte, a: Word, b: Word, sc: bool)
    requires rd < 15
    ensures var cpsr := Process(s, true, CMP, rd, a, b, sc).0.regs.cpsr;
      (Passes(cpsr, EQ) <==> a == b) && (Passes(cpsr, NE) <==> a != b)
      && (Passes(cpsr, GE) <==> Signed(a) >= Signed(b)) && (Passes(cpsr, LT) <==> Signed(a) < Signed(b))
      && (Passes(cpsr, GT) <==> Signed(a) > Signed(b)) && (Passes(cpsr, LE) <==> Signed(a) <= Signed(b))
  {
    hide Process, Plus, Minus, Signed, FlagN, FlagZ, FlagC, FlagV;
    FlagsAfter(s, CMP, rd, a, b, sc);
    MinusFlags(a, b);
    ZeroDifference(a, b);
  }

  lemma ZeroDifference(a: Word, b: Word)
    ensures Minus(a, b).value == 0 <==> a == b
    ensures Signed(a) == Signed(b) <==> a == b
  {
  }

  /** After CMN the condition LT holds exactly when the unbounded signed sum is negative. */
  lemma SumIsNegative(s: State, rd: Byte, a: Word, b: Word, sc: bool)
    requires rd < 15
    ensures Passes(Process(s, true, CMN, rd, a, b, sc).0.regs.cpsr, LT) <==> Signed(a) + Signed(b) < 0
  {
    hide Process, Alu, Signed, Passes, FlagC;
    SignAndOverflowConditions(s, CMN, rd, a, b, sc);
  }

  /** The unsigned conditions after CMP: HS and LO decide a >= b exactly when C is right, and HI
      and LS decide a > b there and when a == b. */
  lemma UnsignedConditions(s: State, rd: Byte, a: Word, b: Word, sc: bool)
    requires rd < 15
    ensures var cpsr := Process(s, true, CMP, rd, a, b, sc).0.regs.cpsr;
      ((Passes(cpsr, HS) <==> a >= b) <==> SubCarryIsRight(a, b, 0))
      && ((Passes(cpsr, LO) <==> a < b) <==> SubCarryIsRight(a, b, 0))
      && ((Passes(cpsr, HI) <==> a > b) <==> SubCarryIsRight(a, b, 0) || a == b)
      && ((Passes(cpsr, LS) <==> a <= b) <==> SubCarryIsRight(a, b, 0) || a == b)
  {
    hide Process, FlagN, FlagZ, FlagC, FlagV;
    FlagsAfter(s, CMP, rd, a, b, sc);
  }

  /** The smallest failure: 5 is not found higher or the same as 3. */
  lemma UnsignedConditionFails(s: State, sc: bool)
    ensures !Passes(Process(s, true, CMP, 0, 5, 3, sc).0.regs.cpsr, HS)
  {
    UnsignedConditions(s, 0, 5, 3, sc);
  }

  // ----- software interrupts -----

  /** A software interrupt re-reads exactly the word that was fetched: the simulation ends, or goes on, or the
      interrupt is reported according to its low 24 bits, and only the PC and the cycle count change. */
  lemma SoftwareInterruptStep(s: State, a: Word, ins: Word, g: Garbage)
    requires At(s, a, ins) && ins / 0x100_0000 % 16 == 15
    ensures var (t, code) := Step(s, g);
      t == Advanced(s)
      && (code == 9 <==> ins % 0x100_0000 == 0x12_3456)
      && (code == 0 <==> ins % 0x100_0000 == 1)
      && (code == 8 <==> ins % 0x100_0000 != 0x12_3456 && ins % 0x100_0000 != 1)
  {
    hide Execute, LoadWord, Passes, ModeOf, PcView, Read, Write, Advanced, Cond, Wrap, Dispatch;
    ExecuteAt(s, a, ins, g);
    AdvancedKeeps(s);
    AlignedPcView(a);
    SwiDispatch(Advanced(s), ins, g);
    assert Reg(Advanced(s), 15) == PcView(Wrap(a + 4));
    assert WordAt(Advanced(s), a, g(REFETCHED)) == ins;
  }

  lemma SwiDispatch(s: State, ins: Word, g: Garbage)
    requires ins / 0x100_0000 % 16 == 15
    ensures Dispatch(s, ins, g) == (s, SOFTWARE_INTERRUPT)
  {
    SwiClass(ins);
  }

  /** A step whose condition fails moves on and does nothing else. */
  lemma SkippedStep(s: State, ins: Word, g: Garbage)
    requires LoadWord(s.mem, Pc(s), s.be) == Some(ins) && !Passes(s.regs.cpsr, ins / 0x1000_0000)
    ensures Step(s, g) == (Advanced(s), SUCCESSFULLY_DECODED)
  {
    hide Dispatch, Passes, LoadWord, Write, Read, Exceptions.Exception;
    AdvancedKeeps(s);
  }

  lemma SwiClass(ins: Word)
    requires ins / 0x100_0000 % 16 == 15
    ensures Class(ins) == 7
  {
    assert ins / 0x200_0000 == ins / 0x100_0000 / 2;
  }

  // ----- call and return -----

  /** MOV PC, LR: a move of r14, not shifted, to r15, without S. */
  predicate IsReturn(ins: Word) {
    ins / 0x200_0000 % 8 == 0 && ins / 0x20_0000 % 16 == 13 && ins / 0x10_0000 % 2 == 0 && ins / 0x1_0000 % 16 != 15
    && ins / 0x1000 % 16 == 15 && ins / 0x80 % 32 == 0 && ins / 0x20 % 4 == 0 && ins / 0x10 % 2 == 0 && ins % 16 == 14
  }

  lemma ReturnEffect(s: State, ins: Word, g: Garbage)
    requires IsReturn(ins)
    ensures Dispatch(s, ins, g) == (SetReg(s, 15, Reg(s, 14)), SUCCESSFULLY_DECODED)
  {
    hide Process, ProcessShift, Dispatch, Reg, FlagC, FlagV, SetReg;
    Operations.OperationDispatch(s, ins, g);
    ShiftedOperand(s, ins);
    WithoutFlags(s, MOV, 15, Reg(s, ins / 0x1_0000 % 16), Reg(s, 14), FlagC(s.regs.cpsr));
  }

  /** BL at word-aligned a, then MOV PC, LR at its target: execution resumes at a + 4. */
  lemma CallAndReturn(s: State, a: Word, call: Word, back: Word, g: Garbage, h: Garbage)
    requires Mapped(14, Mode(s))
    requires At(s, a, call) && call / 0x200_0000 % 8 == 5 && call / 0x100_0000 % 2 == 1
    requires var target := Wrap(a + 8 + 4 * BranchOther.SignExtend24(call % 0x100_0000));
      LoadWord(s.mem, target, s.be) == Some(back) && Passes(s.regs.cpsr, back / 0x1000_0000) && IsReturn(back)
    ensures var (s1, code1) := Step(s, g);
      var (s2, code2) := Step(s1, h);
      code1 == SUCCESSFULLY_DECODED && code2 == SUCCESSFULLY_DECODED
      && Pc(s1) == Wrap(a + 8 + 4 * BranchOther.SignExtend24(call % 0x100_0000))
      && Pc(s2) == Wrap(a + 4) && s2.mem == s.mem && s2.regs.cpsr == s.regs.cpsr
  {
    hide Execute, Passes, LoadWord, IsReturn, PcView, BranchOther.Branch, BranchOther.SignExtend24,
      Reg, Write, Read, Wrap, Dispatch;
    var s0 := Advanced(s);
    AdvancedKeeps(s);
    ExecuteAt(s, a, call, g);
    BranchOther.BranchGoesToTarget(s0, call, a);
    assert Dispatch(s0, call, g) == BranchOther.Branch(s0, call) by { BranchDispatch(s0, call, g); }
    var s1 := Step(s, g).0;
    var target := Wrap(a + 8 + 4 * BranchOther.SignExtend24(call % 0x100_0000));
    AlignedTarget(a, BranchOther.SignExtend24(call % 0x100_0000));
    assert At(s1, target, back);
    ExecuteAt(s1, target, back, h);
    AdvancedKeeps(s1);
    ReturnEffect(Advanced(s1), back, h);
    SetPc(Advanced(s1), Reg(Advanced(s1), 14));
  }

  lemma BranchDispatch(s: State, ins: Word, g: Garbage)
    requires Class(ins) == 5
    ensures Dispatch(s, ins, g) == BranchOther.Branch(s, ins)
  {
    hide BranchOther.Branch;
  }

  lemma AlignedTarget(a: Word, n: int)
    requires a % 4 == 0
    ensures Wrap(a + 8 + 4 * n) % 4 == 0
  {
  }

  // ----- saved status registers -----

  lemma StatusWordIsExact(a: bv32, b: bv32)
    ensures BranchOther.StatusWord(a) == BranchOther.StatusWord(b) <==> a == b
  {
    assert a == (a as int) as bv32 && b == (b as int) as bv32;
  }

  /** MRS yields the CPSR even when it asks for the SPSR, so what it yields is the SPSR exactly when that equals the
      CPSR; in a mode without an SPSR asking for it is undefined and changes nothing. */
  lemma SpsrReadsAsCpsr(s: State, ins: Word)
    requires Bit24(ins) && RdField(ins) < 15 && Mapped(RdField(ins), Mode(s))
    ensures var (t, code) := BranchOther.Miscellaneous(s, ins);
      if Bit22(ins) && !ExceptionMode(Mode(s)) then (t, code) == (s, UNDEFINED_INSTRUCTION)
      else
        code == SUCCESSFULLY_DECODED && Reg(t, RdField(ins)) == BranchOther.StatusWord(s.regs.cpsr)
        && (Bit22(ins) ==> (Reg(t, RdField(ins)) == BranchOther.StatusWord(Spsr(s)) <==> Spsr(s) == s.regs.cpsr))
  {
    hide Bit24, Bit22, RdField, BranchOther.StatusWord, ModeOf, Read, Write, Mapped;
    var (s1, has) := AskSpsr(s);
    SetThenGet(s, RdField(ins), BranchOther.StatusWord(s.regs.cpsr), RdField(ins));
    StatusWordIsExact(s.regs.cpsr, Spsr(s));
    if ExceptionMode(Mode(s)) {
      SavedIsCpsr(s);
      SetThenGet(s1, RdField(ins), BranchOther.StatusWord(s.regs.cpsr), RdField(ins));
    }
  }

  lemma SavedIsCpsr(s: State)
    requires ExceptionMode(Mode(s))
    ensures AskSpsr(s).1 && Spsr(AskSpsr(s).0) == s.regs.cpsr && AskSpsr(s).0.regs.cpsr == s.regs.cpsr
  {
  }

  /** MSR to the SPSR merges its operand into the CPSR: the SPSR becomes what the manual says exactly when SPSR and
      CPSR agree on the bits that are not written. */
  lemma MsrSpsrMergesIntoCpsr(s: State, operand: bv32, bytes: bv32)
    requires ExceptionMode(Mode(s))
    ensures var (t, code) := MsrSpsr(s, operand, bytes);
      var m := SpsrMask(bytes);
      code == SUCCESSFULLY_DECODED && t.regs.cpsr == s.regs.cpsr && Spsr(t) == Merge(s.regs.cpsr, operand, m)
      && (Spsr(t) == Merge(Spsr(s), operand, m) <==> Unselected(Spsr(s), m) == Unselected(s.regs.cpsr, m))
  {
    hide SpsrMask, Merge, Unselected, ModeOf;
    SavedIsCpsr(s);
    SameOutsideMask(s.regs.cpsr, Spsr(s), operand, SpsrMask(bytes));
  }

  lemma SameOutsideMask(a: bv32, b: bv32, operand: bv32, m: bv32)
    ensures Merge(a, operand, m) == Merge(b, operand, m) <==> Unselected(b, m) == Unselected(a, m)
  {
    hide Unselected, Merge;
    MergeOutside(a, operand, m);
    MergeOutside(b, operand, m);
    if Unselected(b, m) == Unselected(a, m) {
      MergeDependsOnOutside(a, b, operand, m);
    }
  }

  lemma MergeDependsOnOutside(a: bv32, b: bv32, operand: bv32, m: bv32)
    requires Unselected(b, m) == Unselected(a, m)
    ensures Merge(a, operand, m) == Merge(b, operand, m)
  {
    hide Unselected;
  }

  lemma MergeOutside(a: bv32, operand: bv32, m: bv32)
    ensures Unselected(Merge(a, operand, m), m) == Unselected(a, m)
  {
  }

  /** An S-suffixed operation on the PC moves the CPSR to itself: it restores the SPSR exactly when that equals
      the CPSR. */
  lemma ReturnRestoresNothing(s: State, op: nat, rn: Word, operand: Word, sc: bool)
    ensures var (t, code) := Process(s, true, op, 15, rn, operand, sc);
      t.regs.cpsr == s.regs.cpsr
      && code == (if ExceptionMode(Mode(s)) then SUCCESSFULLY_DECODED else UNDEFINED_INSTRUCTION)
      && (t.regs.cpsr == Spsr(s) <==> Spsr(s) == s.regs.cpsr)
  {
    hide Alu, RestoreCpsr, Write, FlagC, FlagV, ModeOf;
    var r := Alu(op, rn, operand, sc, FlagC(s.regs.cpsr), FlagV(s.regs.cpsr));
    SetRegKeeps(s, 15, r.value);
    RestoreKeepsCpsr(s);
    RestoreKeepsCpsr(SetReg(s, 15, r.value));
  }

  /** A whole handler: an exception, any run of quiet events, and the return.  The processor is left in supervisor
      mode with the CPSR of the handler's entry but for the flags; so the interrupted mode comes back exactly if
      it was supervisor mode, and the interrupted bits exactly if they were those of the entry. */
  lemma HandlerReturnsToItself(s: State, x: Byte, g: Garbage, es: seq<Event>, op: nat, rn: Word, operand: Word, sc: bool)
    requires Exceptions.Saves(x) && QuietRun(Exceptions.Exception(s, x, g).0, es, false)
    ensures var u := RunOf(Exceptions.Exception(s, x, g).0, es);
      var (t, code) := Process(u, true, op, 15, rn, operand, sc);
      code == SUCCESSFULLY_DECODED && Mode(t) == SVC && SameButFlags(t.regs.cpsr, Exceptions.EntryCpsr(x))
      && (Mode(t) == Mode(s) <==> Mode(s) == SVC)
      && (SameButFlags(t.regs.cpsr, s.regs.cpsr) <==> SameButFlags(s.regs.cpsr, Exceptions.EntryCpsr(x)))
  {
    hide Process, Exceptions.Exception, Exceptions.EntryCpsr, RunOf, QuietRun, ModeOf, SameButFlags;
    var s1 := Exceptions.Exception(s, x, g).0;
    var u := RunOf(s1, es);
    EntryCpsrs();
    ExceptionCpsr(s, x, g);
    QuietRunKeepsCpsr(s1, es, false);
    ReturnRestoresNothing(u, op, rn, operand, sc);
    SameSides(u.regs.cpsr, Exceptions.EntryCpsr(x), s.regs.cpsr);
  }

  lemma SameSides(c: bv32, d: bv32, e: bv32)
    requires SameButFlags(c, d)
    ensures SameButFlags(c, e) <==> SameButFlags(e, d)
  {
  }

  /** A newly created processor, all of whose registers were 0: its CPSR is 0x1D3 and its SPSR 0. */
  function NewProcessor(mem: Bytes, be: bool, g: Garbage): State {
    Exceptions.Create(RegisterFile(seq(96, _ => 0), 0, seq(5, _ => 0)), mem, be, g)
  }

  lemma NewStatus(mem: Bytes, be: bool, g: Garbage)
    ensures var s := NewProcessor(mem, be, g);
      Mode(s) == SVC && s.regs.cpsr == Exceptions.ENTRY_CPSR && Spsr(s) == 0
  {
  }

  /** MRS R0, SPSR and LDMIA R0, {R0, PC}^ */
  const MRS_R0_SPSR: Word := 0xE14F_0000
  const LDM_RETURN: Word := 0xE8D0_8001

  /** There MRS R0, SPSR, MSR SPSR_f, #0, MOVS PC, R14 and LDMIA R0, {R0, PC}^ all miss the SPSR. */
  lemma SpsrFails(mem: Bytes, be: bool, g: Garbage)
    ensures var s := NewProcessor(mem, be, g);
      Reg(BranchOther.Miscellaneous(s, MRS_R0_SPSR).0, 0) != BranchOther.StatusWord(Spsr(s))
      && Spsr(MsrSpsr(s, 0, 0xFF00_0000).0) != Merge(Spsr(s), 0, SpsrMask(0xFF00_0000))
      && Process(s, true, MOV, 15, 0, Reg(s, 14), false).0.regs.cpsr != Spsr(s)
      && LoadStoreMultiple.Multiple(s, LDM_RETURN, g).0.regs.cpsr != Spsr(s)
  {
    hide BranchOther.Miscellaneous, MsrSpsr, Process, NewProcessor, ModeOf, Merge, Reg, LoadStoreMultiple.Multiple;
    var s := NewProcessor(mem, be, g);
    NewStatus(mem, be, g);
    SpsrReadsAsCpsr(s, MRS_R0_SPSR);
    MsrSpsrMergesIntoCpsr(s, 0, 0xFF00_0000);
    ReturnRestoresNothing(s, MOV, 0, Reg(s, 14), false);
    LdmReturns(s, g);
  }

  lemma LdmReturns(s: State, g: Garbage)
    requires ExceptionMode(Mode(s))
    ensures var (t, code) := LoadStoreMultiple.Multiple(s, LDM_RETURN, g);
      code == SUCCESSFULLY_DECODED && t.regs.cpsr == s.regs.cpsr
  {
    hide LoadStoreMultiple.Multiple, LoadStoreMultiple.Address, LoadStoreMultiple.Listed, BlockTransfers.StartOf, WordAt, ModeOf,
      Read, ReadSpsr;
    BlockTransfers.LoadAndReturnMeaning(s, LDM_RETURN, 0x8001, g, 0);
  }

  // ----- mode numbers that are no mode -----

  /** MSR CPSR_c, #0x14 */
  const MSR_CPSR_14: Word := 0xE321_F014

  /** In supervisor mode one MSR leads to mode number 0x14, where an exception saves neither link nor CPSR. */
  lemma LinkIsLost(s: State, x: Byte, g: Garbage)
    requires Mode(s) == SVC && Exceptions.Saves(x)
    ensures var t := Dispatch(s, MSR_CPSR_14, g).0;
      t == SetCpsr(s, t.regs.cpsr) && Mode(t) == 0x14 && Exceptions.Exception(t, x, g).0 == Exceptions.Unsaved(t, x)
  {
    hide Exceptions.Exception, Exceptions.Unsaved, Exceptions.LinkOf, Exceptions.EntryCpsr, Exceptions.VectorOf, Msr,
      Dispatch, ModeOf, Read, ReadSpsr;
    var t := Dispatch(s, MSR_CPSR_14, g).0;
    MsrDispatch(s, g);
    MsrToNoMode(s);
    Exceptions.ExceptionEntry(t, x, g);
  }

  lemma MsrDispatch(s: State, g: Garbage)
    ensures Dispatch(s, MSR_CPSR_14, g) == Msr(s, MSR_CPSR_14)
  {
    hide Msr, ProcessImmediate, ProcessShift, LoadStore.LoadOrStore, LoadStoreMultiple.Multiple, BranchOther.Branch,
      BranchOther.Miscellaneous;
  }

  lemma MsrToNoMode(s: State)
    requires Mode(s) == SVC
    ensures var t := Msr(s, MSR_CPSR_14).0;
      t == SetCpsr(s, t.regs.cpsr) && Mode(t) == 0x14
  {
    hide MsrOperand, ModeOf, MsrValue;
    NoModeOperand();
    assert Msr(s, MSR_CPSR_14) == MsrCpsr(s, 0x14, 0xFF);
    NoModeBits(s.regs.cpsr);
  }

  lemma NoModeOperand()
    ensures MsrOperand(MSR_CPSR_14) == 0x14
  {
    hide Ror, Low8, RsField;
    assert Low8(MSR_CPSR_14) == 0x14 && RsField(MSR_CPSR_14) == 0 by { NoModeFields(); }
    RotateByZero(0x14);
  }

  lemma NoModeFields()
    ensures Low8(MSR_CPSR_14) == 0x14 && RsField(MSR_CPSR_14) == 0
  {
  }

  lemma NoModeBits(c: bv32)
    requires ModeOf(c) == SVC
    ensures ModeOf(MsrValue(c, 0x14, 0xFF, true)) == 0x14
  {
  }
}
