/** What every instruction, every exception and every run keeps of the CPSR and the mode. */
module Runs {
  import opened Bits
  import opened Decode
  import opened Registers
  import opened Memory
  import opened Shifter
  import opened Core
  import opened DataProcessing
  import opened Instruction
  import LoadStore
  import LoadStoreMultiple
  import BlockTransfers
  import BranchOther
  import Exceptions

  /** The same bits 27 to 4: everything but the flags and the low four mode bits. */
  predicate SameControl(c: bv32, d: bv32) {
    c & 0x0FFF_FFF0 == d & 0x0FFF_FFF0
  }

  /** The same bits 27 to 0: everything but the flags. */
  predicate SameButFlags(c: bv32, d: bv32) {
    c & 0x0FFF_FFFF == d & 0x0FFF_FFFF
  }

  lemma SameReflexive(c: bv32)
    ensures SameControl(c, c) && SameButFlags(c, c)
  {
  }

  lemma ButFlagsIsControl(c: bv32, d: bv32)
    requires SameButFlags(c, d)
    ensures SameControl(c, d) && ModeOf(c) == ModeOf(d)
  {
    assert c & 0x0FFF_FFF0 == (c & 0x0FFF_FFFF) & 0x0FFF_FFF0;
    assert d & 0x0FFF_FFF0 == (d & 0x0FFF_FFFF) & 0x0FFF_FFF0;
    assert c & 0x1F == (c & 0x0FFF_FFFF) & 0x1F;
    assert d & 0x1F == (d & 0x0FFF_FFFF) & 0x1F;
  }

  predicate Decoded(code: int) {
    code == SUCCESSFULLY_DECODED || code == UNDEFINED_INSTRUCTION
  }

  // ----- one instruction -----

  lemma LoadOrStoreKeepsCpsr(s: State, ins: Word, g: Garbage)
    ensures var (t, code) := LoadStore.LoadOrStore(s, ins, g);
      t.regs.cpsr == s.regs.cpsr && Decoded(code)
  {
    hide LoadStore.AddressOf, LoadStore.Transfer, LoadStore.TransferHalf;
    AddressKeepsCpsr(s, ins, g);
    var addressed := LoadStore.AddressOf(s, ins, g);
    if addressed.Some? {
      TransfersKeepCpsr(addressed.value.0, ins, addressed.value.1, g);
    }
  }

  lemma AddressKeepsCpsr(s: State, ins: Word, g: Garbage)
    ensures var addressed := LoadStore.AddressOf(s, ins, g);
      addressed.Some? ==> addressed.value.0.regs.cpsr == s.regs.cpsr
  {
    hide LoadStore.OffsetOf, LoadStore.Offset, Reg, ModeOf;
  }

  lemma TransfersKeepCpsr(s: State, ins: Word, a: Word, g: Garbage)
    ensures LoadStore.Transfer(s, ins, a, g).regs.cpsr == s.regs.cpsr
    ensures var (t, code) := LoadStore.TransferHalf(s, ins, a, g);
      t.regs.cpsr == s.regs.cpsr && Decoded(code)
  {
    hide Reg, ModeOf, Store, WordAt, LoadByte, LoadHalf;
  }

  lemma MultipleKeepsCpsr(s: State, ins: Word, g: Garbage)
    ensures var (t, code) := LoadStoreMultiple.Multiple(s, ins, g);
      t.regs.cpsr == s.regs.cpsr && Decoded(code)
  {
    hide LoadStoreMultiple.TransferBlock, LoadStoreMultiple.Start, LoadStoreMultiple.Count, Reg;
    var list := Low16(ins);
    var start := LoadStoreMultiple.Start(Bit24(ins), Bit23(ins), Reg(s, RnField(ins)), LoadStoreMultiple.Count(list));
    BlockTransfers.TransferKeeps(s, Bit20(ins), Bit22(ins), list, start, g);
    TransferCodes(s, Bit20(ins), Bit22(ins), list, start, g);
  }

  lemma TransferCodes(s: State, load: bool, user: bool, list: Half, start: Word, g: Garbage)
    ensures var code := LoadStoreMultiple.TransferBlock(s, load, user, list, start, g).1;
      Decoded(code)
  {
  }

  lemma FlagsChange(c: bv32, n: bool, z: bool, carry: bool, v: bool)
    ensures SameButFlags(WithFlags(c, n, z, carry, v), c)
  {
    FlagsOf(c, n, z, carry, v);
  }

  /** Data processing changes the flags at most: a restored SPSR is the CPSR itself. */
  lemma WriteBackKeepsControl(s: State, setFlags: bool, rd: Byte, r: AluResult)
    ensures var (t, code) := WriteBack(s, setFlags, rd, s.regs.cpsr, r);
      SameButFlags(t.regs.cpsr, s.regs.cpsr)
      && Decoded(code)
      && (!setFlags ==> t.regs.cpsr == s.regs.cpsr && code == SUCCESSFULLY_DECODED)
  {
    hide RestoreCpsr, WithFlags, ModeOf, SameButFlags, Write, ExceptionMode;
    var s1 := if r.writes then SetReg(s, rd, r.value) else s;
    assert s1.regs.cpsr == s.regs.cpsr by { SetRegKeeps(s, rd, r.value); }
    RestoreKeepsCpsr(s1);
    SameReflexive(s.regs.cpsr);
    FlagsChange(s.regs.cpsr, r.value >= 0x8000_0000, r.value == 0, r.carry, r.overflow);
  }

  lemma ProcessShiftKeepsControl(s: State, ins: Word)
    ensures var (t, code) := ProcessShift(s, ins);
      SameButFlags(t.regs.cpsr, s.regs.cpsr) && Decoded(code)
  {
    hide WriteBack, Alu, ImmediateShift, RegisterShift, Reg, SameButFlags, FlagC, FlagV, ModeOf;
    SameReflexive(s.regs.cpsr);
    forall rd, r ensures KeepsFlagsOnly(s, WriteBack(s, Bit20(ins), rd, s.regs.cpsr, r)) {
      WriteBackKeepsControl(s, Bit20(ins), rd, r);
    }
  }

  predicate KeepsFlagsOnly(s: State, result: (State, int)) {
    SameButFlags(result.0.regs.cpsr, s.regs.cpsr) && Decoded(result.1)
  }

  lemma ProcessImmediateKeepsControl(s: State, ins: Word)
    ensures var (t, code) := ProcessImmediate(s, ins);
      SameButFlags(t.regs.cpsr, s.regs.cpsr) && Decoded(code)
  {
    hide WriteBack, Alu, RotatedImmediate, Reg, SameButFlags, FlagC, FlagV, ModeOf;
    var operand := RotatedImmediate(ins);
    var carry := if RsField(ins) == 0 then FlagC(s.regs.cpsr) else operand >= 0x8000_0000;
    var r := Alu(Opcode(ins), Reg(s, RnField(ins)), operand, carry, FlagC(s.regs.cpsr), FlagV(s.regs.cpsr));
    WriteBackKeepsControl(s, Bit20(ins), RdField(ins), r);
  }

  /** MSR writes the flags, and in a privileged mode the low four mode bits; only to the CPSR if R is clear. */
  lemma MsrKeepsControl(s: State, ins: Word)
    ensures var (t, code) := Msr(s, ins);
      SameControl(t.regs.cpsr, s.regs.cpsr)
      && (!Privileged(Mode(s)) || Bit22(ins) ==> SameButFlags(t.regs.cpsr, s.regs.cpsr))
      && Decoded(code)
  {
    hide MsrOperand, ByteMask, ModeOf, ReadSpsr, WriteSpsr, SameControl, SameButFlags, Merge, MsrValue, Privileged, NamesState;
    var operand, bytes := MsrOperand(ins), ByteMask(RnField(ins));
    SameReflexive(s.regs.cpsr);
    MergeKeeps(s.regs.cpsr, operand, bytes, Privileged(Mode(s)));
    SpsrKeepsCpsr();
  }

  lemma MergeKeeps(c: bv32, operand: bv32, bytes: bv32, privileged: bool)
    ensures var d := MsrValue(c, operand, bytes, privileged);
      SameControl(d, c) && (!privileged ==> SameButFlags(d, c))
  {
  }

  lemma SpsrKeepsCpsr()
    ensures forall f, mode, v :: WriteSpsr(f, mode, v).cpsr == f.cpsr
  {
  }

  /** An MSR to the CPSR, the one instruction that may touch the mode. */
  predicate WritesMode(ins: Word) {
    Class(ins) == 1 && Bit24(ins) && !Bit23(ins) && !Bit22(ins) && Bit21(ins) && !Bit20(ins)
  }

  lemma DispatchKeepsControl(s: State, ins: Word, g: Garbage)
    ensures var (t, code) := Dispatch(s, ins, g);
      SameControl(t.regs.cpsr, s.regs.cpsr)
      && (!SameButFlags(t.regs.cpsr, s.regs.cpsr) ==> Privileged(Mode(s)) && WritesMode(ins))
      && (Decoded(code) || code == SOFTWARE_INTERRUPT)
  {
    hide LoadStore.LoadOrStore, LoadStoreMultiple.Multiple, ProcessShift, ProcessImmediate, Msr, ModeOf, Reg, Privileged,
      BranchOther.Branch, BranchOther.Miscellaneous, SameControl, SameButFlags;
    LoadOrStoreKeepsCpsr(s, ins, g);
    MultipleKeepsCpsr(s, ins, g);
    ProcessShiftKeepsControl(s, ins);
    ProcessImmediateKeepsControl(s, ins);
    MsrKeepsControl(s, ins);
    BranchesKeepCpsr(s, ins);
    SameReflexive(s.regs.cpsr);
    var t := Dispatch(s, ins, g).0;
    if SameButFlags(t.regs.cpsr, s.regs.cpsr) {
      ButFlagsIsControl(t.regs.cpsr, s.regs.cpsr);
    }
  }

  lemma BranchesKeepCpsr(s: State, ins: Word)
    ensures var (t, code) := BranchOther.Branch(s, ins);
      t.regs.cpsr == s.regs.cpsr && Decoded(code)
    ensures var (t, code) := BranchOther.Miscellaneous(s, ins);
      t.regs.cpsr == s.regs.cpsr && Decoded(code)
  {
    hide BranchOther.BranchOffset, BranchOther.StatusWord, Reg, ModeOf, Class, RdField, Bit22, Bit24, Wrap, Write, WriteSpsr, ReadSpsr;
    SpsrKeepsCpsr();
    WriteKeepsCpsr();
  }

  /** For every word and every state: bits 27 to 4 of the CPSR never change; bits 3 to 0 change only in a
      privileged mode, through MSR to the CPSR. */
  lemma ExecuteKeepsControl(s: State, g: Garbage)
    ensures var (t, code) := Execute(s, g);
      var ins := Fetch(s, g).1;
      SameControl(t.regs.cpsr, s.regs.cpsr)
      && (!SameButFlags(t.regs.cpsr, s.regs.cpsr) ==> Privileged(Mode(s)) && WritesMode(ins) && Passes(s.regs.cpsr, Cond(ins)))
      && (Decoded(code) || code == SOFTWARE_INTERRUPT)
  {
    hide Dispatch, SameControl, SameButFlags, Privileged, Passes, WordAt, WritesMode;
    var (s1, ins) := Fetch(s, g);
    FetchKeepsCpsr(s, g);
    SameReflexive(s.regs.cpsr);
    DispatchKeepsControl(s1, ins, g);
  }

  lemma FetchKeepsCpsr(s: State, g: Garbage)
    ensures Fetch(s, g).0.regs.cpsr == s.regs.cpsr
  {
  }

  // ----- runs -----

  /** What can happen to a running simulator: it steps, or an exception number is delivered to it. */
  datatype Event = Tick(g: Garbage) | Deliver(exception: Byte, g: Garbage)

  function Happen(s: State, e: Event): State {
    match e
    case Tick(g) => Step(s, g).0
    case Deliver(x, g) => Exceptions.Exception(s, x, g).0
  }

  function RunOf(s: State, es: seq<Event>): State
    decreases |es|
  {
    if es == [] then s else RunOf(Happen(s, es[0]), es[1..])
  }

  /** Bits 27 to 7, 5 and 4: IRQs disabled, ARM state, a mode number from 16 up, nothing unallocated set. */
  predicate Invariant(cpsr: bv32) {
    cpsr & 0x0FFF_FFB0 == 0x190
  }

  lemma ControlKeepsInvariant(c: bv32, d: bv32)
    requires SameControl(d, c) && Invariant(c)
    ensures Invariant(d)
  {
    assert c & 0x0FFF_FFB0 == (c & 0x0FFF_FFF0) & 0x0FFF_FFB0;
    assert d & 0x0FFF_FFB0 == (d & 0x0FFF_FFF0) & 0x0FFF_FFB0;
  }

  /** The exceptions that enter supervisor mode. */
  predicate Enters(exception: int) {
    exception == RESET || exception == DATA_ABORT || exception == FAST_INTERRUPT || exception == INTERRUPT
    || exception == PREFETCH_ABORT || exception == UNDEFINED_INSTRUCTION
  }

  lemma ExceptionCpsr(s: State, x: Byte, g: Garbage)
    ensures var t := Exceptions.Exception(s, x, g).0;
      if !Enters(x) then t == s
      else t.regs.cpsr == Exceptions.EntryCpsr(x)
  {
    hide Reg, ModeOf, WordAt;
  }

  lemma EntryCpsrs()
    ensures forall x {:trigger Exceptions.EntryCpsr(x)} ::
      Invariant(Exceptions.EntryCpsr(x)) && ModeOf(Exceptions.EntryCpsr(x)) == SVC
  {
  }

  lemma HappenKeepsInvariant(s: State, e: Event)
    requires Invariant(s.regs.cpsr)
    ensures Invariant(Happen(s, e).regs.cpsr)
  {
    hide Invariant, SameControl, SameButFlags, Execute, Exceptions.Exception, Fetch, Passes, WritesMode, Privileged, ModeOf;
    EntryCpsrs();
    match e
    case Deliver(x, g) =>
      ExceptionCpsr(s, x, g);
    case Tick(g) =>
      var (s1, code) := Execute(s, g);
      ExecuteKeepsControl(s, g);
      ControlKeepsInvariant(s.regs.cpsr, s1.regs.cpsr);
      ExceptionCpsr(s1, code % 0x100, g);
  }

  lemma {:induction false} RunKeepsInvariant(s: State, es: seq<Event>)
    requires Invariant(s.regs.cpsr)
    ensures Invariant(RunOf(s, es).regs.cpsr)
    decreases |es|
  {
    hide Invariant, Happen;
    if es != [] {
      HappenKeepsInvariant(s, es[0]);
      RunKeepsInvariant(Happen(s, es[0]), es[1..]);
    }
  }

  /** From creation on, whatever the registers, the memory and the code, and in any interleaving of steps
      and deliveries. */
  lemma EveryRunKeepsInvariant(regs: RegisterFile, mem: Bytes, be: bool, g: Garbage, es: seq<Event>)
    ensures Invariant(RunOf(Exceptions.Create(regs, mem, be, g), es).regs.cpsr)
  {
    hide Invariant, RunOf, Exceptions.Exception, Write;
    EntryCpsrs();
    var s := State(regs, mem, 0, be);
    ExceptionCpsr(s, RESET, g);
    var s1 := Exceptions.Exception(s, RESET, g).0;
    SetRegKeeps(s1, 13, Wrap(|mem|));
    RunKeepsInvariant(Exceptions.Create(regs, mem, be, g), es);
  }

  // ----- what events keep -----

  /** The event raises no exception that enters supervisor mode. */
  predicate Calm(s: State, e: Event) {
    match e
    case Tick(g) => Execute(s, g).1 != UNDEFINED_INSTRUCTION
    case Deliver(x, g) => !Enters(x)
  }

  /** One event in an unprivileged mode keeps the mode exactly when it is calm; otherwise it enters
      supervisor mode. */
  lemma UnprivilegedEvent(s: State, e: Event)
    requires !Privileged(Mode(s))
    ensures Mode(Happen(s, e)) == if Calm(s, e) then Mode(s) else SVC
    ensures Mode(Happen(s, e)) == Mode(s) <==> Calm(s, e)
  {
    hide SameControl, SameButFlags, Execute, Exceptions.Exception, Fetch, Passes, WritesMode, ModeOf, Invariant;
    EntryCpsrs();
    match e
    case Deliver(x, g) =>
      ExceptionCpsr(s, x, g);
    case Tick(g) =>
      var (s1, code) := Execute(s, g);
      ExecuteKeepsControl(s, g);
      ButFlagsIsControl(s1.regs.cpsr, s.regs.cpsr);
      ExceptionCpsr(s1, code % 0x100, g);
  }

  /** Every event of the run is calm when it happens. */
  predicate CalmRun(s: State, es: seq<Event>)
    decreases |es|
  {
    es != [] ==> Calm(s, es[0]) && CalmRun(Happen(s, es[0]), es[1..])
  }

  lemma {:induction false} UnprivilegedRun(s: State, es: seq<Event>)
    requires !Privileged(Mode(s)) && CalmRun(s, es)
    ensures Mode(RunOf(s, es)) == Mode(s)
    decreases |es|
  {
    hide Happen, Calm, ModeOf;
    if es != [] {
      UnprivilegedEvent(s, es[0]);
      UnprivilegedRun(Happen(s, es[0]), es[1..]);
    }
  }

  // ----- the flags and the mode over runs -----

  /** A data-processing instruction with the S suffix. */
  predicate SetsFlags(ins: Word) {
    Bit20(ins) && (Class(ins) == 1 || (Class(ins) == 0 && !(Bit4(ins) && Bit7(ins))))
  }

  /** Only S-suffixed data processing and MSR can change any bit of the CPSR. */
  lemma OnlySomeChangeCpsr(s: State, ins: Word, g: Garbage)
    requires !SetsFlags(ins) && !WritesMode(ins)
    ensures Dispatch(s, ins, g).0.regs.cpsr == s.regs.cpsr
  {
    hide LoadStore.LoadOrStore, LoadStoreMultiple.Multiple, ProcessShift, ProcessImmediate, Msr, ModeOf, Reg,
      BranchOther.Branch, BranchOther.Miscellaneous, Bit4, Bit7, Bit20, Bit21, Bit22, Bit23, Bit24, Class;
    LoadOrStoreKeepsCpsr(s, ins, g);
    MultipleKeepsCpsr(s, ins, g);
    BranchesKeepCpsr(s, ins);
    if !Bit20(ins) {
      UnsuffixedKeepsCpsr(s, ins);
    }
    if Bit22(ins) {
      MsrSpsrKeepsCpsr(s, ins);
    }
  }

  lemma UnsuffixedKeepsCpsr(s: State, ins: Word)
    requires !Bit20(ins)
    ensures ProcessShift(s, ins).0.regs.cpsr == s.regs.cpsr && ProcessImmediate(s, ins).0.regs.cpsr == s.regs.cpsr
  {
    hide WriteBack, Alu, ImmediateShift, RegisterShift, RotatedImmediate, Reg, FlagC, FlagV, ModeOf;
    forall rd, r ensures WriteBack(s, false, rd, s.regs.cpsr, r).0.regs.cpsr == s.regs.cpsr {
      WriteBackKeepsControl(s, false, rd, r);
    }
  }

  lemma MsrSpsrKeepsCpsr(s: State, ins: Word)
    requires Bit22(ins)
    ensures Msr(s, ins).0.regs.cpsr == s.regs.cpsr
  {
    hide MsrOperand, ByteMask, ModeOf, ReadSpsr, WriteSpsr, Merge;
    SpsrKeepsCpsr();
  }

  /** A calm event that executes no MSR to the CPSR, and, if `flags`, nothing S-suffixed either. */
  predicate Quiet(s: State, e: Event, flags: bool) {
    Calm(s, e)
    && (e.Tick? ==>
          var ins := Fetch(s, e.g).1;
          Passes(s.regs.cpsr, Cond(ins)) ==> !WritesMode(ins) && (flags ==> !SetsFlags(ins)))
  }

  predicate QuietRun(s: State, es: seq<Event>, flags: bool)
    decreases |es|
  {
    es != [] ==> Quiet(s, es[0], flags) && QuietRun(Happen(s, es[0]), es[1..], flags)
  }

  lemma QuietEvent(s: State, e: Event, flags: bool)
    requires Quiet(s, e, flags)
    ensures SameButFlags(Happen(s, e).regs.cpsr, s.regs.cpsr)
    ensures flags ==> Happen(s, e).regs.cpsr == s.regs.cpsr
  {
    hide SameControl, SameButFlags, Execute, Exceptions.Exception, Fetch, Passes, WritesMode, SetsFlags, Privileged, ModeOf;
    SameReflexive(s.regs.cpsr);
    match e
    case Deliver(x, g) =>
      ExceptionCpsr(s, x, g);
    case Tick(g) =>
      var (s1, code) := Execute(s, g);
      ExecuteKeepsControl(s, g);
      ExceptionCpsr(s1, code % 0x100, g);
      if flags {
        ExecuteKeepsCpsr(s, g);
      }
  }

  lemma ExecuteKeepsCpsr(s: State, g: Garbage)
    requires var ins := Fetch(s, g).1;
      Passes(s.regs.cpsr, Cond(ins)) ==> !WritesMode(ins) && !SetsFlags(ins)
    ensures Execute(s, g).0.regs.cpsr == s.regs.cpsr
  {
    hide Dispatch, Passes, WordAt, WritesMode, SetsFlags, Cond;
    var (s1, ins) := Fetch(s, g);
    FetchKeepsCpsr(s, g);
    if Passes(s.regs.cpsr, Cond(ins)) {
      OnlySomeChangeCpsr(s1, ins, g);
    }
  }

  /** Over a run of any length, in any mode, whose events are quiet, everything but the flags stays; a condition
      that nothing S-suffixed has touched still holds where it is read. */
  lemma {:induction false} QuietRunKeepsCpsr(s: State, es: seq<Event>, flags: bool)
    requires QuietRun(s, es, flags)
    ensures SameButFlags(RunOf(s, es).regs.cpsr, s.regs.cpsr) && Mode(RunOf(s, es)) == Mode(s)
    ensures flags ==> RunOf(s, es).regs.cpsr == s.regs.cpsr
    decreases |es|
  {
    hide Happen, Quiet, ModeOf, SameButFlags;
    SameReflexive(s.regs.cpsr);
    if es != [] {
      var s1 := Happen(s, es[0]);
      QuietEvent(s, es[0], flags);
      QuietRunKeepsCpsr(s1, es[1..], flags);
      SameJoins(RunOf(s, es).regs.cpsr, s1.regs.cpsr, s.regs.cpsr);
    }
    ButFlagsIsControl(RunOf(s, es).regs.cpsr, s.regs.cpsr);
  }

  lemma SameJoins(c: bv32, d: bv32, e: bv32)
    requires SameButFlags(c, d) && SameButFlags(d, e)
    ensures SameButFlags(c, e) && SameButFlags(e, c)
  {
  }
}
