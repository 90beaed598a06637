/** arm_exception.c: entering an exception, and the software interrupts handled by the simulator. */
module Exceptions {
  import opened Bits
  import opened Registers
  import opened Memory
  import opened Core

  /** Supervisor mode with both interrupts disabled; the second leaves fast interrupts enabled. */
  const ENTRY_CPSR: bv32 := 0x1d3
  const ENTRY_CPSR_FIQ: bv32 := 0x193

  /** Save the PC and the CPSR in the interrupted mode, and go to a vector in supervisor mode. */
  function Enter(s: State, cpsr: bv32, ahead: int, vector: Word): State {
    var s1 := SetReg(s, 14, Wrap(Reg(s, 15) + ahead));
    var s2 := SetSpsr(s1, s1.regs.cpsr);
    SetReg(SetCpsr(s2, cpsr), 15, vector)
  }

  /** arm_exception. */
  function Exception(s: State, exception: Byte, g: Garbage): (State, int) {
    if exception == SOFTWARE_INTERRUPT then
      var ins := WordAt(s, Wrap(Reg(s, 15) - 8), g(REFETCHED)) % 0x100_0000;
      (s, if ins == 0x12_3456 then END_SIMULATION else if ins == 1 then 0 else exception)
    else
      (if exception == RESET then SetReg(SetCpsr(s, ENTRY_CPSR), 15, 0)
       else if exception == FAST_INTERRUPT then Enter(s, ENTRY_CPSR, 4, 0x1C)
       else if exception == INTERRUPT then Enter(s, ENTRY_CPSR_FIQ, 4, 0x18)
       else if exception == UNDEFINED_INSTRUCTION then Enter(s, ENTRY_CPSR_FIQ, 0, 4)
       else if exception == PREFETCH_ABORT then Enter(s, ENTRY_CPSR_FIQ, 4, 0xC)
       else if exception == DATA_ABORT then Enter(s, ENTRY_CPSR_FIQ, 8, 0x10)
       else s,
       exception)
  }

  /** arm_create: a reset, then the stack pointer at the end of memory. */
  function Create(regs: RegisterFile, mem: Bytes, be: bool, g: Garbage): State {
    SetReg(Exception(State(regs, mem, 0, be), RESET, g).0, 13, Wrap(|mem|))
  }

  method ArmEnter(p: ArmCore, cpsr: bv32, ahead: int, vector: Word)
    requires p.Valid()
    modifies p.Repr()
    ensures p.Abs() == Enter(old(p.Abs()), cpsr, ahead, vector)
  {
    var pc: Word := p.ReadRegister(15);
    p.WriteRegister(14, Wrap(pc + ahead));
    var before := p.ReadCpsr();
    p.WriteSpsr(before);
    p.WriteCpsr(cpsr);
    p.WriteRegister(15, vector);
  }

  method ArmException(p: ArmCore, exception: Byte, g: Garbage) returns (code: int)
    requires p.Valid()
    modifies p.Repr()
    ensures (p.Abs(), code) == Exception(old(p.Abs()), exception, g)
  {
    hide Enter, WordAt;
    var cpsr: bv32 := 0x1d3;
    code := exception;
    if exception == SOFTWARE_INTERRUPT {
      var pc: Word := p.ReadRegister(15);
      var ins: Word := p.ReadWord(Wrap(pc - 8), g(REFETCHED));
      ins := ins % 0x100_0000;
      if ins == 0x12_3456 {
        return END_SIMULATION;
      } else if ins == 1 {
        return 0;
      }
    } else if exception == RESET {
      p.WriteCpsr(cpsr);
      p.WriteRegister(15, 0);
    } else if exception == FAST_INTERRUPT {
      ArmEnter(p, cpsr, 4, 0x1C);
    } else if exception == INTERRUPT {
      ArmEnter(p, cpsr & !0x40, 4, 0x18);
    } else if exception == UNDEFINED_INSTRUCTION {
      ArmEnter(p, cpsr & !0x40, 0, 4);
    } else if exception == PREFETCH_ABORT {
      ArmEnter(p, cpsr & !0x40, 4, 0xC);
    } else if exception == DATA_ABORT {
      ArmEnter(p, cpsr & !0x40, 8, 0x10);
    }
  }

  method ArmCreate(reg: RegisterBank, mem: MemoryUnit, be: bool, g: Garbage) returns (p: ArmCore)
    requires reg.Valid() && mem.Valid() && reg.Repr() !! mem.Repr()
    modifies reg.Repr() + mem.Repr()
    ensures p.Valid() && fresh(p) && p.reg == reg && p.mem == mem
    ensures p.Abs() == Create(old(reg.Abs()), old(mem.Abs()), be, g)
  {
    p := new ArmCore(reg, mem, be);
    var code := ArmException(p, RESET, g);
    p.WriteRegister(13, Wrap(mem.data.Length));
  }

  // ----- what a handler finds -----

  /** The exceptions that save a return address. */
  predicate Saves(exception: int) {
    exception == DATA_ABORT || exception == FAST_INTERRUPT || exception == INTERRUPT
    || exception == PREFETCH_ABORT || exception == UNDEFINED_INSTRUCTION
  }

  /** Where the code links, relative to the address of the next instruction. */
  function LinkAhead(exception: int): int {
    if exception == DATA_ABORT then 12 else if exception == UNDEFINED_INSTRUCTION then 4 else 8
  }

  /** The value the code links: the address of the next instruction, and what LinkAhead adds. */
  function LinkOf(s: State, exception: int): Word {
    Wrap(PcView(Pc(s)) + LinkAhead(exception) - 4)
  }

  /** The state in which a handler would start if nothing was saved for it. */
  function Unsaved(s: State, exception: int): State {
    SetRegIn(SetCpsr(s, EntryCpsr(exception)), 15, SVC, VectorOf(exception))
  }

  /** Taking an exception, in any mode and at any PC.  The handler starts in supervisor mode at its vector.  The link
      and the CPSR are saved in the bank of the interrupted mode, or nowhere if that is none of the seven modes;
      so the handler finds its link, or the CPSR, exactly if supervisor mode was interrupted or already held it. */
  lemma ExceptionEntry(s: State, x: Byte, g: Garbage)
    requires Saves(x)
    ensures var (t, code) := Exception(s, x, g);
      code == x && Mode(t) == SVC && Pc(t) == VectorOf(x) && t.regs.cpsr == EntryCpsr(x)
      && t.mem == s.mem && t.cycles == s.cycles
      && (Pc(s) % 4 == 0 ==> LinkOf(s, x) == Wrap(Pc(s) + LinkAhead(x)))
      && (ValidMode(Mode(s)) ==> RegIn(t, 14, Mode(s)) == LinkOf(s, x))
      && (ExceptionMode(Mode(s)) ==> ReadSpsr(t.regs, Mode(s)) == s.regs.cpsr)
      && (!ValidMode(Mode(s)) ==> t == Unsaved(s, x))
      && (Reg(t, 14) == LinkOf(s, x) <==> Mode(s) == SVC || RegIn(s, 14, SVC) == LinkOf(s, x))
      && (Spsr(t) == s.regs.cpsr <==> Mode(s) == SVC || ReadSpsr(s.regs, SVC) == s.regs.cpsr)
  {
    hide Exception, Enter, PcView, Read, ReadSpsr, ModeOf, Wrap, LinkAhead, VectorOf, EntryCpsr, Unsaved;
    ExceptionIsEnter(s, x, g);
    EntryModes(x);
    if Pc(s) % 4 == 0 {
      AlignedLink(Pc(s), LinkAhead(x) - 4);
    }
    EnterBanks(s, EntryCpsr(x), LinkAhead(x) - 4, VectorOf(x));
    if !ValidMode(Mode(s)) {
      EnterUnsaved(s, x);
    }
  }

  /** Every exception number.  Reset and the five exceptions that save go to their vectors with IRQs disabled, and FIQs
      too for reset and fast interrupt; a data abort links the address of the next instruction and 12 more, an
      undefined instruction 4 more, the others 8 more.  Any other number changes nothing. */
  lemma ExceptionTable(s: State, x: Byte, g: Garbage)
    ensures var (t, code) := Exception(s, x, g);
      t.mem == s.mem && t.cycles == s.cycles
      && if x in {1, 2, 3, 4, 6, 7} then
           code == x && t.regs.cpsr == (if x == 1 || x == 3 then 0x1D3 else 0x193)
           && Pc(t) == (match x case 1 => 0 case 2 => 0x10 case 3 => 0x1C case 4 => 0x18 case 6 => 0xC case _ => 4)
           && (x != 1 && ValidMode(Mode(s)) && Pc(s) % 4 == 0 ==>
                 RegIn(t, 14, Mode(s)) == Wrap(Pc(s) + (match x case 2 => 12 case 7 => 4 case _ => 8)))
         else t == s
  {
    hide Exception, LinkOf, Unsaved, ModeOf, Read, ReadSpsr, Wrap;
    if Saves(x) {
      ExceptionEntry(s, x, g);
    } else {
      ResetOrNothing(s, x, g);
    }
  }

  lemma ResetOrNothing(s: State, x: Byte, g: Garbage)
    requires !Saves(x)
    ensures var t := Exception(s, x, g).0;
      t.mem == s.mem && t.cycles == s.cycles
      && if x == 1 then Exception(s, x, g).1 == 1 && t.regs.cpsr == 0x1D3 && Pc(t) == 0 else t == s
  {
    hide WordAt, ModeOf;
  }

  /** An interrupt in user mode at PC 0 links 8; the handler finds it just if r14 of supervisor mode held 8. */
  lemma LinkIsFoundByChance(s: State, g: Garbage)
    requires Mode(s) == USR && Pc(s) == 0
    ensures LinkOf(s, INTERRUPT) == 8
    ensures Reg(Exception(s, INTERRUPT, g).0, 14) == 8 <==> RegIn(s, 14, SVC) == 8
  {
    hide Exception, ModeOf, LinkOf, PcView, Read;
    ExceptionEntry(s, INTERRUPT, g);
  }

  /** The CPSR of a handler. */
  function EntryCpsr(exception: int): bv32 {
    if exception == FAST_INTERRUPT || exception == RESET then ENTRY_CPSR else ENTRY_CPSR_FIQ
  }

  lemma EntryModes(exception: int)
    ensures ModeOf(EntryCpsr(exception)) == SVC
  {
  }

  /** The vectors of section A2.6 of ARM DDI 0100. */
  function VectorOf(exception: int): Word {
    if exception == FAST_INTERRUPT then 0x1C
    else if exception == INTERRUPT then 0x18
    else if exception == DATA_ABORT then 0x10
    else if exception == PREFETCH_ABORT then 0xC
    else 4
  }

  lemma ExceptionIsEnter(s: State, x: Byte, g: Garbage)
    requires Saves(x)
    ensures Exception(s, x, g) == (Enter(s, EntryCpsr(x), LinkAhead(x) - 4, VectorOf(x)), x as int)
  {
    hide Enter;
  }

  lemma AlignedLink(pc: Word, ahead: int)
    requires pc % 4 == 0
    ensures Wrap(PcView(pc) + ahead) == Wrap(pc + ahead + 4)
  {
    hide Wrap, PcView;
    AlignedView(pc);
    WrapWrap(pc + 4, ahead);
  }

  lemma EnterBanks(s: State, cpsr: bv32, ahead: int, vector: Word)
    requires ModeOf(cpsr) == SVC
    ensures var t := Enter(s, cpsr, ahead, vector);
      var link := Wrap(PcView(Pc(s)) + ahead);
      Mode(t) == SVC && Pc(t) == vector && t.mem == s.mem && t.cycles == s.cycles && t.regs.cpsr == cpsr
      && (ValidMode(Mode(s)) ==> RegIn(t, 14, Mode(s)) == link)
      && (ExceptionMode(Mode(s)) ==> ReadSpsr(t.regs, Mode(s)) == s.regs.cpsr)
      && Reg(t, 14) == (if Mode(s) == SVC then link else RegIn(s, 14, SVC))
      && Spsr(t) == (if Mode(s) == SVC then s.regs.cpsr else ReadSpsr(s.regs, SVC))
  {
    hide PcView, ModeOf, Enter, Wrap, Read, ReadSpsr, Write, WriteSpsr;
    var link := Wrap(PcView(Pc(s)) + ahead);
    EnterParts(s, cpsr, ahead, vector);
    LinkBanks(s.regs, Mode(s), link, vector);
    StatusBanks(s.regs, Mode(s), s.regs.cpsr);
    ReadsOneTable(Write(Write(s.regs, 14, Mode(s), link), 15, SVC, vector), Enter(s, cpsr, ahead, vector).regs,
                  WriteSpsr(s.regs, Mode(s), s.regs.cpsr));
  }

  lemma EnterUnsaved(s: State, x: Byte)
    requires !ValidMode(Mode(s))
    ensures Enter(s, EntryCpsr(x), LinkAhead(x) - 4, VectorOf(x)) == Unsaved(s, x)
  {
    hide PcView, ModeOf, Wrap, LinkAhead, EntryCpsr, VectorOf;
    EntryModes(x);
  }

  /** The general table and the status table change independently. */
  lemma EnterParts(s: State, cpsr: bv32, ahead: int, vector: Word)
    requires ModeOf(cpsr) == SVC
    ensures var link := Wrap(PcView(Pc(s)) + ahead);
      Enter(s, cpsr, ahead, vector)
      == s.(regs := RegisterFile(Write(Write(s.regs, 14, Mode(s), link), 15, SVC, vector).general, cpsr,
                                 WriteSpsr(s.regs, Mode(s), s.regs.cpsr).status))
  {
    hide PcView, ModeOf, Wrap, ModeInd;
  }

  lemma ReadsOneTable(f: RegisterFile, t: RegisterFile, u: RegisterFile)
    requires f.general == t.general && t.status == u.status
    ensures forall r, mode :: Read(f, r, mode) == Read(t, r, mode)
    ensures forall mode :: ReadSpsr(t, mode) == ReadSpsr(u, mode)
  {
  }

  lemma StatusBanks(f: RegisterFile, mode: bv8, c: bv32)
    ensures ReadSpsr(WriteSpsr(f, mode, c), mode) == (if ExceptionMode(mode) then c else 0)
    ensures ReadSpsr(WriteSpsr(f, mode, c), SVC) == (if mode == SVC then c else ReadSpsr(f, SVC))
  {
  }

  lemma LinkBanks(f: RegisterFile, mode: bv8, link: Word, vector: Word)
    ensures var h := Write(Write(f, 14, mode, link), 15, SVC, vector);
      (ValidMode(mode) ==> Read(h, 14, mode) == link)
      && Read(h, 14, SVC) == (if mode == SVC then link else Read(f, 14, SVC)) && Read(h, 15, SVC) == vector
  {
  }
}
