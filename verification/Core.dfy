/** arm_core.c: the processor state, and the routing of every access by the current mode and endianness. */
module Core {
  import opened Bits
  import opened Registers
  import opened Memory

  // return codes of the decoders (arm_constants.h)
  const SUCCESSFULLY_DECODED := 0
  const RESET := 1
  const DATA_ABORT := 2
  const FAST_INTERRUPT := 3
  const INTERRUPT := 4
  const PREFETCH_ABORT := 6
  const UNDEFINED_INSTRUCTION := 7
  const SOFTWARE_INTERRUPT := 8
  const END_SIMULATION := 9

  // where an uninitialised local may be read; 0 to 15 stand for the word loaded into that register
  const FETCHED := 16
  const ADDRESS := 17
  const REFETCHED := 18
  const LOADED := 19

  /** The whole state of the machine.  `be` is the endianness chosen when the simulator is compiled. */
  datatype State = State(regs: RegisterFile, mem: Bytes, cycles: Word, be: bool)

  function Mode(s: State): bv8 {
    ModeOf(s.regs.cpsr)
  }

  /** What an instruction sees of a stored PC: 4 more, with bit 1 cleared (`& 0xFFFFFFFD`). */
  function PcView(stored: Word): Word {
    var w := Wrap(stored + 4);
    w - w / 2 % 2 * 2
  }

  function RegIn(s: State, reg: Byte, mode: bv8): Word {
    var value := Read(s.regs, reg, mode);
    if reg == 15 then PcView(value) else value
  }

  function Reg(s: State, reg: Byte): Word {
    RegIn(s, reg, Mode(s))
  }

  function SetRegIn(s: State, reg: Byte, mode: bv8, value: Word): State {
    s.(regs := Write(s.regs, reg, mode, value))
  }

  function SetReg(s: State, reg: Byte, value: Word): State {
    SetRegIn(s, reg, Mode(s), value)
  }

  /** The PC as it is stored: the address of the next instruction to fetch. */
  function Pc(s: State): Word {
    Read(s.regs, 15, Mode(s))
  }

  function SetCpsr(s: State, value: bv32): State {
    s.(regs := s.regs.(cpsr := value))
  }

  function Spsr(s: State): bv32 {
    ReadSpsr(s.regs, Mode(s))
  }

  function SetSpsr(s: State, value: bv32): State {
    s.(regs := WriteSpsr(s.regs, Mode(s), value))
  }

  /** arm_current_mode_has_spsr: the answer, and the copy of the CPSR that asking makes. */
  function AskSpsr(s: State): (State, bool) {
    (SetSpsr(s, s.regs.cpsr), ExceptionMode(Mode(s)))
  }

  /** If the mode has an SPSR, move it to the CPSR. */
  function RestoreCpsr(s: State): (State, bool) {
    var (s1, has) := AskSpsr(s);
    (if has then SetCpsr(s1, Spsr(s1)) else s1, has)
  }

  function WordAt(s: State, a: Word, held: Word): Word {
    OrElse(LoadWord(s.mem, a, s.be), held)
  }

  function SetWord(s: State, a: Word, value: Word): State {
    s.(mem := Store(s.mem, a, 4, value, s.be))
  }

  /** arm_fetch: the word at the PC, with the PC and the cycle count moved on. */
  function Fetch(s: State, g: Garbage): (State, Word) {
    (SetReg(s, 15, Wrap(Pc(s) + 4)).(cycles := Wrap(s.cycles + 1)), WordAt(s, Pc(s), g(FETCHED)))
  }

  /** struct arm_core_data: a processor with its registers and its memory. */
  class ArmCore {
    const reg: RegisterBank
    const mem: MemoryUnit
    const bigEndian: bool
    var cycleCount: Word

    function Repr(): set<object> {
      {this} + reg.Repr() + mem.Repr()
    }

    predicate Valid() {
      reg.Valid() && mem.Valid() && reg.Repr() !! mem.Repr() && this !in reg.Repr() + mem.Repr()
    }

    ghost function Abs(): State
      requires Valid()
      reads Repr()
    {
      State(reg.Abs(), mem.Abs(), cycleCount, bigEndian)
    }

    /** The part of arm_create before the reset. */
    constructor (reg: RegisterBank, mem: MemoryUnit, bigEndian: bool)
      requires reg.Valid() && mem.Valid() && reg.Repr() !! mem.Repr()
      ensures Valid() && this.reg == reg && this.mem == mem && fresh(this)
      ensures Abs() == State(reg.Abs(), mem.Abs(), 0, bigEndian)
    {
      this.reg := reg;
      this.mem := mem;
      this.bigEndian := bigEndian;
      cycleCount := 0;
    }

    method CurrentModeHasSpsr() returns (has: bool)
      requires Valid()
      modifies Repr()
      ensures (Abs(), has) == AskSpsr(old(Abs()))
    {
      has := reg.CurrentModeHasSpsr();
    }

    /** The common tail of an S-suffixed instruction that writes the PC. */
    method RestoreStatus() returns (has: bool)
      requires Valid()
      modifies Repr()
      ensures (Abs(), has) == RestoreCpsr(old(Abs()))
    {
      has := CurrentModeHasSpsr();
      if has {
        var spsr := ReadSpsr();
        WriteCpsr(spsr);
      }
    }

    method InPrivilegedMode() returns (yes: bool)
      requires Valid()
      ensures yes == Privileged(Mode(Abs()))
    {
      yes := reg.InPrivilegedMode();
    }

    method ReadRegisterInternal(r: Byte, mode: bv8) returns (value: Word)
      requires Valid()
      ensures value == RegIn(Abs(), r, mode)
    {
      value := reg.ReadRegister(r, mode);
      if r == 15 {
        value := Wrap(value + 4);
        value := value - value / 2 % 2 * 2;
      }
    }

    method ReadRegister(r: Byte) returns (value: Word)
      requires Valid()
      ensures value == Reg(Abs(), r)
    {
      var mode := reg.GetMode();
      value := ReadRegisterInternal(r, mode);
    }

    method ReadUsrRegister(r: Byte) returns (value: Word)
      requires Valid()
      ensures value == RegIn(Abs(), r, USR)
    {
      value := ReadRegisterInternal(r, USR);
    }

    method ReadCpsr() returns (value: bv32)
      requires Valid()
      ensures value == Abs().regs.cpsr
    {
      value := reg.cpsr;
    }

    method ReadSpsr() returns (value: bv32)
      requires Valid()
      ensures value == Spsr(Abs())
    {
      var mode := reg.GetMode();
      value := reg.ReadStatus(mode);
    }

    method WriteRegister(r: Byte, value: Word)
      requires Valid()
      modifies Repr()
      ensures Abs() == SetReg(old(Abs()), r, value)
    {
      var mode := reg.GetMode();
      reg.WriteRegister(r, mode, value);
    }

    method WriteUsrRegister(r: Byte, value: Word)
      requires Valid()
      modifies Repr()
      ensures Abs() == SetRegIn(old(Abs()), r, USR, value)
    {
      reg.WriteRegister(r, USR, value);
    }

    method WriteCpsr(value: bv32)
      requires Valid()
      modifies Repr()
      ensures Abs() == SetCpsr(old(Abs()), value)
    {
      reg.WriteCpsr(value);
    }

    method WriteSpsr(value: bv32)
      requires Valid()
      modifies Repr()
      ensures Abs() == SetSpsr(old(Abs()), value)
    {
      var mode := reg.GetMode();
      reg.WriteStatus(mode, value);
    }

    method ReadByte(address: Word, held: Byte) returns (value: Byte)
      requires Valid()
      ensures value == OrElse(LoadByte(Abs().mem, address), held)
    {
      var result;
      result, value := mem.ReadByte(address, held);
    }

    method ReadHalf(address: Word, held: Half) returns (value: Half)
      requires Valid()
      ensures value == OrElse(LoadHalf(Abs().mem, address, Abs().be), held)
    {
      var result;
      result, value := mem.ReadHalf(address, held, bigEndian);
    }

    method ReadWord(address: Word, held: Word) returns (value: Word)
      requires Valid()
      ensures value == WordAt(Abs(), address, held)
    {
      var result;
      result, value := mem.ReadWord(address, held, bigEndian);
    }

    method WriteByte(address: Word, value: Byte)
      requires Valid()
      modifies Repr()
      ensures Abs() == old(Abs()).(mem := Store(old(Abs()).mem, address, 1, value, old(Abs()).be))
    {
      var result := mem.WriteByte(address, value);
    }

    method WriteHalf(address: Word, value: Half)
      requires Valid()
      modifies Repr()
      ensures Abs() == old(Abs()).(mem := Store(old(Abs()).mem, address, 2, value, old(Abs()).be))
    {
      var result := mem.WriteHalf(address, value, bigEndian);
    }

    method WriteWord(address: Word, value: Word)
      requires Valid()
      modifies Repr()
      ensures Abs() == SetWord(old(Abs()), address, value)
    {
      var result := mem.WriteWord(address, value, bigEndian);
    }

    /** arm_fetch.  `held` is what the caller's local holds if the word cannot be read. */
    method FetchWord(g: Garbage) returns (value: Word)
      requires Valid()
      modifies Repr()
      ensures (Abs(), value) == Fetch(old(Abs()), g)
    {
      var mode := reg.GetMode();
      var address: Word := reg.ReadRegister(15, mode);
      reg.WriteRegister(15, mode, Wrap(address + 4));
      value := ReadWord(address, g(FETCHED));
      cycleCount := Wrap(cycleCount + 1);
    }
  }

  /** Asking whether there is an SPSR has just overwritten it, so restoring it changes nothing. */
  lemma RestoreKeepsCpsr(s: State)
    ensures RestoreCpsr(s).0.regs.cpsr == s.regs.cpsr
    ensures RestoreCpsr(s).0.regs.general == s.regs.general
    ensures RestoreCpsr(s).0.mem == s.mem && RestoreCpsr(s).0.be == s.be && RestoreCpsr(s).0.cycles == s.cycles
    ensures RestoreCpsr(s).1 == ExceptionMode(Mode(s))
  {
  }

  // ----- frames -----

  lemma SetRegKeeps(s: State, r: Byte, v: Word)
    ensures var t := SetReg(s, r, v);
      t.regs.cpsr == s.regs.cpsr && t.regs.status == s.regs.status && t.mem == s.mem && t.be == s.be && t.cycles == s.cycles
  {
  }

  lemma SameRegisters(s: State, t: State, q: Byte, view: bv8)
    requires s.regs == t.regs
    ensures RegIn(s, q, view) == RegIn(t, q, view) && Reg(s, q) == Reg(t, q)
  {
  }

  lemma SameWord(s: State, t: State, a: Word, held: Word)
    requires s.mem == t.mem && s.be == t.be
    ensures WordAt(s, a, held) == WordAt(t, a, held)
  {
  }

  // ----- registers seen from one mode -----

  lemma SetThenGet(s: State, r: Byte, v: Word, q: Byte)
    requires r < 16 && q < 16 && Mapped(r, Mode(s))
    ensures Mode(SetReg(s, r, v)) == Mode(s)
    ensures Reg(SetReg(s, r, v), q) == if q != r then Reg(s, q) else if r == 15 then PcView(v) else v
  {
    if q != r && Mapped(q, Mode(s)) {
      SlotsDiffer(r, q, Mode(s));
    }
  }

  lemma SlotsDiffer(r: Byte, q: Byte, mode: bv8)
    requires r < 16 && q < 16 && r != q && Mapped(r, mode) && Mapped(q, mode)
    ensures Slot(r, mode) != Slot(q, mode)
  {
  }

  lemma AlignedNext(pc: Word)
    requires pc % 4 == 0
    ensures Wrap(pc + 4) % 4 == 0
  {
    hide Wrap;
    WrapSmall(pc, 4);
  }

  lemma AlignedView(pc: Word)
    requires pc % 4 == 0
    ensures PcView(pc) == Wrap(pc + 4)
  {
    hide Wrap;
    AlignedNext(pc);
    var w: Word := Wrap(pc + 4);
    assert w == 2 * (2 * (w / 4));
  }

  /** A word-aligned PC is read as 8 more than the address of the instruction being executed. */
  lemma AlignedPcView(a: Word)
    requires a % 4 == 0
    ensures PcView(Wrap(a + 4)) == Wrap(a + 8)
    ensures Wrap(PcView(Wrap(a + 4)) - 8) == a
  {
    hide Wrap, PcView;
    AlignedNext(a);
    AlignedView(Wrap(a + 4));
    WrapWrap(a + 4, 4);
    WrapWrap(a + 8, -8);
    WrapWord(a);
  }

  /** Words stored and loaded: at the same address, and at addresses at least four apart. */
  lemma WordAfterStore(m: Bytes, a: Word, v: Word, be: bool)
    requires InRange(m, a, 4)
    ensures LoadWord(Store(m, a, 4, v, be), a, be) == Some(v)
  {
    hide Load;
    assert v < Pow2(8 * 4) by { Pow2Values(); }
    LoadAfterStore(m, a, 4, v, be);
  }

  lemma WordElsewhere(m: Bytes, a: Word, v: Word, b: Word, be: bool)
    requires a + 4 <= b || b + 4 <= a
    ensures LoadWord(Store(m, a, 4, v, be), b, be) == LoadWord(m, b, be)
  {
    hide Load;
    if InRange(m, b, 4) {
      LoadElsewhere(m, a, 4, v, be, b, 4, be);
    }
  }

  lemma BytesOutsideStore(m: Bytes, a: Word, v: Word, be: bool)
    ensures forall i :: 0 <= i < |m| && !(a <= i < a + 4) ==> Store(m, a, 4, v, be)[i] == m[i]
  {
  }
}
