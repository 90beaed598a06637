/** What an instruction cannot change: memory unless it is a store, and, in an unprivileged mode, the
    registers of the exception modes. */
module Isolation {
  import opened Bits
  import opened Decode
  import opened Registers
  import opened Memory
  import opened Shifter
  import opened Core
  import opened DataProcessing
  import opened Instruction
  import opened Runs
  import opened LoadStore
  import opened LoadStoreMultiple
  import BlockTransfers
  import opened BranchOther
  import Exceptions

  // ----- only stores change memory -----

  /** Encodings that store: single and half-word transfers and block transfers, with L clear. */
  predicate IsStore(ins: Word) {
    !Bit20(ins) && (Class(ins) == 2 || Class(ins) == 3 || Class(ins) == 4 || HalfWord(ins))
  }

  predicate MemoryKept(s: State, t: State, ins: Word) {
    |t.mem| == |s.mem| && (!IsStore(ins) ==> t.mem == s.mem)
  }

  lemma LoadOrStoreMemory(s: State, ins: Word, g: Garbage)
    requires Class(ins) == 2 || Class(ins) == 3 || HalfWord(ins)
    ensures MemoryKept(s, LoadOrStore(s, ins, g).0, ins)
  {
    hide AddressOf, Reg, LoadByte, LoadHalf, WordAt;
    AddressMemory(s, ins, g);
  }

  lemma AddressMemory(s: State, ins: Word, g: Garbage)
    ensures var addressed := AddressOf(s, ins, g);
      addressed.Some? ==> addressed.value.0.mem == s.mem
  {
    hide OffsetOf, Offset, Reg, ModeOf;
  }

  lemma MultipleMemory(s: State, ins: Word, g: Garbage)
    requires Class(ins) == 4
    ensures MemoryKept(s, Multiple(s, ins, g).0, ins)
  {
    hide TransferBlock, Start, Count, Reg, ModeOf;
    var list := Low16(ins);
    var start := Start(Bit24(ins), Bit23(ins), Reg(s, RnField(ins)), Count(list));
    BlockTransfers.TransferKeeps(s, Bit20(ins), Bit22(ins), list, start, g);
  }

  lemma WriteBackMemory(s: State, setFlags: bool, rd: Byte, r: AluResult)
    ensures WriteBack(s, setFlags, rd, s.regs.cpsr, r).0.mem == s.mem
  {
    hide RestoreCpsr, WithFlags;
    RestoreKeepsCpsr(if r.writes then SetReg(s, rd, r.value) else s);
  }

  lemma ProcessShiftMemory(s: State, ins: Word)
    ensures ProcessShift(s, ins).0.mem == s.mem
  {
    hide WriteBack, Alu, ImmediateShift, RegisterShift, Reg, FlagC, FlagV, ModeOf;
    forall rd, r ensures WriteBack(s, Bit20(ins), rd, s.regs.cpsr, r).0.mem == s.mem {
      WriteBackMemory(s, Bit20(ins), rd, r);
    }
  }

  lemma ProcessImmediateMemory(s: State, ins: Word)
    ensures ProcessImmediateOrMsr(s, ins).0.mem == s.mem
  {
    hide WriteBack, Alu, RotatedImmediate, MsrOperand, ByteMask, Merge, MsrValue, NamesState, Reg, FlagC, FlagV, ModeOf;
    forall rd, r ensures WriteBack(s, Bit20(ins), rd, s.regs.cpsr, r).0.mem == s.mem {
      WriteBackMemory(s, Bit20(ins), rd, r);
    }
  }

  /** An instruction that is not a store leaves all of memory as it was. */
  lemma OnlyStoresChangeMemory(s: State, ins: Word, g: Garbage)
    ensures MemoryKept(s, Dispatch(s, ins, g).0, ins)
  {
    hide LoadOrStore, Multiple, ProcessShift, ProcessImmediateOrMsr, BranchOffset, StatusWord, Reg, ModeOf, IsStore;
    if Class(ins) == 2 || Class(ins) == 3 || HalfWord(ins) {
      LoadOrStoreMemory(s, ins, g);
    }
    if Class(ins) == 4 {
      MultipleMemory(s, ins, g);
    }
    ProcessShiftMemory(s, ins);
    ProcessImmediateMemory(s, ins);
  }

  // ----- unprivileged code cannot reach the exception modes' registers -----

  /** The same banked registers of the exception modes, and the same five SPSRs. */
  predicate BanksKept(s: State, t: State) {
    t.regs.status == s.regs.status && forall i :: 16 <= i < 96 ==> t.regs.general[i] == s.regs.general[i]
  }

  lemma BanksJoin(s: State, t: State, u: State)
    requires BanksKept(s, t) && BanksKept(t, u)
    ensures BanksKept(s, u)
  {
  }

  /** A mode that sees no bank but the user's. */
  predicate UserView(mode: bv8) {
    forall r: Byte :: r < 16 ==> Mapped(r, mode) ==> Slot(r, mode) < 16
  }

  lemma UnprivilegedView(mode: bv8)
    requires !Privileged(mode)
    ensures UserView(mode) && !ExceptionMode(mode)
  {
  }

  lemma UserIsUserView()
    ensures UserView(USR)
  {
  }

  lemma SetRegBanks(s: State, r: Byte, view: bv8, v: Word)
    requires UserView(view) && r < 16
    ensures BanksKept(s, SetRegIn(s, r, view, v))
  {
  }

  lemma AskBanks(s: State)
    requires !ExceptionMode(Mode(s))
    ensures AskSpsr(s) == (s, false) && RestoreCpsr(s) == (s, false)
  {
  }

  lemma LoadOrStoreBanks(s: State, ins: Word, g: Garbage)
    requires UserView(Mode(s))
    ensures BanksKept(s, LoadOrStore(s, ins, g).0)
  {
    hide AddressOf, Transfer, TransferHalf, BanksKept, ModeOf, UserView;
    AddressBanks(s, ins, g);
    AddressKeepsCpsr(s, ins, g);
    var addressed := AddressOf(s, ins, g);
    BanksReflexive(s);
    if addressed.Some? {
      var s1 := addressed.value.0;
      TransferBanks(s1, ins, addressed.value.1, g);
      BanksJoin(s, s1, TransferHalf(s1, ins, addressed.value.1, g).0);
      BanksJoin(s, s1, Transfer(s1, ins, addressed.value.1, g));
    }
  }

  lemma BanksReflexive(s: State)
    ensures BanksKept(s, s)
  {
  }

  lemma AddressBanks(s: State, ins: Word, g: Garbage)
    requires UserView(Mode(s))
    ensures var addressed := AddressOf(s, ins, g);
      addressed.Some? ==> BanksKept(s, addressed.value.0)
  {
    hide OffsetOf, Offset, Reg, ModeOf, BanksKept, UserView, SetReg;
    BanksReflexive(s);
    forall v ensures BanksKept(s, SetReg(s, RnField(ins), v)) {
      SetHere(s, RnField(ins), v);
    }
  }

  lemma SetHere(s: State, r: Byte, v: Word)
    requires UserView(Mode(s)) && r < 16
    ensures BanksKept(s, SetReg(s, r, v))
  {
    SetRegBanks(s, r, Mode(s), v);
  }

  lemma TransferBanks(s: State, ins: Word, a: Word, g: Garbage)
    requires UserView(Mode(s))
    ensures BanksKept(s, Transfer(s, ins, a, g)) && BanksKept(s, TransferHalf(s, ins, a, g).0)
  {
    hide Reg, ModeOf, UserView, SetReg, Store, WordAt, BanksKept;
    var rd := RdField(ins);
    BanksReflexive(s);
    SetHere(s, rd, OrElse(LoadByte(s.mem, a), g(rd) % 0x100));
    SetHere(s, rd, OrElse(LoadHalf(s.mem, a, s.be), g(rd) % 0x1_0000));
    SetHere(s, rd, WordAt(s, a, g(rd)));
    SameRegistersSameBanks(s, s.(mem := Store(s.mem, a, 1, Reg(s, rd) % 0x100, s.be)));
    SameRegistersSameBanks(s, s.(mem := Store(s.mem, a, 2, Reg(s, rd) % 0x1_0000, s.be)));
    SameRegistersSameBanks(s, SetWord(s, a, Reg(s, rd)));
  }

  lemma {:induction false} LoadRegistersBanks(s: State, list: Half, start: Word, k: nat, view: bv8, g: Garbage)
    requires k <= 16 && UserView(view)
    ensures BanksKept(s, LoadRegisters(s, list, start, k, view, g))
  {
    hide LoadStoreMultiple.Address, Listed, WordAt, SetRegIn, UserView, BanksKept;
    BanksReflexive(s);
    if k > 0 {
      LoadRegistersBanks(s, list, start, k - 1, view, g);
      var s1 := LoadRegisters(s, list, start, k - 1, view, g);
      var v := WordAt(s1, LoadStoreMultiple.Address(list, start, k - 1), g(k - 1));
      SetRegBanks(s1, k - 1, view, v);
      BanksJoin(s, s1, SetRegIn(s1, k - 1, view, v));
    }
  }

  lemma TransferBlockBanks(s: State, load: bool, user: bool, list: Half, start: Word, g: Garbage)
    requires UserView(Mode(s)) && !ExceptionMode(Mode(s))
    ensures BanksKept(s, TransferBlock(s, load, user, list, start, g).0)
  {
    hide LoadAndReturn, LoadPlain, LoadRegisters, StoreRegisters, Listed, ModeOf, UserView, BanksKept, ExceptionMode;
    UserIsUserView();
    LoadToPcBanks(s, list, start, g);
    LoadRegistersBanks(s, list, start, 15, USR, g);
    StoreKeepsRegisters(s, list, start, 16, View(s, user));
    SameRegistersSameBanks(s, StoreRegisters(s, list, start, 16, View(s, user)));
  }

  lemma LoadToPcBanks(s: State, list: Half, start: Word, g: Garbage)
    requires UserView(Mode(s)) && !ExceptionMode(Mode(s))
    ensures BanksKept(s, LoadAndReturn(s, list, start, g).0) && BanksKept(s, LoadPlain(s, list, start, g))
  {
    hide LoadRegisters, LoadStoreMultiple.Address, Listed, ModeOf, RestoreCpsr, WordAt, UserView, BanksKept, SetReg,
      ExceptionMode, Retained;
    var held := Retained(s.mem, s.be, list, start, g);
    LoadKeepsMode(s, list, start, 15, Mode(s), g);
    LoadRegistersBanks(s, list, start, 15, Mode(s), g);
    AskBanks(LoadRegisters(s, list, start, 15, Mode(s), g));
    LoadKeepsMode(s, list, start, 15, Mode(s), held);
    LoadRegistersBanks(s, list, start, 15, Mode(s), held);
    var s1 := LoadRegisters(s, list, start, 15, Mode(s), held);
    var pc := WordAligned(WordAt(s1, LoadStoreMultiple.Address(list, start, 15), held(15)));
    SetHere(s1, 15, pc);
    BanksJoin(s, s1, SetReg(s1, 15, pc));
  }

  lemma SameRegistersSameBanks(s: State, t: State)
    requires s.regs.general == t.regs.general && s.regs.status == t.regs.status
    ensures BanksKept(s, t)
  {
  }

  lemma MultipleBanks(s: State, ins: Word, g: Garbage)
    requires UserView(Mode(s)) && !ExceptionMode(Mode(s))
    ensures BanksKept(s, Multiple(s, ins, g).0)
  {
    hide TransferBlock, Start, Count, Reg, ModeOf, BanksKept, UserView, SetReg, ExceptionMode, Wrap;
    var list := Low16(ins);
    var start := Start(Bit24(ins), Bit23(ins), Reg(s, RnField(ins)), Count(list));
    BanksReflexive(s);
    TransferBlockBanks(s, Bit20(ins), Bit22(ins), list, start, g);
    BlockTransfers.TransferKeeps(s, Bit20(ins), Bit22(ins), list, start, g);
    var s1 := TransferBlock(s, Bit20(ins), Bit22(ins), list, start, g).0;
    var v := Wrap(start + 4 * Count(list));
    SetHere(s1, RnField(ins), v);
    BanksJoin(s, s1, SetReg(s1, RnField(ins), v));
  }

  lemma WriteBackBanks(s: State, setFlags: bool, rd: Byte, r: AluResult)
    requires UserView(Mode(s)) && !ExceptionMode(Mode(s)) && rd < 16
    ensures BanksKept(s, WriteBack(s, setFlags, rd, s.regs.cpsr, r).0)
  {
    hide RestoreCpsr, WithFlags, ModeOf, BanksKept, UserView, ExceptionMode, SetReg, SetCpsr;
    var s1 := if r.writes then SetReg(s, rd, r.value) else s;
    BanksReflexive(s);
    SetHere(s, rd, r.value);
    SetRegKeeps(s, rd, r.value);
    AskBanks(s1);
    var c := WithFlags(s.regs.cpsr, r.value >= 0x8000_0000, r.value == 0, r.carry, r.overflow);
    CpsrBanks(s1, c);
    BanksJoin(s, s1, SetCpsr(s1, c));
  }

  lemma CpsrBanks(s: State, c: bv32)
    ensures BanksKept(s, SetCpsr(s, c))
  {
  }

  lemma ProcessShiftBanks(s: State, ins: Word)
    requires UserView(Mode(s)) && !ExceptionMode(Mode(s))
    ensures BanksKept(s, ProcessShift(s, ins).0)
  {
    hide WriteBack, Alu, ImmediateShift, RegisterShift, Reg, FlagC, FlagV, ModeOf, BanksKept, UserView, ExceptionMode;
    BanksReflexive(s);
    forall r ensures BanksKept(s, WriteBack(s, Bit20(ins), RdField(ins), s.regs.cpsr, r).0) {
      WriteBackBanks(s, Bit20(ins), RdField(ins), r);
    }
  }

  lemma ProcessImmediateBanks(s: State, ins: Word)
    requires UserView(Mode(s)) && !ExceptionMode(Mode(s))
    ensures BanksKept(s, ProcessImmediateOrMsr(s, ins).0)
  {
    hide WriteBack, Alu, RotatedImmediate, MsrOperand, ByteMask, Merge, MsrValue, NamesState, Reg, FlagC, FlagV, ModeOf, BanksKept,
      UserView, ExceptionMode, SetCpsr, AskSpsr, SetSpsr, Spsr, Privileged;
    BanksReflexive(s);
    AskBanks(s);
    forall r ensures BanksKept(s, WriteBack(s, Bit20(ins), RdField(ins), s.regs.cpsr, r).0) {
      WriteBackBanks(s, Bit20(ins), RdField(ins), r);
    }
    forall c ensures BanksKept(s, SetCpsr(s, c)) {
      CpsrBanks(s, c);
    }
  }

  lemma BranchBanks(s: State, ins: Word)
    requires UserView(Mode(s)) && !ExceptionMode(Mode(s))
    ensures BanksKept(s, Branch(s, ins).0) && BanksKept(s, Miscellaneous(s, ins).0)
  {
    hide BranchOffset, StatusWord, Reg, ModeOf, BanksKept, UserView, ExceptionMode, AskSpsr, SetReg, Wrap;
    BanksReflexive(s);
    AskBanks(s);
    SetHere(s, RdField(ins), StatusWord(s.regs.cpsr));
    var link := Wrap(Reg(s, 15) - 4);
    var s1 := if Bit24(ins) then SetReg(s, 14, link) else s;
    SetHere(s, 14, link);
    SetRegKeeps(s, 14, link);
    SetHere(s1, 15, Wrap(Reg(s, 15) + BranchOffset(ins)));
    BanksJoin(s, s1, SetReg(s1, 15, Wrap(Reg(s, 15) + BranchOffset(ins))));
  }

  lemma DispatchBanks(s: State, ins: Word, g: Garbage)
    requires !Privileged(Mode(s))
    ensures BanksKept(s, Dispatch(s, ins, g).0)
  {
    hide LoadOrStore, Multiple, ProcessShift, ProcessImmediateOrMsr, Branch, Miscellaneous, Reg, ModeOf, BanksKept,
      UserView, Privileged, ExceptionMode;
    UnprivilegedView(Mode(s));
    BanksReflexive(s);
    LoadOrStoreBanks(s, ins, g);
    MultipleBanks(s, ins, g);
    ProcessShiftBanks(s, ins);
    ProcessImmediateBanks(s, ins);
    BranchBanks(s, ins);
  }

  lemma ExecuteBanks(s: State, g: Garbage)
    requires !Privileged(Mode(s))
    ensures BanksKept(s, Execute(s, g).0)
  {
    hide Dispatch, ModeOf, BanksKept, Privileged, Passes, WordAt, UserView, ExceptionMode;
    var (s1, ins) := Fetch(s, g);
    UnprivilegedView(Mode(s));
    FetchKeepsCpsr(s, g);
    var moved := SetReg(s, 15, Wrap(Pc(s) + 4));
    SetHere(s, 15, Wrap(Pc(s) + 4));
    assert BanksKept(moved, s1) by { SameRegistersSameBanks(moved, s1); }
    BanksJoin(s, moved, s1);
    DispatchBanks(s1, ins, g);
    BanksJoin(s, s1, Dispatch(s1, ins, g).0);
  }

  /** A run of any length from an unprivileged mode, until an exception is entered, leaves every banked
      register of the exception modes and every SPSR as it was. */
  lemma {:induction false} UnprivilegedRunIsIsolated(s: State, es: seq<Event>)
    requires !Privileged(Mode(s)) && CalmRun(s, es)
    ensures BanksKept(s, RunOf(s, es))
    decreases |es|
  {
    hide Calm, ModeOf, BanksKept, Privileged, Execute, Exceptions.Exception;
    BanksReflexive(s);
    if es != [] {
      var s1 := Happen(s, es[0]);
      UnprivilegedEvent(s, es[0]);
      CalmEventBanks(s, es[0]);
      UnprivilegedRunIsIsolated(s1, es[1..]);
      BanksJoin(s, s1, RunOf(s1, es[1..]));
    }
  }

  lemma CalmEventBanks(s: State, e: Event)
    requires !Privileged(Mode(s)) && Calm(s, e)
    ensures BanksKept(s, Happen(s, e))
  {
    hide ModeOf, BanksKept, Privileged, Execute, Exceptions.Exception, Fetch, Passes, WritesMode, SameControl, SameButFlags;
    BanksReflexive(s);
    match e
    case Deliver(x, g) =>
      ExceptionCpsr(s, x, g);
    case Tick(g) =>
      var (s1, code) := Execute(s, g);
      ExecuteKeepsControl(s, g);
      ExecuteBanks(s, g);
      ExceptionCpsr(s1, code % 0x100, g);
  }
}
