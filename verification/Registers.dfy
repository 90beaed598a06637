/** registers.c: the general registers of all modes in one table of 96 slots, the CPSR, and the five
    saved status registers. */
module Registers {
  import opened Bits

  const USR: bv8 := 0x10
  const FIQ: bv8 := 0x11
  const IRQ: bv8 := 0x12
  const SVC: bv8 := 0x13
  const ABT: bv8 := 0x17
  const UND: bv8 := 0x1b
  const SYS: bv8 := 0x1f

  const USR_INDEX := 0
  const SVC_INDEX := 16
  const ABT_INDEX := 32
  const UND_INDEX := 48
  const IRQ_INDEX := 64
  const FIQ_INDEX := 80

  type GeneralTable = s: seq<Word> | |s| == 96 witness seq(96, _ => 0)
  type StatusTable = s: seq<bv32> | |s| == 5 witness seq(5, _ => 0)

  /** The value of the three fields of struct registers_data. */
  datatype RegisterFile = RegisterFile(general: GeneralTable, cpsr: bv32, status: StatusTable)

  /** One of the seven modes of the architecture. */
  predicate ValidMode(mode: bv8) {
    mode == USR || mode == FIQ || mode == IRQ || mode == SVC || mode == ABT || mode == UND || mode == SYS
  }

  /** One of the five modes entered by exceptions. */
  predicate ExceptionMode(mode: bv8) {
    mode == FIQ || mode == IRQ || mode == SVC || mode == ABT || mode == UND
  }

  function ModeOf(cpsr: bv32): bv8 {
    (cpsr & 0x1F) as bv8
  }

  /** mode_ind: where the table of a register's bank starts, or -1. */
  function ModeInd(reg: Byte, mode: bv8): int {
    if reg <= 7 || reg == 15 then USR_INDEX
    else if reg <= 12 then
      if mode == FIQ then FIQ_INDEX else if ValidMode(mode) then USR_INDEX else -1
    else if reg <= 14 then
      if mode == USR || mode == SYS then USR_INDEX
      else if mode == SVC then SVC_INDEX
      else if mode == ABT then ABT_INDEX
      else if mode == UND then UND_INDEX
      else if mode == IRQ then IRQ_INDEX
      else if mode == FIQ then FIQ_INDEX
      else -1
    else -1
  }

  /** Whether a register number and a mode name a slot at all. */
  predicate Mapped(reg: Byte, mode: bv8) {
    ModeInd(reg, mode) != -1
  }

  function Slot(reg: Byte, mode: bv8): (i: nat)
    requires Mapped(reg, mode)
    ensures i < 96
  {
    ModeInd(reg, mode) + reg
  }

  function Read(f: RegisterFile, reg: Byte, mode: bv8): Word {
    if Mapped(reg, mode) then f.general[Slot(reg, mode)] else 0
  }

  function Write(f: RegisterFile, reg: Byte, mode: bv8, value: Word): RegisterFile {
    if Mapped(reg, mode) then f.(general := f.general[Slot(reg, mode) := value]) else f
  }

  /** The place of a mode's SPSR, or -1 for a mode without one. */
  function StatusIndex(mode: bv8): (i: int)
    ensures -1 <= i < 5
    ensures i != -1 <==> ExceptionMode(mode)
  {
    if mode == FIQ then 0
    else if mode == IRQ then 1
    else if mode == SVC then 2
    else if mode == ABT then 3
    else if mode == UND then 4
    else -1
  }

  function ReadSpsr(f: RegisterFile, mode: bv8): bv32 {
    if ExceptionMode(mode) then f.status[StatusIndex(mode)] else 0
  }

  function WriteSpsr(f: RegisterFile, mode: bv8, value: bv32): RegisterFile {
    if ExceptionMode(mode) then f.(status := f.status[StatusIndex(mode) := value]) else f
  }

  /** registers_in_a_privileged_mode. */
  predicate Privileged(mode: bv8) {
    ExceptionMode(mode) || mode == SYS
  }

  /** The registers of one simulated processor. */
  class RegisterBank {
    const genreg: array<Word>
    const rstat: array<bv32>
    var cpsr: bv32

    function Repr(): set<object> {
      {this, genreg, rstat}
    }

    predicate Valid() {
      genreg.Length == 96 && rstat.Length == 5
    }

    ghost function Abs(): RegisterFile
      requires Valid()
      reads Repr()
    {
      RegisterFile(genreg[..], cpsr, rstat[..])
    }

    /** registers_create: every register is 0. */
    constructor ()
      ensures Valid() && fresh(Repr())
      ensures Abs() == RegisterFile(seq(96, _ => 0), 0, seq(5, _ => 0))
    {
      genreg := new Word[96];
      cpsr := 0;
      rstat := new bv32[5];
      new;
      for i := 0 to 96
        invariant forall j :: 0 <= j < i ==> genreg[j] == 0
        invariant cpsr == 0
      {
        genreg[i] := 0;
      }
      for i := 0 to 5
        invariant forall j :: 0 <= j < i ==> rstat[j] == 0
        invariant forall j :: 0 <= j < 96 ==> genreg[j] == 0
        invariant cpsr == 0
      {
        rstat[i] := 0;
      }
      assert genreg[..] == seq(96, _ => 0);
      assert rstat[..] == seq(5, _ => 0);
    }

    method GetMode() returns (mode: bv8)
      ensures mode == ModeOf(cpsr)
    {
      mode := (cpsr & 0x1F) as bv8;
    }

    /** registers_mode_has_spsr: answering the question also copies the CPSR into that SPSR. */
    method ModeHasSpsr(mode: bv8) returns (has: bool)
      requires Valid()
      modifies rstat
      ensures has == ExceptionMode(mode)
      ensures Abs() == WriteSpsr(old(Abs()), mode, cpsr)
    {
      if mode == FIQ {
        rstat[0] := cpsr;
        has := true;
      } else if mode == IRQ {
        rstat[1] := cpsr;
        has := true;
      } else if mode == SVC {
        rstat[2] := cpsr;
        has := true;
      } else if mode == ABT {
        rstat[3] := cpsr;
        has := true;
      } else if mode == UND {
        rstat[4] := cpsr;
        has := true;
      } else {
        has := false;
      }
    }

    method CurrentModeHasSpsr() returns (has: bool)
      requires Valid()
      modifies rstat
      ensures has == ExceptionMode(ModeOf(cpsr))
      ensures Abs() == WriteSpsr(old(Abs()), ModeOf(cpsr), cpsr)
    {
      var mode := GetMode();
      has := ModeHasSpsr(mode);
    }

    method InPrivilegedMode() returns (yes: bool)
      ensures yes == Privileged(ModeOf(cpsr))
    {
      var mode := GetMode();
      yes := mode == FIQ || mode == IRQ || mode == SVC || mode == ABT || mode == UND || mode == SYS;
    }

    method ReadRegister(reg: Byte, mode: bv8) returns (value: Word)
      requires Valid()
      ensures value == Read(Abs(), reg, mode)
    {
      var index := ModeInd(reg, mode);
      if index == -1 {
        return 0;
      }
      value := genreg[index + reg];
    }

    method WriteRegister(reg: Byte, mode: bv8, value: Word)
      requires Valid()
      modifies genreg
      ensures Abs() == Write(old(Abs()), reg, mode, value)
    {
      var index := ModeInd(reg, mode);
      if index == -1 {
        return;
      }
      genreg[index + reg] := value;
    }

    method ReadStatus(mode: bv8) returns (value: bv32)
      requires Valid()
      ensures value == ReadSpsr(Abs(), mode)
    {
      if mode == FIQ {
        value := rstat[0];
      } else if mode == IRQ {
        value := rstat[1];
      } else if mode == SVC {
        value := rstat[2];
      } else if mode == ABT {
        value := rstat[3];
      } else if mode == UND {
        value := rstat[4];
      } else {
        value := 0;
      }
    }

    method WriteStatus(mode: bv8, value: bv32)
      requires Valid()
      modifies rstat
      ensures Abs() == WriteSpsr(old(Abs()), mode, value)
    {
      if mode == FIQ {
        rstat[0] := value;
      } else if mode == IRQ {
        rstat[1] := value;
      } else if mode == SVC {
        rstat[2] := value;
      } else if mode == ABT {
        rstat[3] := value;
      } else if mode == UND {
        rstat[4] := value;
      }
    }

    method WriteCpsr(value: bv32)
      requires Valid()
      modifies this
      ensures Abs() == old(Abs()).(cpsr := value)
    {
      cpsr := value;
    }
  }

  lemma WriteIsRead(f: RegisterFile, r: Byte, mode: bv8, value: Word)
    requires Mapped(r, mode)
    ensures Read(Write(f, r, mode, value), r, mode) == value
  {
  }

  lemma UnmappedWrite(f: RegisterFile, r: Byte, mode: bv8, value: Word)
    requires !Mapped(r, mode)
    ensures Write(f, r, mode, value) == f
  {
  }

  lemma WriteKeepsCpsr()
    ensures forall f, r, mode, v :: Write(f, r, mode, v).cpsr == f.cpsr
  {
  }

  // ----- modes and saved status registers -----

  /** The mode numbers of section A2.2 of ARM DDI 0100: seven modes, all but user mode privileged, and all but user and
      system mode with an SPSR. */
  lemma ModeNumbers(mode: bv8)
    ensures ValidMode(mode) <==> mode in {0x10, 0x11, 0x12, 0x13, 0x17, 0x1b, 0x1f}
    ensures Privileged(mode) <==> ValidMode(mode) && mode != 0x10
    ensures ExceptionMode(mode) <==> ValidMode(mode) && mode != 0x10 && mode != 0x1f
  {
  }

  /** The mode is the low five bits of the CPSR, whatever the others are. */
  lemma ModeBits(cpsr: bv32, mode: bv8)
    requires mode < 0x20
    ensures ModeOf((cpsr & 0xFFFF_FFE0) | (mode as bv32)) == mode
  {
  }

  /** Each exception mode has an SPSR of its own. */
  lemma SpsrsAreSeparate(f: RegisterFile, m1: bv8, m2: bv8, value: bv32)
    ensures ReadSpsr(WriteSpsr(f, m1, value), m2) == if m1 == m2 && ExceptionMode(m1) then value else ReadSpsr(f, m2)
    ensures WriteSpsr(f, m1, value).general == f.general && WriteSpsr(f, m1, value).cpsr == f.cpsr
  {
    if ExceptionMode(m1) && ExceptionMode(m2) && m1 != m2 {
      assert StatusIndex(m1) != StatusIndex(m2);
    }
  }

  // ----- the 96 slots stand for 31 general registers -----

  /** The banks of section A2.4 of ARM DDI 0100. */
  datatype Bank = Common | BankFiq | BankIrq | BankSvc | BankAbt | BankUnd

  type PhysicalRegister = (Byte, Bank)

  /** The bank a mode sees for a register: r0-r7 and the PC are never banked, r8-r12 only for FIQ. */
  function BankOf(reg: Byte, mode: bv8): Bank {
    if reg <= 7 || reg >= 15 then Common
    else if mode == FIQ then BankFiq
    else if reg <= 12 then Common
    else if mode == IRQ then BankIrq
    else if mode == SVC then BankSvc
    else if mode == ABT then BankAbt
    else if mode == UND then BankUnd
    else Common
  }

  /** Registers lo to hi - 1 of one bank. */
  ghost function Names(lo: Byte, hi: Byte, bank: Bank): set<PhysicalRegister> {
    set r: Byte | lo <= r < hi :: (r, bank)
  }

  ghost const PHYSICAL: set<PhysicalRegister> :=
    Names(0, 16, Common) + Names(8, 15, BankFiq) + Names(13, 15, BankIrq)
    + Names(13, 15, BankSvc) + Names(13, 15, BankAbt) + Names(13, 15, BankUnd)

  /** A mode through which a bank is seen. */
  function ViewOf(bank: Bank): bv8 {
    match bank
    case Common => USR
    case BankFiq => FIQ
    case BankIrq => IRQ
    case BankSvc => SVC
    case BankAbt => ABT
    case BankUnd => UND
  }

  /** The abstract register file: 31 named registers. */
  ghost function File(f: RegisterFile): map<PhysicalRegister, Word> {
    map p | p in PHYSICAL :: Read(f, p.0, ViewOf(p.1))
  }

  lemma {:induction false} NamesCount(lo: Byte, hi: Byte, bank: Bank)
    requires lo <= hi
    ensures |Names(lo, hi, bank)| == hi - lo
    decreases hi
  {
    if lo < hi {
      NamesCount(lo, hi - 1, bank);
      assert Names(lo, hi, bank) == Names(lo, hi - 1, bank) + {(hi - 1, bank)};
    } else {
      assert Names(lo, hi, bank) == {};
    }
  }

  lemma ThereAre31Registers()
    ensures |PHYSICAL| == 31
  {
    NamesCount(0, 16, Common);
    NamesCount(8, 15, BankFiq);
    NamesCount(13, 15, BankIrq);
    NamesCount(13, 15, BankSvc);
    NamesCount(13, 15, BankAbt);
    NamesCount(13, 15, BankUnd);
  }

  /** Two views of the table meet in one slot exactly when they name the same physical register. */
  lemma SlotsAlias(r1: Byte, m1: bv8, r2: Byte, m2: bv8)
    requires r1 < 16 && r2 < 16 && ValidMode(m1) && ValidMode(m2)
    ensures Mapped(r1, m1) && Mapped(r2, m2)
    ensures Slot(r1, m1) == Slot(r2, m2) <==> r1 == r2 && BankOf(r1, m1) == BankOf(r2, m2)
  {
    hide ModeInd, BankOf, ValidMode;
    BankStart(r1, m1);
    BankStart(r2, m2);
  }

  /** The banks in the order of the table. */
  function BankNumber(bank: Bank): (n: nat)
    ensures n < 6
  {
    match bank
    case Common => 0 case BankSvc => 1 case BankAbt => 2 case BankUnd => 3 case BankIrq => 4 case BankFiq => 5
  }

  /** A bank starts at a multiple of 16 that determines it. */
  lemma BankStart(reg: Byte, mode: bv8)
    requires reg < 16 && ValidMode(mode)
    ensures ModeInd(reg, mode) == 16 * BankNumber(BankOf(reg, mode))
  {
  }

  lemma ViewNamesBank(reg: Byte, mode: bv8)
    requires reg < 16 && ValidMode(mode)
    ensures (reg, BankOf(reg, mode)) in PHYSICAL
    ensures Slot(reg, ViewOf(BankOf(reg, mode))) == Slot(reg, mode)
  {
  }

  lemma ReadRefines(f: RegisterFile, reg: Byte, mode: bv8)
    requires reg < 16 && ValidMode(mode)
    ensures (reg, BankOf(reg, mode)) in File(f)
    ensures Read(f, reg, mode) == File(f)[(reg, BankOf(reg, mode))]
  {
    ViewNamesBank(reg, mode);
  }

  /** A write through a valid mode changes one physical register and no other. */
  lemma WriteRefines(f: RegisterFile, reg: Byte, mode: bv8, value: Word)
    requires reg < 16 && ValidMode(mode)
    ensures File(Write(f, reg, mode, value)) == File(f)[(reg, BankOf(reg, mode)) := value]
  {
    ViewNamesBank(reg, mode);
    forall p | p in PHYSICAL
      ensures Read(Write(f, reg, mode, value), p.0, ViewOf(p.1))
           == if p == (reg, BankOf(reg, mode)) then value else Read(f, p.0, ViewOf(p.1))
    {
      NamesAreTheirOwnBank(p);
      WriteThenRead(f, reg, mode, value, p.0, ViewOf(p.1));
    }
  }

  lemma NamesAreTheirOwnBank(p: PhysicalRegister)
    requires p in PHYSICAL
    ensures p.0 < 16 && BankOf(p.0, ViewOf(p.1)) == p.1
  {
  }

  /** Reading one view after writing another. */
  lemma WriteThenRead(f: RegisterFile, r1: Byte, m1: bv8, value: Word, r2: Byte, m2: bv8)
    requires r1 < 16 && r2 < 16 && ValidMode(m1) && ValidMode(m2)
    ensures Read(Write(f, r1, m1, value), r2, m2)
         == if r1 == r2 && BankOf(r1, m1) == BankOf(r2, m2) then value else Read(f, r2, m2)
  {
    SlotsAlias(r1, m1, r2, m2);
  }

  /** Outside the seven modes only r0-r7 and the PC exist: the others read as 0 and ignore writes. */
  lemma InvalidModeSeesUnbanked(f: RegisterFile, reg: Byte, mode: bv8, value: Word)
    requires reg < 16 && !ValidMode(mode)
    ensures Mapped(reg, mode) <==> reg <= 7 || reg == 15
    ensures Mapped(reg, mode) ==> BankOf(reg, mode) == Common && Slot(reg, mode) == Slot(reg, USR)
    ensures !Mapped(reg, mode) ==> Read(f, reg, mode) == 0 && Write(f, reg, mode, value) == f
  {
  }
}
