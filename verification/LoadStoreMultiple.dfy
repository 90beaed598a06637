/** arm_load_store.c, block transfers: LDM and STM in their four addressing modes, with and without the
    S bit. */
module LoadStoreMultiple {
  import opened Bits
  import opened Decode
  import opened Registers
  import opened Memory
  import opened Core

  /** The number of registers below r`k` in a register list. */
  function Below(list: Half, k: nat): (n: nat)
    ensures n <= k
  {
    if k == 0 then 0 else Below(list, k - 1) + Bit(list, k - 1)
  }

  /** The number of registers in a list. */
  function Count(list: Half): nat {
    Below(list, 16)
  }

  predicate Listed(list: Half, i: nat) {
    Bit(list, i) == 1
  }

  /** The lowest address of the block: `before` is the P bit, `up` the U bit. */
  function Start(before: bool, up: bool, rn: Word, n: nat): Word {
    if up then Wrap(rn + (if before then 4 else 0)) else Wrap(rn - 4 * n + (if before then 0 else 4))
  }

  /** The highest address of the block, which the code compares with where its loops end. */
  function End(before: bool, up: bool, rn: Word, n: nat): Word {
    if up then Wrap(rn + 4 * n - (if before then 0 else 4)) else Wrap(rn - (if before then 4 else 0))
  }

  /** The address of register i: one word for each listed register below it. */
  function Address(list: Half, start: Word, i: nat): Word {
    Wrap(start + 4 * Below(list, i))
  }

  function View(s: State, user: bool): bv8 {
    if user then USR else Mode(s)
  }

  /** Load the listed registers below r`k`, in one mode's view of the registers. */
  function LoadRegisters(s: State, list: Half, start: Word, k: nat, view: bv8, g: Garbage): State
    requires k <= 16
  {
    if k == 0 then s
    else
      var s1 := LoadRegisters(s, list, start, k - 1, view, g);
      if Listed(list, k - 1)
      then SetRegIn(s1, k - 1, view, WordAt(s1, Address(list, start, k - 1), g(k - 1)))
      else s1
  }

  /** Store the listed registers below r`k`. */
  function StoreRegisters(s: State, list: Half, start: Word, k: nat, view: bv8): State
    requires k <= 16
  {
    if k == 0 then s
    else
      var s1 := StoreRegisters(s, list, start, k - 1, view);
      if Listed(list, k - 1) then SetWord(s1, Address(list, start, k - 1), RegIn(s1, k - 1, view)) else s1
  }

  /** LDM with S and the PC: the CPSR is replaced by the SPSR before the PC is loaded. */
  function LoadAndReturn(s: State, list: Half, start: Word, g: Garbage): (State, int) {
    var s1 := LoadRegisters(s, list, start, 15, Mode(s), g);
    var (s2, has) := RestoreCpsr(s1);
    if has then (SetReg(s2, 15, WordAt(s2, Address(list, start, 15), g(15))), SUCCESSFULLY_DECODED)
    else (s2, UNDEFINED_INSTRUCTION)
  }

  /** `& 0xFFFFFFFC`. */
  function WordAligned(pc: Word): Word {
    pc - pc % 4
  }

  /** The one local of LDM without S before the word of register `k`: it keeps the last word that could be read. */
  function LastRead(m: Bytes, be: bool, list: Half, start: Word, k: nat, g: Garbage): Word {
    if k == 0 then g(LOADED)
    else
      var held := LastRead(m, be, list, start, k - 1, g);
      if Listed(list, k - 1) then OrElse(LoadWord(m, Address(list, start, k - 1), be), held) else held
  }

  /** What LDM without S puts in place of a word that cannot be read. */
  function Retained(m: Bytes, be: bool, list: Half, start: Word, g: Garbage): Garbage {
    k => LastRead(m, be, list, start, k, g)
  }

  /** LDM without S. */
  function LoadPlain(s: State, list: Half, start: Word, g: Garbage): State {
    var held := Retained(s.mem, s.be, list, start, g);
    var s1 := LoadRegisters(s, list, start, 15, Mode(s), held);
    if Listed(list, 15) then
      var pc := WordAt(s1, Address(list, start, 15), held(15));
      SetReg(s1, 15, WordAligned(pc))
    else s1
  }

  /** The transfer itself: L and S choose among the five paths. */
  function TransferBlock(s: State, load: bool, user: bool, list: Half, start: Word, g: Garbage): (State, int) {
    if load && user && Listed(list, 15) then LoadAndReturn(s, list, start, g)
    else if load && user then (LoadRegisters(s, list, start, 15, USR, g), SUCCESSFULLY_DECODED)
    else if load then (LoadPlain(s, list, start, g), SUCCESSFULLY_DECODED)
    else (StoreRegisters(s, list, start, 16, View(s, user)), SUCCESSFULLY_DECODED)
  }

  /** arm_load_store_multiple.  The S bit is bit 22. */
  function Multiple(s: State, ins: Word, g: Garbage): (State, int) {
    var list := Low16(ins);
    var rn := Reg(s, RnField(ins));
    var start := Start(Bit24(ins), Bit23(ins), rn, Count(list));
    if list == 0 || (Bit22(ins) && (Mode(s) == USR || Mode(s) == SYS)) then (s, UNDEFINED_INSTRUCTION)
    else
      var (s1, code) := TransferBlock(s, Bit20(ins), Bit22(ins), list, start, g);
      if code != SUCCESSFULLY_DECODED then (s1, code)
      else if Bit21(ins) then (SetReg(s1, RnField(ins), Wrap(start + 4 * Count(list))), SUCCESSFULLY_DECODED)
      else (s1, SUCCESSFULLY_DECODED)
  }

  // ----- the code -----

  /** number_set_bits_in. */
  method NumberSetBitsIn(num: Half) returns (count: int)
    ensures count == Count(num)
  {
    var rest: Half := num;
    count := 0;
    ghost var j := 0;
    assert num / Pow2(0) == num;
    while rest != 0
      invariant j <= 16 && rest == num / Pow2(j)
      invariant count == Below(num, j)
    {
      ShiftedOut(num, j);
      count := count + rest % 2;
      rest := rest / 2;
      j := j + 1;
    }
    NoneAbove(num, j, 16);
  }

  /** After 16 shifts nothing is left of a half word. */
  lemma ShiftedOut(num: Half, j: nat)
    ensures num / Pow2(j) / 2 == num / Pow2(j + 1)
    ensures j >= 16 ==> num / Pow2(j) == 0
  {
    assert Pow2(1) == 2;
    DivPow2(num, j, 1);
    if j >= 16 {
      Pow2Values();
      DivModUnique(num, 0x1_0000, 0, num);
      DivPow2(num, 16, j - 16);
      DivModUnique(0, Pow2(j - 16), 0, 0);
    }
  }

  lemma {:induction false} NoneAbove(num: Half, j: nat, k: nat)
    requires num / Pow2(j) == 0 && j <= k
    ensures Below(num, k) == Below(num, j)
    decreases k
  {
    if j < k {
      NoneAbove(num, j, k - 1);
      DivPow2(num, j, k - 1 - j);
      DivModUnique(0, Pow2(k - 1 - j), 0, 0);
    }
  }

  /** The four addressing modes: where the loops end is one word past the last address. */
  lemma EndsTogether(before: bool, up: bool, rn: Word, n: nat)
    ensures End(before, up, rn, n) == Wrap(Wrap(Start(before, up, rn, n) + 4 * n) - 4)
  {
    hide Wrap;
    var first := if up then rn + (if before then 4 else 0) else rn - 4 * n + (if before then 0 else 4);
    WrapWrap(first, 4 * n);
    WrapWrap(first + 4 * n, -4);
    WrapWord(rn);
  }

  lemma NextAddress(list: Half, start: Word, i: nat)
    ensures Address(list, start, i + 1)
         == if Listed(list, i) then Wrap(Address(list, start, i) + 4) else Address(list, start, i)
    ensures Address(list, start, 0) == start
  {
    hide Bit, Wrap;
    WrapWrap(start + 4 * Below(list, i), 4);
    WrapWord(start);
    assert Below(list, i + 1) == Below(list, i) + Bit(list, i);
  }

  /** The loop of LDM with S, into the current mode's registers or the user bank. */
  method LoadLoop(p: ArmCore, list: Half, start: Word, user: bool, g: Garbage) returns (address: Word)
    requires p.Valid()
    modifies p.Repr()
    ensures p.Abs() == LoadRegisters(old(p.Abs()), list, start, 15, View(old(p.Abs()), user), g)
    ensures address == Address(list, start, 15)
  {
    hide Address, Listed, SetRegIn, WordAt;
    ghost var view := View(p.Abs(), user);
    address := start;
    NextAddress(list, start, 0);
    for i := 0 to 15
      invariant p.Abs() == LoadRegisters(old(p.Abs()), list, start, i, view, g)
      invariant address == Address(list, start, i)
    {
      LoadKeepsMode(old(p.Abs()), list, start, i, view, g);
      NextAddress(list, start, i);
      if Listed(list, i) {
        var value := p.ReadWord(address, g(i));
        if user {
          p.WriteUsrRegister(i, value);
        } else {
          p.WriteRegister(i, value);
        }
        address := Wrap(address + 4);
      }
    }
  }

  /** The loop of the two STM paths. */
  method StoreLoop(p: ArmCore, list: Half, start: Word, user: bool) returns (address: Word)
    requires p.Valid()
    modifies p.Repr()
    ensures p.Abs() == StoreRegisters(old(p.Abs()), list, start, 16, View(old(p.Abs()), user))
    ensures address == Address(list, start, 16)
  {
    hide Address, Listed, SetWord, RegIn;
    ghost var view := View(p.Abs(), user);
    address := start;
    NextAddress(list, start, 0);
    for i := 0 to 16
      invariant p.Abs() == StoreRegisters(old(p.Abs()), list, start, i, view)
      invariant address == Address(list, start, i)
    {
      StoreKeepsRegisters(old(p.Abs()), list, start, i, view);
      NextAddress(list, start, i);
      if Listed(list, i) {
        var value;
        if user {
          value := p.ReadUsrRegister(i);
        } else {
          value := p.ReadRegister(i);
        }
        p.WriteWord(address, value);
        address := Wrap(address + 4);
      }
    }
  }

  lemma {:induction false} LoadKeepsMode(s: State, list: Half, start: Word, k: nat, view: bv8, g: Garbage)
    requires k <= 16
    ensures var t := LoadRegisters(s, list, start, k, view, g);
      t.regs.cpsr == s.regs.cpsr && t.regs.status == s.regs.status && t.mem == s.mem && t.be == s.be && t.cycles == s.cycles
  {
    if k > 0 {
      LoadKeepsMode(s, list, start, k - 1, view, g);
    }
  }

  lemma {:induction false} StoreKeepsRegisters(s: State, list: Half, start: Word, k: nat, view: bv8)
    requires k <= 16
    ensures var t := StoreRegisters(s, list, start, k, view);
      t.regs == s.regs && t.be == s.be && t.cycles == s.cycles && |t.mem| == |s.mem|
  {
    if k > 0 {
      StoreKeepsRegisters(s, list, start, k - 1, view);
    }
  }

  /** The switch on the addressing mode. */
  method AddressingMode(before: bool, up: bool, rn: Word, n: nat) returns (startAddress: Word, endAddress: Word)
    ensures startAddress == Start(before, up, rn, n)
    ensures endAddress == Wrap(Wrap(startAddress + 4 * n) - 4)
  {
    hide Wrap;
    WrapWord(rn);
    if !before && up {
      startAddress, endAddress := rn, Wrap(rn + n * 4 - 4);
    } else if before && up {
      startAddress, endAddress := Wrap(rn + 4), Wrap(rn + n * 4);
    } else if !before {
      startAddress, endAddress := Wrap(rn - n * 4 + 4), rn;
    } else {
      startAddress, endAddress := Wrap(rn - n * 4), Wrap(rn - 4);
    }
    EndsTogether(before, up, rn, n);
  }

  /** LDM with S and the PC. */
  method ArmLoadAndReturn(p: ArmCore, list: Half, start: Word, endAddress: Word, g: Garbage)
    returns (code: int, address: Word)
    requires p.Valid() && Listed(list, 15)
    requires endAddress == Wrap(Wrap(start + 4 * Count(list)) - 4)
    modifies p.Repr()
    ensures (p.Abs(), code) == LoadAndReturn(old(p.Abs()), list, start, g)
    ensures code == SUCCESSFULLY_DECODED ==> address == Wrap(start + 4 * Count(list))
  {
    hide Address, LoadRegisters, WordAt, ModeOf, Count, Wrap, RestoreCpsr, SetReg;
    LastAddress(list, start);
    NextAddress(list, start, 15);
    address := LoadLoop(p, list, start, false, g);
    var has := p.RestoreStatus();
    if !has {
      code := UNDEFINED_INSTRUCTION;
      return;
    }
    var pc := p.ReadWord(address, g(15));
    p.WriteRegister(15, pc);
    address := Wrap(address + 4);
    assert endAddress == Wrap(address - 4);
    code := SUCCESSFULLY_DECODED;
  }

  /** The loop of LDM without S, whose local outlives each round. */
  method PlainLoop(p: ArmCore, list: Half, start: Word, g: Garbage) returns (address: Word, value: Word)
    requires p.Valid()
    modifies p.Repr()
    ensures p.Abs() == LoadRegisters(old(p.Abs()), list, start, 15, Mode(old(p.Abs())),
                                     Retained(old(p.Abs()).mem, old(p.Abs()).be, list, start, g))
    ensures address == Address(list, start, 15)
    ensures value == LastRead(old(p.Abs()).mem, old(p.Abs()).be, list, start, 15, g)
  {
    hide Address, Listed, LoadWord, Write, ModeOf;
    ghost var s := p.Abs();
    ghost var held := Retained(s.mem, s.be, list, start, g);
    address, value := start, g(LOADED);
    NextAddress(list, start, 0);
    for i := 0 to 15
      invariant p.Abs() == LoadRegisters(s, list, start, i, Mode(s), held)
      invariant address == Address(list, start, i)
      invariant value == LastRead(s.mem, s.be, list, start, i, g)
    {
      LoadKeepsMode(s, list, start, i, Mode(s), held);
      NextAddress(list, start, i);
      if Listed(list, i) {
        value := p.ReadWord(address, value);
        p.WriteRegister(i, value);
        address := Wrap(address + 4);
      }
    }
  }

  /** LDM without S. */
  method ArmLoadPlain(p: ArmCore, list: Half, start: Word, endAddress: Word, g: Garbage) returns (address: Word)
    requires p.Valid()
    requires endAddress == Wrap(Wrap(start + 4 * Count(list)) - 4)
    modifies p.Repr()
    ensures p.Abs() == LoadPlain(old(p.Abs()), list, start, g)
    ensures address == Wrap(start + 4 * Count(list))
  {
    hide Address, LoadRegisters, LastRead, Listed, WordAt, ModeOf, Count, Wrap, SetReg, WordAligned;
    LastAddress(list, start);
    NextAddress(list, start, 15);
    var value;
    address, value := PlainLoop(p, list, start, g);
    if Listed(list, 15) {
      value := p.ReadWord(address, value);
      p.WriteRegister(15, WordAligned(value));
      address := Wrap(address + 4);
    }
    assert endAddress == Wrap(address - 4);
  }

  /** The five paths of arm_load_store_multiple, each asserting that it ends at the last address. */
  method ArmTransferBlock(p: ArmCore, load: bool, s: bool, list: Half, start: Word, endAddress: Word, g: Garbage)
    returns (code: int, address: Word)
    requires p.Valid()
    requires endAddress == Wrap(Wrap(start + 4 * Count(list)) - 4)
    modifies p.Repr()
    ensures (p.Abs(), code) == TransferBlock(old(p.Abs()), load, s, list, start, g)
    ensures code == SUCCESSFULLY_DECODED ==> address == Wrap(start + 4 * Count(list))
  {
    hide Address, LoadRegisters, StoreRegisters, LoadAndReturn, LoadPlain, Count, Wrap, ModeOf, Listed;
    LastAddress(list, start);
    NextAddress(list, start, 15);
    code := SUCCESSFULLY_DECODED;
    if s && load {
      if Listed(list, 15) {
        code, address := ArmLoadAndReturn(p, list, start, endAddress, g);
      } else {
        address := LoadLoop(p, list, start, true, g);
        assert endAddress == Wrap(address - 4);
      }
    } else if s {
      address := StoreLoop(p, list, start, true);
      assert endAddress == Wrap(address - 4);
    } else if load {
      address := ArmLoadPlain(p, list, start, endAddress, g);
    } else {
      address := StoreLoop(p, list, start, false);
      assert endAddress == Wrap(address - 4);
    }
  }

  /** arm_load_store_multiple. */
  method ArmLoadStoreMultiple(p: ArmCore, ins: Word, g: Garbage) returns (code: int)
    requires p.Valid()
    modifies p.Repr()
    ensures (p.Abs(), code) == Multiple(old(p.Abs()), ins, g)
  {
    hide TransferBlock, Start, Count, ModeOf, Low16, RnField, Bit20, Bit21, Bit22, Bit23, Bit24, Wrap;
    var list := Low16(ins);
    var rn := p.ReadRegister(RnField(ins));
    if list == 0 {
      return UNDEFINED_INSTRUCTION;
    }
    var cpsr := p.ReadCpsr();
    if Bit22(ins) && (ModeOf(cpsr) == USR || ModeOf(cpsr) == SYS) {
      return UNDEFINED_INSTRUCTION;
    }
    var n := NumberSetBitsIn(list);
    var startAddress, endAddress := AddressingMode(Bit24(ins), Bit23(ins), rn, n);
    var address;
    code, address := ArmTransferBlock(p, Bit20(ins), Bit22(ins), list, startAddress, endAddress, g);
    if code == SUCCESSFULLY_DECODED && Bit21(ins) {
      p.WriteRegister(RnField(ins), address);
    }
  }

  lemma LastAddress(list: Half, start: Word)
    ensures Address(list, start, 16) == Wrap(start + 4 * Count(list))
  {
  }
}
