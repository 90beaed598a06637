/** What a step does to the machine when the fetched word is a load or a store, single or of a block, stated over the bits
    of the word. */
module Accesses {
  import opened Bits
  import opened Decode
  import opened Registers
  import opened Memory
  import opened Shifter
  import opened Core
  import opened Instruction
  import opened Steps
  import opened LoadStore
  import opened LoadStoreMultiple
  import opened BlockTransfers
  import Decoding
  import DataProcessing

  // ----- single accesses -----

  /** LDR, STR, LDRB and STRB (section A5.2 of ARM DDI 0100) and LDRH and STRH (section A5.3), as far as they are not
      refused. */
  predicate IsSingle(ins: Word) {
    HasOffset(ins) && (ins / 0x200_0000 % 8 == 0 ==> ins / 0x20 % 4 == 1)
  }

  /** These encodings and, in the space of the half-word accesses, those refused after the base has moved. */
  predicate HasOffset(ins: Word) {
    var kind, userAccess := ins / 0x200_0000 % 8, ins / 0x100_0000 % 2 == 0 && ins / 0x20_0000 % 2 == 1;
    if kind == 0 then ins / 0x80 % 2 == 1 && ins / 0x10 % 2 == 1
    else if kind == 2 then !userAccess
    else kind == 3 && ins / 0x10 % 2 == 0 && !(ins / 0x10 % 0x100 == 0 && userAccess)
  }

  /** The offset: a 12-bit immediate, a shifted register, or an 8-bit immediate in two parts or a register. */
  function OffsetIn(u: State, ins: Word): Word {
    if ins / 0x200_0000 % 8 == 2 then ins % 0x1000
    else if ins / 0x200_0000 % 8 == 3 then
      ShiftByImmediate(ins / 0x20 % 4, Reg(u, ins % 16), ins / 0x80 % 32, DataProcessing.FlagC(u.regs.cpsr)).0
    else if ins / 0x40_0000 % 2 == 1 then 16 * (ins / 0x100 % 16) + ins % 16
    else Reg(u, ins % 16)
  }

  /** Rn plus the offset, or minus it if bit 23 is clear. */
  function Displaced(u: State, ins: Word): Word {
    var base, offset := Reg(u, ins / 0x1_0000 % 16), OffsetIn(u, ins);
    if ins / 0x80_0000 % 2 == 1 then Wrap(base + offset) else Wrap(base - offset)
  }

  /** The address: displaced if bit 24 is set, else the base itself; with bit 21 alone it is never computed. */
  function AddressIn(u: State, ins: Word, g: Garbage): Word {
    if ins / 0x100_0000 % 2 == 1 then Displaced(u, ins)
    else if ins / 0x20_0000 % 2 == 0 then Reg(u, ins / 0x1_0000 % 16)
    else g(ADDRESS)
  }

  /** Pre-indexed and post-indexed words move the base, before the transfer. */
  function Rebased(u: State, ins: Word): State {
    if ins / 0x100_0000 % 2 == ins / 0x20_0000 % 2 then SetReg(u, ins / 0x1_0000 % 16, Displaced(u, ins)) else u
  }

  /** The bytes transferred. */
  function WidthIn(ins: Word): (n: nat)
    ensures n == 1 || n == 2 || n == 4
  {
    if ins / 0x200_0000 % 8 == 0 then 2 else if ins / 0x40_0000 % 2 == 1 then 1 else 4
  }

  /** The item at an address; one that does not lie in memory is cut from an arbitrary word. */
  function Item(u: State, a: Word, n: nat, held: Word): Word
    requires n == 1 || n == 2 || n == 4
  {
    if n == 1 then OrElse(LoadByte(u.mem, a), held % 0x100)
    else if n == 2 then OrElse(LoadHalf(u.mem, a, u.be), held % 0x1_0000)
    else OrElse(LoadWord(u.mem, a, u.be), held)
  }

  /** The low n bytes of a word. */
  function Low(v: Word, n: nat): Word {
    if n == 1 then v % 0x100 else if n == 2 then v % 0x1_0000 else v
  }

  lemma OffsetIs(u: State, ins: Word)
    requires HasOffset(ins)
    ensures OffsetOf(u, ins) == Some(OffsetIn(u, ins))
  {
    hide Reg, ShiftOperation, ShiftByImmediate, Orr, DataProcessing.FlagC;
    var bits, imm, c := ins / 0x20 % 4, ins / 0x80 % 32, DataProcessing.FlagC(u.regs.cpsr);
    var rm := Reg(u, ins % 16);
    if ins / 0x200_0000 % 8 == 3 {
      ShiftersAgree(KindOf(bits), rm, imm, c);
      ShiftsAreArithmetic(bits, rm, imm, c);
      if ins / 0x10 % 0x100 == 0 {
        NoShift(ins);
        UnshiftedIs(rm, c);
      }
    } else if ins / 0x200_0000 % 8 == 0 {
      SplitByte(ins / 0x100 % 16, ins % 16);
    }
  }

  lemma NoShift(ins: Word)
    requires ins / 0x10 % 0x100 == 0
    ensures ins / 0x20 % 4 == 0 && ins / 0x80 % 32 == 0
  {
    var q := ins / 0x10;
    assert q == 0x100 * (q / 0x100);
    assert ins / 0x20 == q / 2 && ins / 0x80 == q / 8;
  }

  lemma UnshiftedIs(x: Word, c: bool)
    ensures ShiftByImmediate(0, x, 0, c).0 == x
  {
  }

  lemma SplitByte(high: nat, low: nat)
    requires high < 16 && low < 16
    ensures Orr(high * 0x10, low) == 16 * high + low
  {
    hide Pow2, BitOr;
    Pow2Values();
    DivModUnique(high * 0x10, 0x10, high, 0);
    OrDisjoint(low, high * 0x10, 4);
  }

  lemma AddressIs(u: State, ins: Word, g: Garbage)
    requires HasOffset(ins)
    ensures AddressOf(u, ins, g) == Some((Rebased(u, ins), AddressIn(u, ins, g)))
  {
    hide OffsetOf, OffsetIn, Reg, SetReg, Wrap;
    OffsetIs(u, ins);
  }

  lemma SingleDispatch(u: State, ins: Word, g: Garbage)
    requires HasOffset(ins)
    ensures Dispatch(u, ins, g) == LoadOrStore(u, ins, g)
  {
    hide LoadOrStore;
    Decoding.OtherDispatch(u, ins, g);
  }

  lemma TransferIs(u: State, ins: Word, g: Garbage)
    requires IsSingle(ins)
    ensures var a, rd, n := AddressIn(u, ins, g), ins / 0x1000 % 16, WidthIn(ins);
      var u1 := Rebased(u, ins);
      LoadOrStore(u, ins, g)
      == (if ins / 0x10_0000 % 2 == 1 then SetReg(u1, rd, Item(u1, a, n, g(rd)))
          else u1.(mem := Store(u1.mem, a, n, Low(Reg(u1, rd), n), u1.be)), SUCCESSFULLY_DECODED)
  {
    hide AddressOf, AddressIn, Rebased, Reg, SetReg, LoadByte, LoadHalf, LoadWord, Store;
    AddressIs(u, ins, g);
    Decoding.HalfBits(ins);
  }

  /** A step on any single load or store: the base moves as the word says, and then Rd receives the item at the address,
      or the item becomes the low bytes of Rd. */
  lemma SingleExecutes(s: State, ins: Word, g: Garbage)
    requires Ready(s, ins, g) && IsSingle(ins)
    ensures var u := Advanced(s);
      var a, rd, n := AddressIn(u, ins, g), ins / 0x1000 % 16, WidthIn(ins);
      var u1 := Rebased(u, ins);
      Execute(s, g)
      == (if ins / 0x10_0000 % 2 == 1 then SetReg(u1, rd, Item(s, a, n, g(rd)))
          else u1.(mem := Store(s.mem, a, n, Low(Reg(u1, rd), n), s.be)), SUCCESSFULLY_DECODED)
  {
    hide Ready, Execute, Dispatch, Advanced, LoadOrStore, AddressIn, Rebased, Reg, SetReg, HasOffset, LoadByte, LoadHalf, LoadWord,
      Store;
    var u := Advanced(s);
    ExecuteReady(s, ins, g);
    AdvancedKeeps(s);
    SingleDispatch(u, ins, g);
    TransferIs(u, ins, g);
    RebasedKeeps(u, ins);
  }

  lemma RebasedKeeps(u: State, ins: Word)
    ensures Rebased(u, ins).mem == u.mem && Rebased(u, ins).be == u.be
  {
    hide Displaced;
  }

  /** A step on a word of the half-word space that is no half-word access: the base moves, and then it is refused. */
  lemma MovesAndRefuses(s: State, ins: Word, g: Garbage)
    requires Ready(s, ins, g) && HasOffset(ins) && ins / 0x200_0000 % 8 == 0 && ins / 0x20 % 4 != 1
    ensures Execute(s, g) == (Rebased(Advanced(s), ins), 7)
  {
    hide Ready, Execute, Dispatch, Advanced, AddressOf, AddressIn, Rebased, HasOffset;
    var u := Advanced(s);
    ExecuteReady(s, ins, g);
    SingleDispatch(u, ins, g);
    AddressIs(u, ins, g);
    Decoding.HalfBits(ins);
    NotHalf(ins);
  }

  lemma NotHalf(ins: Word)
    requires HasOffset(ins) && ins / 0x200_0000 % 8 == 0
    ensures HalfWord(ins)
  {
  }

  /** Offset addressing (bit 24 set, bit 21 clear), of words, bytes and half words and with every kind of offset: the access
      is to Rn plus or minus the offset, and Rn stays. */
  lemma OffsetAddressing(s: State, ins: Word, g: Garbage)
    requires Ready(s, ins, g) && IsSingle(ins) && ins / 0x100_0000 % 2 == 1 && ins / 0x20_0000 % 2 == 0
    ensures var u := Advanced(s);
      var rn, rd, n, offset := ins / 0x1_0000 % 16, ins / 0x1000 % 16, WidthIn(ins), OffsetIn(u, ins);
      var a := if ins / 0x80_0000 % 2 == 1 then Wrap(Seen(s, rn) + offset) else Wrap(Seen(s, rn) - offset);
      var (t, code) := Execute(s, g);
      code == SUCCESSFULLY_DECODED
      && if ins / 0x10_0000 % 2 == 1 then
           t.mem == s.mem && (Mapped(rd, Mode(s)) ==> Read(t.regs, rd, Mode(s)) == Item(s, a, n, g(rd)))
           && (rn < 15 && rn != rd && Mapped(rn, Mode(s)) ==> Reg(t, rn) == Reg(s, rn))
         else
           t.regs == u.regs && |t.mem| == |s.mem|
           && (InRange(s.mem, a, n) ==> Item(t, a, n, 0) == Low(Seen(s, rd), n))
           && (forall i :: 0 <= i < |s.mem| && !(InRange(s.mem, a, n) && a <= i < a + n) ==> t.mem[i] == s.mem[i])
  {
    hide Ready, Execute, Advanced, OffsetIn, Reg, Item, Low, IsSingle, Store, ModeOf, Seen, Read, Write, Mapped, Wrap;
    var u := Advanced(s);
    var rn, rd, n := ins / 0x1_0000 % 16, ins / 0x1000 % 16, WidthIn(ins);
    SingleExecutes(s, ins, g);
    AdvancedSees(s, rn, Mode(s));
    AdvancedSees(s, rd, Mode(s));
    if rn < 15 {
      SeenBelow(s, rn);
    }
    var a := AddressIn(u, ins, g);
    var t := Execute(s, g).0;
    if ins / 0x10_0000 % 2 == 0 {
      StoredItem(s.mem, a, n, Seen(s, rd), t);
    } else if Mapped(rd, Mode(s)) {
      SetThenGet(u, rd, Item(s, a, n, g(rd)), rn);
      WriteIsRead(u.regs, rd, Mode(s), Item(s, a, n, g(rd)));
    } else {
      UnmappedWrite(u.regs, rd, Mode(s), Item(s, a, n, g(rd)));
    }
  }

  lemma StoredItem(m: Bytes, a: Word, n: nat, v: Word, t: State)
    requires (n == 1 || n == 2 || n == 4) && t.mem == Store(m, a, n, Low(v, n), t.be)
    ensures |t.mem| == |m|
    ensures InRange(m, a, n) ==> Item(t, a, n, 0) == Low(v, n)
    ensures forall i :: 0 <= i < |m| && !(InRange(m, a, n) && a <= i < a + n) ==> t.mem[i] == m[i]
  {
    if InRange(m, a, n) {
      hide Load;
      Pow2Values();
      assert Low(v, n) < Pow2(8 * n);
      LoadAfterStore(m, a, n, Low(v, n), t.be);
      if n == 1 {
        OneByte(v % 0x100);
      }
    }
  }

  // ----- block transfers -----

  /** The lowest address of a block of n words from its base: bit 23 is U and bit 24 is P. */
  function FirstAddress(ins: Word, base: Word, n: nat): Word {
    if ins / 0x80_0000 % 2 == 1 then (if ins / 0x100_0000 % 2 == 1 then Wrap(base + 4) else base)
    else (if ins / 0x100_0000 % 2 == 1 then Wrap(base - 4 * n) else Wrap(base - 4 * n + 4))
  }

  /** Where the block of a word starts, and where the word of register q lies: one word for each listed register below. */
  function BlockStart(u: State, ins: Word): Word {
    FirstAddress(ins, Reg(u, ins / 0x1_0000 % 16), Below(ins % 0x1_0000, 16))
  }

  function WordAddress(u: State, ins: Word, q: nat): Word {
    Wrap(BlockStart(u, ins) + 4 * Below(ins % 0x1_0000, q))
  }

  /** Write-back: the address after the block. */
  function BlockEnd(u: State, ins: Word): Word {
    WordAddress(u, ins, 16)
  }

  lemma BlockParts(u: State, ins: Word)
    ensures StartOf(u, ins) == BlockStart(u, ins)
    ensures forall q: nat :: Address(ins % 0x1_0000, StartOf(u, ins), q) == WordAddress(u, ins, q)
    ensures Wrap(StartOf(u, ins) + 4 * Count(ins % 0x1_0000)) == BlockEnd(u, ins)
    ensures RnField(ins) == ins / 0x1_0000 % 16 && Low16(ins) == ins % 0x1_0000
    ensures Bit20(ins) == (ins / 0x10_0000 % 2 == 1) && Bit21(ins) == (ins / 0x20_0000 % 2 == 1)
    ensures Bit22(ins) == (ins / 0x40_0000 % 2 == 1)
  {
    hide Below, Reg;
    StartIs(ins, Reg(u, ins / 0x1_0000 % 16), Below(ins % 0x1_0000, 16));
  }

  lemma StartIs(ins: Word, base: Word, n: nat)
    ensures Start(Bit24(ins), Bit23(ins), base, n) == FirstAddress(ins, base, n)
  {
    hide Wrap;
    WrapWord(base);
  }

  lemma BlockExecutes(s: State, ins: Word, g: Garbage)
    requires Ready(s, ins, g) && ins / 0x200_0000 % 8 == 4
    ensures Execute(s, g) == Multiple(Advanced(s), ins, g)
  {
    hide Ready, Execute, Dispatch, Advanced, Multiple;
    ExecuteReady(s, ins, g);
    Decoding.OtherDispatch(Advanced(s), ins, g);
  }

  /** A step on LDM without S, register by register: a listed one receives its word (the PC with bits 1 and 0 clear), or the
      last word below it that could be read; the base ends, if bit 21 is set, with the address after the block. */
  lemma BlockLoadExecutes(s: State, ins: Word, g: Garbage, q: Byte)
    requires Ready(s, ins, g) && ins / 0x200_0000 % 8 == 4 && ins / 0x10_0000 % 2 == 1 && ins / 0x40_0000 % 2 == 0
    requires ins % 0x1_0000 != 0 && q < 16
    ensures var u, list := Advanced(s), ins % 0x1_0000;
      var (t, code) := Execute(s, g);
      var word := OrElse(LoadWord(s.mem, WordAddress(u, ins, q), s.be), LastRead(s.mem, s.be, list, BlockStart(u, ins), q, g));
      code == SUCCESSFULLY_DECODED && t == u.(regs := t.regs) && t.regs.cpsr == s.regs.cpsr && t.regs.status == s.regs.status
      && (Mapped(q, Mode(s)) ==>
            Read(t.regs, q, Mode(s))
            == if ins / 0x20_0000 % 2 == 1 && q == ins / 0x1_0000 % 16 then BlockEnd(u, ins)
               else if Bit(list, q) == 1 then (if q == 15 then word - word % 4 else word)
               else Read(u.regs, q, Mode(s)))
  {
    hide Ready, Execute, Advanced, Multiple, ModeOf, Bit, StartOf, BlockStart, WordAddress, BlockEnd, LoadWord, LastRead, Read, Mapped,
      Address, Count, Wrap, Low16, RnField, Bit20, Bit21, Bit22;
    var u := Advanced(s);
    BlockExecutes(s, ins, g);
    AdvancedKeeps(s);
    BlockParts(u, ins);
    PlainLoad(u, ins, ins % 0x1_0000, g, q);
  }

  /** A step on LDM with S and the PC, in a mode that has an SPSR, likewise; the PC is not aligned, the CPSR stays, and
      the SPSR becomes the CPSR. */
  lemma BlockReturnExecutes(s: State, ins: Word, g: Garbage, q: Byte)
    requires Ready(s, ins, g) && ins / 0x200_0000 % 8 == 4 && ins / 0x10_0000 % 2 == 1 && ins / 0x40_0000 % 2 == 1
    requires ins % 0x1_0000 >= 0x8000 && ExceptionMode(Mode(s)) && q < 16
    ensures var u, list := Advanced(s), ins % 0x1_0000;
      var (t, code) := Execute(s, g);
      code == SUCCESSFULLY_DECODED && t == u.(regs := t.regs) && t.regs.cpsr == s.regs.cpsr
      && t.regs.status == WriteSpsr(u.regs, Mode(s), s.regs.cpsr).status
      && Read(t.regs, q, Mode(s))
         == if ins / 0x20_0000 % 2 == 1 && q == ins / 0x1_0000 % 16 then BlockEnd(u, ins)
            else if Bit(list, q) == 1 then OrElse(LoadWord(s.mem, WordAddress(u, ins, q), s.be), g(q))
            else Read(u.regs, q, Mode(s))
  {
    hide Ready, Execute, Advanced, Multiple, ModeOf, Bit, StartOf, BlockStart, WordAddress, BlockEnd, LoadWord, Read, WriteSpsr,
      Address, Count, Wrap, Low16, RnField, Bit20, Bit21, Bit22, ReadSpsr, ExceptionMode;
    var u := Advanced(s);
    BlockExecutes(s, ins, g);
    AdvancedKeeps(s);
    BlockParts(u, ins);
    LoadAndReturnMeaning(u, ins, ins % 0x1_0000, g, q);
  }

  /** In a mode number that is no mode it loads the other registers and is then refused. */
  lemma BlockReturnRefused(s: State, ins: Word, g: Garbage, q: Byte)
    requires Ready(s, ins, g) && ins / 0x200_0000 % 8 == 4 && ins / 0x10_0000 % 2 == 1 && ins / 0x40_0000 % 2 == 1
    requires ins % 0x1_0000 >= 0x8000 && !ValidMode(Mode(s)) && q < 16
    ensures var u, list := Advanced(s), ins % 0x1_0000;
      var (t, code) := Execute(s, g);
      code == 7 && t == u.(regs := t.regs) && t.regs.cpsr == s.regs.cpsr && t.regs.status == s.regs.status
      && (Mapped(q, Mode(s)) ==>
            Read(t.regs, q, Mode(s))
            == if Bit(list, q) == 1 && q < 15 then OrElse(LoadWord(s.mem, WordAddress(u, ins, q), s.be), g(q))
               else Read(u.regs, q, Mode(s)))
  {
    hide Ready, Execute, Advanced, Multiple, ModeOf, Bit, StartOf, BlockStart, WordAddress, BlockEnd, LoadWord, Read, Mapped,
      Address, Count, Wrap, Low16, RnField, Bit20, Bit21, Bit22, LoadRegisters, LoadAndReturn;
    var u, list := Advanced(s), ins % 0x1_0000;
    BlockExecutes(s, ins, g);
    AdvancedKeeps(s);
    BlockParts(u, ins);
    PcIsListed(list);
    MultipleIs(u, ins, list, true, true, g);
    ReturnRefused(u, list, StartOf(u, ins), g);
    LoadKeepsMode(u, list, StartOf(u, ins), 15, Mode(s), g);
    if Mapped(q, Mode(s)) {
      LoadedRegister(u, list, StartOf(u, ins), 15, Mode(s), g, q);
    }
  }

  lemma ReturnRefused(u: State, list: Half, start: Word, g: Garbage)
    requires !ValidMode(Mode(u))
    ensures LoadAndReturn(u, list, start, g) == (LoadRegisters(u, list, start, 15, Mode(u), g), UNDEFINED_INSTRUCTION)
  {
    hide LoadRegisters, ModeOf;
    LoadKeepsMode(u, list, start, 15, Mode(u), g);
  }

  /** A step on LDM with S and without the PC, where there is a user bank apart, in any view of the registers. */
  lemma BlockUserLoadExecutes(s: State, ins: Word, g: Garbage, q: Byte, view: bv8)
    requires Ready(s, ins, g) && ins / 0x200_0000 % 8 == 4 && ins / 0x10_0000 % 2 == 1 && ins / 0x40_0000 % 2 == 1
    requires 0 < ins % 0x1_0000 < 0x8000 && Mode(s) != 0x10 && Mode(s) != 0x1f && q < 16 && Mapped(q, view)
    ensures var u, list, rn := Advanced(s), ins % 0x1_0000, ins / 0x1_0000 % 16;
      var (t, code) := Execute(s, g);
      code == SUCCESSFULLY_DECODED && t == u.(regs := t.regs) && t.regs.cpsr == s.regs.cpsr && t.regs.status == s.regs.status
      && Read(t.regs, q, view)
         == if ins / 0x20_0000 % 2 == 1 && Mapped(rn, Mode(s)) && Slot(rn, Mode(s)) == Slot(q, view) then BlockEnd(u, ins)
            else if Bit(list, q) == 1 && BankOf(q, view) == Common then OrElse(LoadWord(s.mem, WordAddress(u, ins, q), s.be), g(q))
            else Read(u.regs, q, view)
  {
    hide Ready, Execute, Advanced, Multiple, ModeOf, Bit, StartOf, BlockStart, WordAddress, BlockEnd, LoadWord, Read, ModeInd,
      Address, Count, Wrap, Low16, RnField, Bit20, Bit21, Bit22, BankOf, Slot;
    var u := Advanced(s);
    BlockExecutes(s, ins, g);
    AdvancedKeeps(s);
    BlockParts(u, ins);
    UserLoad(u, ins, ins % 0x1_0000, g, q, view);
  }

  /** A step on STM, word by word and byte by byte: each listed register, as it is before write-back and with S in user
      mode's view, is stored at its place if that lies in memory; other bytes and other registers stay. */
  lemma BlockStoreExecutes(s: State, ins: Word, g: Garbage, q: Byte, i: nat)
    requires Ready(s, ins, g) && ins / 0x200_0000 % 8 == 4 && ins / 0x10_0000 % 2 == 0 && ins % 0x1_0000 != 0 && q < 16
    requires ins / 0x40_0000 % 2 == 1 ==> Mode(s) != 0x10 && Mode(s) != 0x1f
    ensures var u, list := Advanced(s), ins % 0x1_0000;
      var (t, code) := Execute(s, g);
      var view := if ins / 0x40_0000 % 2 == 1 then 0x10 else Mode(s);
      code == SUCCESSFULLY_DECODED && |t.mem| == |s.mem|
      && t == (if ins / 0x20_0000 % 2 == 1 then SetReg(u, ins / 0x1_0000 % 16, BlockEnd(u, ins)) else u).(mem := t.mem)
      && (Bit(list, q) == 1 && InRange(s.mem, WordAddress(u, ins, q), 4) ==>
            LoadWord(t.mem, WordAddress(u, ins, q), s.be) == Some(SeenIn(s, q, view)))
      && (i < |s.mem| && (forall r: nat :: r < 16 && Bit(list, r) == 1 ==>
                            !(WordAddress(u, ins, r) <= i < WordAddress(u, ins, r) + 4)) ==>
            t.mem[i] == s.mem[i])
  {
    hide Ready, Execute, Advanced, Multiple, ModeOf, Bit, StartOf, BlockStart, WordAddress, BlockEnd, LoadWord, SetReg,
      Address, Count, Wrap, Low16, RnField, Bit20, Bit21, Bit22, SeenIn, RegIn;
    var u := Advanced(s);
    BlockExecutes(s, ins, g);
    AdvancedKeeps(s);
    AdvancedSees(s, q, if ins / 0x40_0000 % 2 == 1 then 0x10 else Mode(s));
    BlockParts(u, ins);
    StoreBlock(u, ins, ins % 0x1_0000, ins / 0x40_0000 % 2 == 1, g, q, i);
  }
}
