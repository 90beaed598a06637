/** What block transfers achieve: which words are visited, save and restore, the four addressing modes,
    and where write-back differs from the manual. */
module BlockTransfers {
  import opened Bits
  import opened Decode
  import opened Registers
  import opened Memory
  import opened Core
  import opened LoadStoreMultiple

  // ----- which words are visited -----

  lemma {:induction false} BelowGrows(list: Half, i: nat, k: nat)
    requires i <= k
    ensures Below(list, i) <= Below(list, k)
    ensures i < k && Listed(list, i) ==> Below(list, i) < Below(list, k)
    decreases k
  {
    if i < k {
      BelowGrows(list, i, k - 1);
    }
  }

  /** The listed register that uses word number w of the block. */
  function UserOf(list: Half, w: nat, k: nat): (i: nat)
    requires w < Below(list, k)
    ensures i < k && Listed(list, i) && Below(list, i) == w
  {
    if w < Below(list, k - 1) then UserOf(list, w, k - 1) else k - 1
  }

  predicate Used(list: Half, w: nat) {
    exists i :: 0 <= i < 16 && Listed(list, i) && Below(list, i) == w
  }

  /** The listed registers and the words of the block correspond one to one, in order. */
  lemma EachWordOnce(list: Half)
    ensures forall i :: 0 <= i < 16 && Listed(list, i) ==> Below(list, i) < Count(list)
    ensures forall i, j :: 0 <= i < j < 16 && Listed(list, i) && Listed(list, j) ==> Below(list, i) < Below(list, j)
    ensures forall w: nat :: w < Count(list) ==> Used(list, w)
  {
    hide Below, Listed;
    forall i | 0 <= i < 16 && Listed(list, i) ensures Below(list, i) < Count(list) {
      BelowGrows(list, i, 16);
    }
    forall i, j | 0 <= i < j < 16 && Listed(list, i) && Listed(list, j) ensures Below(list, i) < Below(list, j) {
      BelowGrows(list, i, j);
    }
    forall w: nat | w < Count(list) ensures Used(list, w) {
      var i := UserOf(list, w, 16);
    }
  }

  /** Words of one block never overlap, even when the addresses wrap around. */
  lemma WordsApart(list: Half, start: Word, i: nat, j: nat)
    requires i < j <= 16 && Listed(list, i)
    ensures Address(list, start, i) + 4 <= Address(list, start, j) || Address(list, start, j) + 4 <= Address(list, start, i)
  {
    hide Bit, Listed, Wrap;
    BelowGrows(list, i, j);
    Distance(start + 4 * Below(list, i), 4 * (Below(list, j) - Below(list, i)));
  }

  lemma Distance(x: int, d: int)
    requires 4 <= d <= 64
    ensures Wrap(x) + 4 <= Wrap(x + d) || Wrap(x + d) + 4 <= Wrap(x)
  {
  }

  // ----- loads -----

  /** After the load loop each listed register holds its word, and every other slot what it held. */
  lemma {:induction false} LoadedRegister(s: State, list: Half, start: Word, k: nat, view: bv8, g: Garbage, q: Byte)
    requires k <= 16 && q < 16 && Mapped(q, view)
    ensures Read(LoadRegisters(s, list, start, k, view, g).regs, q, view)
         == if q < k && Listed(list, q) then WordAt(s, Address(list, start, q), g(q)) else Read(s.regs, q, view)
    decreases k
  {
    hide Address, Listed, LoadWord;
    if k > 0 {
      LoadedRegister(s, list, start, k - 1, view, g, q);
      LoadKeepsMode(s, list, start, k - 1, view, g);
      if q != k - 1 && Mapped(k - 1, view) {
        SlotsDiffer(k - 1, q, view);
      }
    }
  }

  lemma {:induction false} UnloadedSlot(s: State, list: Half, start: Word, k: nat, view: bv8, g: Garbage, slot: nat)
    requires k <= 16 && slot < 96
    requires forall i: Byte :: i < k && Listed(list, i) && Mapped(i, view) ==> Slot(i, view) != slot
    ensures LoadRegisters(s, list, start, k, view, g).regs.general[slot] == s.regs.general[slot]
    decreases k
  {
    hide Address, Listed, WordAt;
    if k > 0 {
      UnloadedSlot(s, list, start, k - 1, view, g, slot);
    }
  }

  // ----- stores -----

  /** After the store loop each word of the block that lies in memory holds its register. */
  lemma {:induction false} StoredWord(s: State, list: Half, start: Word, k: nat, view: bv8, q: Byte)
    requires k <= 16 && q < k && Listed(list, q)
    requires InRange(s.mem, Address(list, start, q), 4)
    ensures LoadWord(StoreRegisters(s, list, start, k, view).mem, Address(list, start, q), s.be) == Some(RegIn(s, q, view))
    decreases k
  {
    hide Address, Listed, LoadWord, Store, RegIn;
    var s1 := StoreRegisters(s, list, start, k - 1, view);
    StoreKeepsRegisters(s, list, start, k - 1, view);
    assert RegIn(s1, k - 1, view) == RegIn(s, k - 1, view) by { SameRegisters(s, s1, k - 1, view); }
    if q == k - 1 {
      WordAfterStore(s1.mem, Address(list, start, q), RegIn(s1, q, view), s.be);
    } else {
      StoredWord(s, list, start, k - 1, view, q);
      WordsApart(list, start, q, k - 1);
      WordElsewhere(s1.mem, Address(list, start, k - 1), RegIn(s1, k - 1, view), Address(list, start, q), s.be);
    }
  }

  /** Bytes outside the block keep their value. */
  lemma {:induction false} UnstoredByte(s: State, list: Half, start: Word, k: nat, view: bv8, i: nat)
    requires k <= 16 && i < |s.mem|
    requires forall q :: 0 <= q < k && Listed(list, q) ==> !(Address(list, start, q) <= i < Address(list, start, q) + 4)
    ensures |StoreRegisters(s, list, start, k, view).mem| == |s.mem|
    ensures StoreRegisters(s, list, start, k, view).mem[i] == s.mem[i]
    decreases k
  {
    hide Address, Listed, Store, RegIn;
    StoreKeepsRegisters(s, list, start, k, view);
    if k > 0 {
      UnstoredByte(s, list, start, k - 1, view, i);
      var s1 := StoreRegisters(s, list, start, k - 1, view);
      BytesOutsideStore(s1.mem, Address(list, start, k - 1), RegIn(s1, k - 1, view), s.be);
      StoreKeepsRegisters(s, list, start, k - 1, view);
    }
  }

  // ----- main results: save and restore -----

  /** Every listed word lies in memory.  The block may wrap around the top of the address space. */
  predicate BlockInRange(m: Bytes, list: Half, start: Word) {
    forall i :: 0 <= i < 16 && Listed(list, i) ==> InRange(m, Address(list, start, i), 4)
  }

  /** A block transfer by its parts; `user` is the S bit. */
  predicate MovesBlock(ins: Word, load: bool, user: bool, list: Half) {
    Low16(ins) == list && list != 0 && Bit20(ins) == load && Bit22(ins) == user
  }

  /** One without write-back. */
  predicate Transfers(ins: Word, load: bool, user: bool, list: Half) {
    MovesBlock(ins, load, user, list) && !Bit21(ins)
  }

  /** The state after write-back. */
  function WrittenBack(s: State, ins: Word, start: Word): State {
    if Bit21(ins) then SetReg(s, RnField(ins), Wrap(start + 4 * Count(Low16(ins)))) else s
  }

  /** Bit 15 of a register list. */
  predicate NamesPc(list: Half) {
    list >= 0x8000
  }

  lemma PcIsListed(list: Half)
    ensures Listed(list, 15) <==> NamesPc(list)
  {
    assert Pow2(15) == 0x8000 by { assert Pow2(16) == 2 * Pow2(15); Pow2Values(); }
  }

  function StartOf(s: State, ins: Word): Word {
    Start(Bit24(ins), Bit23(ins), Reg(s, RnField(ins)), Count(Low16(ins)))
  }

  /** Two states hold the same words in a block. */
  predicate SameBlock(m: Bytes, n: Bytes, be: bool, list: Half, start: Word) {
    forall i :: 0 <= i < 16 && Listed(list, i) ==>
      LoadWord(m, Address(list, start, i), be) == LoadWord(n, Address(list, start, i), be)
  }

  /** What an STM saves is where the LDM looks for it: the block lies in memory, the two start addresses are the
      same, and the words of the block are still as the STM left them. */
  predicate Kept(s: State, stm: Word, t: State, ldm: Word, g: Garbage, list: Half) {
    var start := StartOf(s, stm);
    StartOf(t, ldm) == start && BlockInRange(s.mem, list, start)
    && SameBlock(t.mem, Multiple(s, stm, g).0.mem, s.be, list, start)
  }

  lemma StoreMeaning(s: State, ins: Word, g: Garbage, user: bool, list: Half)
    requires Transfers(ins, false, user, list)
    requires user ==> ExceptionMode(Mode(s))
    ensures Multiple(s, ins, g) == (StoreRegisters(s, list, StartOf(s, ins), 16, View(s, user)), SUCCESSFULLY_DECODED)
  {
    hide Start, StoreRegisters, ModeOf, Count;
  }

  /** What an LDM puts in place of a word that cannot be read. */
  function HeldBy(s: State, ins: Word, g: Garbage): Garbage {
    if Bit22(ins) then g else Retained(s.mem, s.be, Low16(ins), StartOf(s, ins), g)
  }

  lemma LoadMeaning(s: State, ins: Word, g: Garbage, user: bool, list: Half)
    requires Transfers(ins, true, user, list) && !NamesPc(list)
    requires user ==> ExceptionMode(Mode(s))
    ensures Multiple(s, ins, g)
         == (LoadRegisters(s, list, StartOf(s, ins), 15, View(s, user), HeldBy(s, ins, g)), SUCCESSFULLY_DECODED)
  {
    hide Start, LoadRegisters, ModeOf, Count, Listed, Retained;
    PcIsListed(list);
  }

  /** STM saves and LDM restores.  Between the two anything may have happened, as long as the words of the
      block and the mode are as the STM left them and the LDM finds the same start address; the two
      instructions may name different base registers and use different addressing modes. */
  lemma SaveThenRestore(s: State, stm: Word, t: State, ldm: Word, g: Garbage, list: Half, q: Byte)
    requires Transfers(stm, false, false, list) && Transfers(ldm, true, false, list) && !NamesPc(list)
    requires Mode(t) == Mode(s) && t.be == s.be && q < 15 && Mapped(q, Mode(s))
    ensures Multiple(s, stm, g).1 == SUCCESSFULLY_DECODED && Multiple(t, ldm, g).1 == SUCCESSFULLY_DECODED
    ensures Kept(s, stm, t, ldm, g, list) ==>
      Reg(Multiple(t, ldm, g).0, q) == if Listed(list, q) then Reg(s, q) else Reg(t, q)
  {
    hide Multiple, StartOf, HeldBy, Listed, ModeOf, LoadWord, Read, Address, Transfers;
    StoreMeaning(s, stm, g, false, list);
    LoadMeaning(t, ldm, g, false, list);
    var start := StartOf(t, ldm);
    LoadedRegister(t, list, start, 15, Mode(t), HeldBy(t, ldm, g), q);
    LoadKeepsMode(t, list, start, 15, Mode(t), HeldBy(t, ldm, g));
    if Listed(list, q) && Kept(s, stm, t, ldm, g, list) {
      StoredWord(s, list, start, 16, Mode(s), q);
    }
  }

  /** Context save in one exception mode and restore in another: the user bank comes back, and the registers
      private to the second mode are untouched. */
  lemma ContextSwitch(s: State, stm: Word, t: State, ldm: Word, g: Garbage, list: Half, q: Byte)
    requires Transfers(stm, false, true, list) && Transfers(ldm, true, true, list) && !NamesPc(list)
    requires ExceptionMode(Mode(s)) && ExceptionMode(Mode(t)) && t.be == s.be && q < 15
    ensures Multiple(s, stm, g).1 == SUCCESSFULLY_DECODED && Multiple(t, ldm, g).1 == SUCCESSFULLY_DECODED
    ensures Kept(s, stm, t, ldm, g, list) ==>
      RegIn(Multiple(t, ldm, g).0, q, USR) == if Listed(list, q) then RegIn(s, q, USR) else RegIn(t, q, USR)
    ensures BankOf(q, Mode(t)) != Common ==> Reg(Multiple(t, ldm, g).0, q) == Reg(t, q)
  {
    hide Multiple, StartOf, HeldBy, Listed, ModeOf, LoadWord, Address, Transfers, Slot, ModeInd, BankOf;
    StoreMeaning(s, stm, g, true, list);
    LoadMeaning(t, ldm, g, true, list);
    var start, held := StartOf(t, ldm), HeldBy(t, ldm, g);
    SlotsAlias(q, USR, q, Mode(t));
    LoadedRegister(t, list, start, 15, USR, held, q);
    LoadKeepsMode(t, list, start, 15, USR, held);
    if Listed(list, q) && Kept(s, stm, t, ldm, g, list) {
      StoredWord(s, list, start, 16, USR, q);
    }
    if BankOf(q, Mode(t)) != Common {
      UserSlotsAreCommon(q, Mode(t), 15);
      UnloadedSlot(t, list, start, 15, USR, held, Slot(q, Mode(t)));
    }
  }

  lemma UserSlotsAreCommon(q: Byte, mode: bv8, k: nat)
    requires q < 16 && ValidMode(mode) && BankOf(q, mode) != Common && k <= 16
    ensures Mapped(q, mode)
    ensures forall i: Byte :: i < k && Mapped(i, USR) ==> Slot(i, USR) != Slot(q, mode)
  {
    forall i: Byte | i < k && Mapped(i, USR)
      ensures Slot(i, USR) != Slot(q, mode)
    {
      SlotsAlias(i, USR, q, mode);
    }
    SlotsAlias(q, USR, q, mode);
  }

  // ----- loads, with and without write-back -----

  lemma MultipleIs(s: State, ins: Word, list: Half, load: bool, user: bool, g: Garbage)
    requires MovesBlock(ins, load, user, list) && (user ==> Mode(s) != USR && Mode(s) != SYS)
    ensures var start := StartOf(s, ins);
      var (s1, code) := TransferBlock(s, load, user, list, start, g);
      Multiple(s, ins, g) == if code == SUCCESSFULLY_DECODED then (WrittenBack(s1, ins, start), code) else (s1, code)
  {
    hide TransferBlock, Start, Count, ModeOf, Reg, SetReg;
  }

  /** Write-back changes the slot of the base register, which may be seen in other modes too. */
  lemma BaseWritten(s: State, ins: Word, start: Word, q: Byte, view: bv8)
    requires q < 16 && Mapped(q, view)
    ensures var t := WrittenBack(s, ins, start);
      Read(t.regs, q, view)
      == (if Bit21(ins) && Mapped(RnField(ins), Mode(s)) && Slot(RnField(ins), Mode(s)) == Slot(q, view)
          then Wrap(start + 4 * Count(Low16(ins))) else Read(s.regs, q, view))
      && t.regs.cpsr == s.regs.cpsr && t.regs.status == s.regs.status && t.mem == s.mem && t.be == s.be && t.cycles == s.cycles
  {
    hide ModeOf, ModeInd, Count, Wrap;
  }

  /** One register after write-back, in the current mode. */
  lemma BaseWrittenHere(s: State, ins: Word, start: Word, q: Byte)
    requires q < 16 && Mapped(q, Mode(s))
    ensures Read(WrittenBack(s, ins, start).regs, q, Mode(s))
         == if Bit21(ins) && q == RnField(ins) then Wrap(start + 4 * Count(Low16(ins))) else Read(s.regs, q, Mode(s))
  {
    hide ModeOf, Slot, ModeInd, Count, Wrap, Read;
    BaseWritten(s, ins, start, q, Mode(s));
    if q != RnField(ins) && Mapped(RnField(ins), Mode(s)) {
      SlotsDiffer(q, RnField(ins), Mode(s));
    }
  }

  /** LDM without S, with or without write-back, register by register: its word (aligned for the PC), or, if that lies
      outside memory, the last word below it in the list that does not; the base register, listed or not, ends
      with what is written back. */
  lemma PlainLoad(s: State, ins: Word, list: Half, g: Garbage, q: Byte)
    requires MovesBlock(ins, true, false, list) && q < 16
    ensures var (t, code) := Multiple(s, ins, g);
      var start := StartOf(s, ins);
      var word := OrElse(LoadWord(s.mem, Address(list, start, q), s.be), LastRead(s.mem, s.be, list, start, q, g));
      code == SUCCESSFULLY_DECODED && t == s.(regs := t.regs) && t.regs.cpsr == s.regs.cpsr && t.regs.status == s.regs.status
      && (Mapped(q, Mode(s)) ==>
            Read(t.regs, q, Mode(s))
            == if Bit21(ins) && q == RnField(ins) then Wrap(start + 4 * Count(list))
               else if Listed(list, q) then (if q == 15 then WordAligned(word) else word)
               else Read(s.regs, q, Mode(s)))
  {
    hide Multiple, Start, StartOf, LoadRegisters, LastRead, ModeOf, Count, Listed, Address, LoadWord, WordAligned, Read, Write, Mapped,
      WrittenBack, LoadPlain;
    var start := StartOf(s, ins);
    var s1 := LoadPlain(s, list, start, g);
    MultipleIs(s, ins, list, true, false, g);
    assert Multiple(s, ins, g) == (WrittenBack(s1, ins, start), SUCCESSFULLY_DECODED);
    PlainRegister(s, list, start, g, q);
    if Mapped(q, Mode(s)) {
      BaseWrittenHere(s1, ins, start, q);
    }
    BaseWritten(s1, ins, start, 15, USR) by { PcIsMapped(USR); }
  }

  /** Which word that is: the one of the highest listed register below whose word lies in memory, and what the local held
      at first if there is none. */
  lemma {:induction false} LastReadIs(m: Bytes, be: bool, list: Half, start: Word, k: nat, g: Garbage, j: nat)
    requires k <= 16 && forall i :: j < i < k && Listed(list, i) ==> !InRange(m, Address(list, start, i), 4)
    ensures j < k && Listed(list, j) && InRange(m, Address(list, start, j), 4) ==>
      Some(LastRead(m, be, list, start, k, g)) == LoadWord(m, Address(list, start, j), be)
    ensures j == 0 && !(k > 0 && Listed(list, 0) && InRange(m, Address(list, start, 0), 4)) ==>
      LastRead(m, be, list, start, k, g) == g(LOADED)
    decreases k
  {
    hide Listed, Address, Load;
    if k > 0 && k - 1 != j {
      LastReadIs(m, be, list, start, k - 1, g, j);
    } else if k > 0 && j == 0 {
      assert LastRead(m, be, list, start, 0, g) == g(LOADED);
    }
  }

  lemma PlainRegister(s: State, list: Half, start: Word, g: Garbage, q: Byte)
    requires q < 16
    ensures var t := LoadPlain(s, list, start, g);
      var word := OrElse(LoadWord(s.mem, Address(list, start, q), s.be), LastRead(s.mem, s.be, list, start, q, g));
      t == s.(regs := t.regs) && t.regs.cpsr == s.regs.cpsr && t.regs.status == s.regs.status
      && (Mapped(q, Mode(s)) ==>
            Read(t.regs, q, Mode(s))
            == if Listed(list, q) then (if q == 15 then WordAligned(word) else word) else Read(s.regs, q, Mode(s)))
  {
    hide LoadRegisters, LastRead, ModeOf, Listed, Address, LoadWord, WordAligned, ModeInd, Mapped, Slot;
    var held := Retained(s.mem, s.be, list, start, g);
    var s1 := LoadRegisters(s, list, start, 15, Mode(s), held);
    LoadKeepsMode(s, list, start, 15, Mode(s), held);
    SameWord(s, s1, Address(list, start, 15), held(15));
    PcIsMapped(Mode(s));
    if Mapped(q, Mode(s)) {
      LoadedRegister(s, list, start, 15, Mode(s), held, q);
      if q != 15 {
        SlotsDiffer(15, q, Mode(s));
      }
    }
  }

  /** LDM with S and the PC, in an exception mode, likewise: every listed register is loaded in the current mode's view,
      the PC without alignment.  The CPSR stays, so it becomes the SPSR exactly when the two were equal. */
  lemma LoadAndReturnMeaning(s: State, ins: Word, list: Half, g: Garbage, q: Byte)
    requires MovesBlock(ins, true, true, list) && NamesPc(list) && ExceptionMode(Mode(s)) && q < 16
    ensures var (t, code) := Multiple(s, ins, g);
      var start := StartOf(s, ins);
      code == SUCCESSFULLY_DECODED && t.regs.cpsr == s.regs.cpsr && t.mem == s.mem && t.be == s.be && t.cycles == s.cycles
      && (t.regs.cpsr == Spsr(s) <==> Spsr(s) == s.regs.cpsr)
      && t.regs.status == WriteSpsr(s.regs, Mode(s), s.regs.cpsr).status
      && Read(t.regs, q, Mode(s))
         == if Bit21(ins) && q == RnField(ins) then Wrap(start + 4 * Count(list))
            else if Listed(list, q) then WordAt(s, Address(list, start, q), g(q))
            else Read(s.regs, q, Mode(s))
  {
    hide Multiple, Start, StartOf, LoadRegisters, ModeOf, Count, Listed, Address, WordAt, Read, Write, Mapped, WrittenBack,
      LoadAndReturn, ReadSpsr, WriteSpsr;
    var start := StartOf(s, ins);
    PcIsListed(list);
    ReturnRegister(s, list, start, g, q);
    var s1 := LoadAndReturn(s, list, start, g).0;
    MultipleIs(s, ins, list, true, true, g);
    assert Multiple(s, ins, g) == (WrittenBack(s1, ins, start), SUCCESSFULLY_DECODED);
    AllMapped(q, Mode(s));
    BaseWrittenHere(s1, ins, start, q);
    BaseWritten(s1, ins, start, q, Mode(s));
  }

  lemma ReturnRegister(s: State, list: Half, start: Word, g: Garbage, q: Byte)
    requires Listed(list, 15) && ExceptionMode(Mode(s)) && q < 16
    ensures var (t, code) := LoadAndReturn(s, list, start, g);
      code == SUCCESSFULLY_DECODED && t.regs.cpsr == s.regs.cpsr && t.mem == s.mem && t.be == s.be && t.cycles == s.cycles
      && t.regs.status == WriteSpsr(s.regs, Mode(s), s.regs.cpsr).status
      && Read(t.regs, q, Mode(s))
         == if Listed(list, q) then WordAt(s, Address(list, start, q), g(q)) else Read(s.regs, q, Mode(s))
  {
    hide LoadRegisters, ModeOf, Listed, Address, WordAt, Read, Write, RestoreCpsr, Mapped, WriteSpsr;
    var mode := Mode(s);
    var s1 := LoadRegisters(s, list, start, 15, mode, g);
    LoadKeepsMode(s, list, start, 15, mode, g);
    RestoreKeepsCpsr(s1);
    RestoreCopies(s1, s.regs);
    var s2 := RestoreCpsr(s1).0;
    SameWord(s, s2, Address(list, start, 15), g(15));
    AllMapped(q, mode);
    AllMapped(15, mode);
    LoadedRegister(s, list, start, 15, mode, g, q);
    PcThenRead(s2.regs, mode, WordAt(s, Address(list, start, 15), g(15)), q);
    SameTable(s1.regs, s2.regs, q, mode);
  }

  lemma RestoreCopies(s: State, f: RegisterFile)
    requires f.status == s.regs.status
    ensures RestoreCpsr(s).0.regs.status == WriteSpsr(f, Mode(s), s.regs.cpsr).status
  {
    hide ModeOf;
  }

  lemma PcThenRead(f: RegisterFile, mode: bv8, pc: Word, q: Byte)
    requires q < 16 && Mapped(15, mode) && Mapped(q, mode)
    ensures Read(Write(f, 15, mode, pc), q, mode) == if q == 15 then pc else Read(f, q, mode)
    ensures Write(f, 15, mode, pc).cpsr == f.cpsr && Write(f, 15, mode, pc).status == f.status
  {
    hide ModeInd, Slot;
    if q != 15 {
      SlotsDiffer(15, q, mode);
    }
  }

  /** LDM with S and without the PC, in any view: the listed registers of the user bank are loaded, and what is seen of
      other banks stays, up to the base. */
  lemma UserLoad(s: State, ins: Word, list: Half, g: Garbage, q: Byte, view: bv8)
    requires MovesBlock(ins, true, true, list) && !NamesPc(list) && Mode(s) != USR && Mode(s) != SYS
    requires q < 16 && Mapped(q, view)
    ensures var (t, code) := Multiple(s, ins, g);
      var start := StartOf(s, ins);
      code == SUCCESSFULLY_DECODED && t == s.(regs := t.regs) && t.regs.cpsr == s.regs.cpsr && t.regs.status == s.regs.status
      && Read(t.regs, q, view)
         == if Bit21(ins) && Mapped(RnField(ins), Mode(s)) && Slot(RnField(ins), Mode(s)) == Slot(q, view)
            then Wrap(start + 4 * Count(list))
            else if Listed(list, q) && BankOf(q, view) == Common then WordAt(s, Address(list, start, q), g(q))
            else Read(s.regs, q, view)
  {
    hide Multiple, Start, StartOf, LoadRegisters, ModeOf, Count, Listed, Address, WordAt, Read, WrittenBack, ModeInd, Slot, BankOf;
    var start := StartOf(s, ins);
    PcIsListed(list);
    var s1 := LoadRegisters(s, list, start, 15, USR, g);
    LoadKeepsMode(s, list, start, 15, USR, g);
    MultipleIs(s, ins, list, true, true, g);
    assert Multiple(s, ins, g) == (WrittenBack(s1, ins, start), SUCCESSFULLY_DECODED);
    BaseWritten(s1, ins, start, q, view);
    UserRegister(s, list, start, g, q, view);
  }

  lemma UserRegister(s: State, list: Half, start: Word, g: Garbage, q: Byte, view: bv8)
    requires q < 16 && Mapped(q, view) && !Listed(list, 15)
    ensures Read(LoadRegisters(s, list, start, 15, USR, g).regs, q, view)
         == if Listed(list, q) && BankOf(q, view) == Common then WordAt(s, Address(list, start, q), g(q))
            else Read(s.regs, q, view)
  {
    hide LoadRegisters, Listed, Address, WordAt, ModeInd, Slot, BankOf;
    CommonSlots(q, view);
    if BankOf(q, view) == Common {
      LoadedRegister(s, list, start, 15, USR, g, q);
    } else {
      UnloadedSlot(s, list, start, 15, USR, g, Slot(q, view));
    }
  }

  lemma CommonSlots(q: Byte, view: bv8)
    requires q < 16 && Mapped(q, view)
    ensures Mapped(q, USR) && Slot(q, USR) == q
    ensures BankOf(q, view) == Common ==> Slot(q, view) == q
    ensures BankOf(q, view) != Common ==> forall i: Byte :: i < 15 && Mapped(i, USR) ==> Slot(i, USR) != Slot(q, view)
  {
  }

  // ----- stores, with and without write-back -----

  /** STM, with or without write-back and S, word by word and byte by byte: the registers are stored as they are before
      write-back, in the current or the user view. */
  lemma StoreBlock(s: State, ins: Word, list: Half, user: bool, g: Garbage, q: Byte, i: nat)
    requires MovesBlock(ins, false, user, list) && (user ==> Mode(s) != USR && Mode(s) != SYS) && q < 16
    ensures var (t, code) := Multiple(s, ins, g);
      var start := StartOf(s, ins);
      code == SUCCESSFULLY_DECODED && t == WrittenBack(s, ins, start).(mem := t.mem) && |t.mem| == |s.mem|
      && (Listed(list, q) && InRange(s.mem, Address(list, start, q), 4) ==>
            LoadWord(t.mem, Address(list, start, q), s.be) == Some(RegIn(s, q, View(s, user))))
      && (i < |s.mem| && OutsideBlock(list, start, i) ==> t.mem[i] == s.mem[i])
  {
    hide Multiple, Start, StartOf, StoreRegisters, ModeOf, Count, Listed, Address, LoadWord, RegIn, OutsideBlock, Write, Read;
    var start, view := StartOf(s, ins), View(s, user);
    var s1 := StoreRegisters(s, list, start, 16, view);
    MultipleIs(s, ins, list, false, user, g);
    StoreKeepsRegisters(s, list, start, 16, view);
    if Listed(list, q) && InRange(s.mem, Address(list, start, q), 4) {
      StoredWord(s, list, start, 16, view, q);
    }
    if i < |s.mem| && OutsideBlock(list, start, i) {
      OutsideMeans(list, start, i);
      UnstoredByte(s, list, start, 16, view, i);
    }
  }

  predicate OutsideBlock(list: Half, start: Word, i: nat) {
    forall q :: 0 <= q < 16 && Listed(list, q) ==> !(Address(list, start, q) <= i < Address(list, start, q) + 4)
  }

  lemma OutsideMeans(list: Half, start: Word, i: nat)
    requires OutsideBlock(list, start, i)
    ensures forall q :: 0 <= q < 16 && Listed(list, q) ==> !(Address(list, start, q) <= i < Address(list, start, q) + 4)
  {
  }

  lemma AllMapped(q: Byte, mode: bv8)
    requires q < 16 && ExceptionMode(mode)
    ensures Mapped(q, mode)
  {
  }

  lemma SameTable(f: RegisterFile, h: RegisterFile, q: Byte, mode: bv8)
    requires f.general == h.general
    ensures Read(f, q, mode) == Read(h, q, mode)
  {
  }

  // ----- the four addressing modes -----

  /** The base value that makes a block of n words start at b: b for IA, b - 4 for IB, b + 4n - 4 for DA
      and b + 4n for DB. */
  function BaseFor(before: bool, up: bool, b: Word, n: nat): Word {
    if up then Wrap(b - (if before then 4 else 0)) else Wrap(b + 4 * n - (if before then 0 else 4))
  }

  lemma BaseStarts(before: bool, up: bool, b: Word, n: nat)
    ensures Start(before, up, BaseFor(before, up, b, n), n) == b
  {
    hide Wrap;
    WrapWord(b);
    if up {
      WrapWrap(b - (if before then 4 else 0), if before then 4 else 0);
    } else {
      WrapWrap(b + 4 * n - (if before then 0 else 4), -4 * n + (if before then 0 else 4));
    }
  }

  /** The state in which an instruction finds the base register that makes its block start at b. */
  function Based(s: State, ins: Word, b: Word): State {
    SetReg(s, RnField(ins), BaseFor(Bit24(ins), Bit23(ins), b, Count(Low16(ins))))
  }

  /** The base register is an ordinary one outside the list. */
  predicate FreeBase(s: State, ins: Word) {
    RnField(ins) < 15 && Mapped(RnField(ins), Mode(s)) && !Listed(Low16(ins), RnField(ins))
  }

  lemma BasedStarts(s: State, ins: Word, b: Word)
    requires FreeBase(s, ins)
    ensures StartOf(Based(s, ins, b), ins) == b && Mode(Based(s, ins, b)) == Mode(s)
    ensures Based(s, ins, b).mem == s.mem && Based(s, ins, b).be == s.be
    ensures forall q: Byte :: q < 16 && Listed(Low16(ins), q) ==> Reg(Based(s, ins, b), q) == Reg(s, q)
  {
    hide Start, BaseFor, Count, Listed, ModeOf, Reg;
    var n := Count(Low16(ins));
    var base := BaseFor(Bit24(ins), Bit23(ins), b, n);
    SetThenGet(s, RnField(ins), base, RnField(ins));
    BaseStarts(Bit24(ins), Bit23(ins), b, n);
    forall q: Byte | q < 16 && Listed(Low16(ins), q)
      ensures Reg(Based(s, ins, b), q) == Reg(s, q)
    {
      SetThenGet(s, RnField(ins), base, q);
    }
  }

  /** What is stored depends only on the listed registers. */
  lemma {:induction false} StoreDependsOnList(s: State, t: State, list: Half, start: Word, k: nat, view: bv8)
    requires k <= 16 && s.mem == t.mem && s.be == t.be
    requires forall q: Byte :: q < k && Listed(list, q) ==> RegIn(s, q, view) == RegIn(t, q, view)
    ensures StoreRegisters(s, list, start, k, view).mem == StoreRegisters(t, list, start, k, view).mem
    decreases k
  {
    hide Listed, Address, RegIn, Store;
    if k > 0 {
      StoreDependsOnList(s, t, list, start, k - 1, view);
      var s1, t1 := StoreRegisters(s, list, start, k - 1, view), StoreRegisters(t, list, start, k - 1, view);
      StoreKeepsRegisters(s, list, start, k - 1, view);
      StoreKeepsRegisters(t, list, start, k - 1, view);
      SameRegisters(s, s1, k - 1, view);
      SameRegisters(t, t1, k - 1, view);
    }
  }

  /** Two STMs of one list, in any two of the four addressing modes and through any base registers outside
      the list, produce the same memory when their bases differ as the modes do. */
  lemma StoreModesAgree(s: State, x: Word, y: Word, list: Half, b: Word, g: Garbage)
    requires Transfers(x, false, false, list) && Transfers(y, false, false, list)
    requires FreeBase(s, x) && FreeBase(s, y)
    ensures Multiple(Based(s, x, b), x, g).0.mem == Multiple(Based(s, y, b), y, g).0.mem
  {
    hide Multiple, StartOf, Based, Listed, ModeOf, FreeBase;
    BasedStarts(s, x, b);
    BasedStarts(s, y, b);
    var s1, s2 := Based(s, x, b), Based(s, y, b);
    StoreMeaning(s1, x, g, false, list);
    StoreMeaning(s2, y, g, false, list);
    forall q: Byte | q < 16 && Listed(list, q)
      ensures RegIn(s1, q, Mode(s)) == RegIn(s2, q, Mode(s))
    {
      assert Reg(s1, q) == Reg(s, q) == Reg(s2, q);
    }
    StoreDependsOnList(s1, s2, list, b, 16, Mode(s));
  }

  /** The matching LDMs load the same registers. */
  lemma LoadModesAgree(s: State, x: Word, y: Word, list: Half, b: Word, g: Garbage, q: Byte)
    requires Transfers(x, true, false, list) && Transfers(y, true, false, list)
    requires FreeBase(s, x) && FreeBase(s, y) && q < 16
    ensures Listed(list, q) && Mapped(q, Mode(s)) ==>
      Reg(Multiple(Based(s, x, b), x, g).0, q) == Reg(Multiple(Based(s, y, b), y, g).0, q)
  {
    hide Multiple, StartOf, Based, Listed, ModeOf, FreeBase, Read, LastRead, LoadWord, Address, WordAligned, PcView;
    BasedStarts(s, x, b);
    BasedStarts(s, y, b);
    PlainLoad(Based(s, x, b), x, list, g, q);
    PlainLoad(Based(s, y, b), y, list, g, q);
  }

  lemma PcIsMapped(mode: bv8)
    ensures Mapped(15, mode)
  {
  }

  // ----- write-back -----

  /** No block transfer changes the CPSR, and no load memory. */
  lemma TransferKeeps(s: State, load: bool, user: bool, list: Half, start: Word, g: Garbage)
    ensures var t := TransferBlock(s, load, user, list, start, g).0;
      t.regs.cpsr == s.regs.cpsr && |t.mem| == |s.mem| && (load ==> t.mem == s.mem)
  {
    hide LoadRegisters, StoreRegisters, Address, Listed, ModeOf, RestoreCpsr, WordAt, Retained;
    var view, held := View(s, user), Retained(s.mem, s.be, list, start, g);
    LoadKeepsMode(s, list, start, 15, Mode(s), g);
    LoadKeepsMode(s, list, start, 15, Mode(s), held);
    LoadKeepsMode(s, list, start, 15, view, g);
    StoreKeepsRegisters(s, list, start, 16, view);
    RestoreKeepsCpsr(LoadRegisters(s, list, start, 15, Mode(s), g));
  }

  /** The base value that section A5.4 of ARM DDI 0100 writes back. */
  function ManualWriteBack(up: bool, rn: Word, n: nat): Word {
    if up then Wrap(rn + 4 * n) else Wrap(rn - 4 * n)
  }

  /** A completed block transfer with write-back leaves in the base register the value the manual asks for
      exactly when the addressing mode is increment after. */
  lemma WriteBackIsRightOnlyForIA(s: State, ins: Word, g: Garbage)
    requires Bit21(ins) && RnField(ins) < 15 && Mapped(RnField(ins), Mode(s))
    ensures Multiple(s, ins, g).1 == SUCCESSFULLY_DECODED ==>
      (Reg(Multiple(s, ins, g).0, RnField(ins)) == ManualWriteBack(Bit23(ins), Reg(s, RnField(ins)), Count(Low16(ins)))
       <==> Bit23(ins) && !Bit24(ins))
  {
    hide TransferBlock, ModeOf, Read, Write, Count, Start;
    if Low16(ins) == 0 {
      return;
    }
    var list, rn := Low16(ins), Reg(s, RnField(ins));
    var n := Count(list);
    var start := Start(Bit24(ins), Bit23(ins), rn, n);
    var s1 := TransferBlock(s, Bit20(ins), Bit22(ins), list, start, g).0;
    TransferKeeps(s, Bit20(ins), Bit22(ins), list, start, g);
    SetThenGet(s1, RnField(ins), Wrap(start + 4 * n), RnField(ins));
    NonEmpty(list);
    BaseAfter(Bit24(ins), Bit23(ins), rn, n);
  }

  lemma NonEmpty(list: Half)
    requires list != 0
    ensures 1 <= Count(list) <= 16
  {
    if Count(list) == 0 {
      NoBits(list, 16);
      Pow2Values();
    }
  }

  lemma {:induction false} NoBits(list: Half, k: nat)
    requires Below(list, k) == 0
    ensures list % Pow2(k) == 0
  {
    if k > 0 {
      NoBits(list, k - 1);
      HighBit(list, k - 1);
    }
  }

  lemma HighBit(x: nat, k: nat)
    ensures x % Pow2(k + 1) == Bit(x, k) * Pow2(k) + x % Pow2(k)
  {
    Twice(x, Pow2(k));
  }

  lemma BaseAfter(before: bool, up: bool, rn: Word, n: nat)
    requires 1 <= n <= 16
    ensures Wrap(Start(before, up, rn, n) + 4 * n) == ManualWriteBack(up, rn, n) <==> up && !before
  {
    hide Wrap;
    WrapWord(rn);
    if up && before {
      WrapWrap(rn + 4, 4 * n);
      WrapApart(rn + 4 * n, 4);
    } else if !up {
      var back := if before then 0 else 4;
      WrapWrap(rn - 4 * n + back, 4 * n);
      WrapApart(rn - 4 * n, 4 * n + back);
    }
  }
}
