/** Block transfers with write-back: where runs of them leave the base register, which saves a load finds again,
    and what takes the place of a stack. */
module BlockStacks {
  import opened Bits
  import opened Decode
  import opened Registers
  import opened Memory
  import opened Core
  import opened LoadStoreMultiple
  import opened BlockTransfers

  // ----- the base register -----

  /** LDM or STM with write-back and without S, through base rn. */
  predicate WritesBack(ins: Word, rn: Byte) {
    Low16(ins) != 0 && Bit21(ins) && !Bit22(ins) && RnField(ins) == rn && rn < 15
  }

  predicate DecrementBefore(ins: Word) {
    Bit24(ins) && !Bit23(ins)
  }

  /** How far the base moves up: 4n for IA, 4n + 4 for IB, 4 for DA and 0 for DB. */
  function Advance(ins: Word): nat {
    (if Bit23(ins) then 4 * Count(Low16(ins)) else 0) + (if Bit23(ins) == Bit24(ins) then 4 else 0)
  }

  lemma AdvanceBounds(ins: Word)
    requires Low16(ins) != 0
    ensures 1 <= Count(Low16(ins)) <= 16 && Advance(ins) <= 68
    ensures Advance(ins) == 0 <==> DecrementBefore(ins)
  {
    hide Count, Bit23, Bit24, Low16;
    NonEmpty(Low16(ins));
  }

  /** The word after the block, from the base and from the start. */
  lemma EndOfBlock(s: State, ins: Word)
    ensures Wrap(StartOf(s, ins) + 4 * Count(Low16(ins))) == Wrap(Reg(s, RnField(ins)) + Advance(ins))
  {
    hide Wrap, Count, Bit23, Bit24, Low16, Reg, RnField;
    var base: int, n := Reg(s, RnField(ins)), Count(Low16(ins));
    if Bit23(ins) {
      WrapWrap(base + (if Bit24(ins) then 4 else 0), 4 * n);
    } else {
      WrapWrap(base - 4 * n + (if Bit24(ins) then 0 else 4), 4 * n);
    }
  }

  lemma BaseMoves(s: State, ins: Word, rn: Byte, g: Garbage)
    requires WritesBack(ins, rn) && Mapped(rn, Mode(s))
    ensures var (t, code) := Multiple(s, ins, g);
      code == SUCCESSFULLY_DECODED && Reg(t, rn) == Wrap(Reg(s, rn) + Advance(ins)) && Mode(t) == Mode(s)
  {
    hide LoadRegisters, StoreRegisters, LoadPlain, Start, Count, Listed, Advance, Wrap, Bit20, Bit21, Bit22, Bit23, Bit24, Low16,
      RnField, ModeOf, Reg;
    var list, start := Low16(ins), StartOf(s, ins);
    TransferKeeps(s, Bit20(ins), false, list, start, g);
    var s1 := TransferBlock(s, Bit20(ins), false, list, start, g).0;
    SetThenGet(s1, rn, Wrap(start + 4 * Count(list)), rn);
    EndOfBlock(s, ins);
  }

  function RunBlocks(s: State, ops: seq<Word>, g: Garbage): State
    decreases |ops|
  {
    if ops == [] then s else RunBlocks(Multiple(s, ops[0], g).0, ops[1..], g)
  }

  function Travel(ops: seq<Word>): nat {
    if ops == [] then 0 else Advance(ops[0]) + Travel(ops[1..])
  }

  lemma {:induction false} TravelIsZero(ops: seq<Word>)
    requires forall op :: op in ops ==> Low16(op) != 0
    ensures Travel(ops) == 0 <==> forall op :: op in ops ==> DecrementBefore(op)
    decreases |ops|
  {
    hide Advance, DecrementBefore, Low16;
    if ops != [] {
      AdvanceBounds(ops[0]);
      TravelIsZero(ops[1..]);
      assert forall op :: op in ops <==> op == ops[0] || op in ops[1..];
    }
  }

  lemma {:induction false} BaseTravels(s: State, ops: seq<Word>, rn: Byte, g: Garbage)
    requires Mapped(rn, Mode(s)) && forall op :: op in ops ==> WritesBack(op, rn)
    ensures Reg(RunBlocks(s, ops, g), rn) == Wrap(Reg(s, rn) + Travel(ops)) && Mode(RunBlocks(s, ops, g)) == Mode(s)
    decreases |ops|
  {
    hide Multiple, Advance, WritesBack, Wrap, Reg, ModeOf, Mapped;
    if ops == [] {
      WrapWord(Reg(s, rn));
    } else {
      BaseMoves(s, ops[0], rn, g);
      BaseTravels(Multiple(s, ops[0], g).0, ops[1..], rn, g);
      WrapWrap(Reg(s, rn) + Advance(ops[0]), Travel(ops[1..]));
    }
  }

  /** Over any run of loads and stores with write-back the base only moves up.  It comes back exactly when the
      distances add up to a multiple of 2^32; short of that, exactly when all are decrement-before. */
  lemma BaseNeverComesDown(s: State, ops: seq<Word>, rn: Byte, g: Garbage)
    requires Mapped(rn, Mode(s)) && forall op :: op in ops ==> WritesBack(op, rn)
    ensures var back := Reg(RunBlocks(s, ops, g), rn) == Reg(s, rn);
      (back <==> Travel(ops) % 0x1_0000_0000 == 0)
      && (Travel(ops) < 0x1_0000_0000 ==> (back <==> forall op :: op in ops ==> DecrementBefore(op)))
  {
    hide RunBlocks, Travel, DecrementBefore, Reg, ModeOf, Mapped;
    BaseTravels(s, ops, rn, g);
    TravelIsZero(ops);
    SameWhenWholeTurns(Reg(s, rn), Travel(ops));
  }

  lemma SameWhenWholeTurns(b: Word, d: nat)
    ensures Wrap(b + d) == b <==> d % 0x1_0000_0000 == 0
    ensures d < 0x1_0000_0000 ==> d % 0x1_0000_0000 == d
  {
    hide Wrap;
    var q, r := d / 0x1_0000_0000, d % 0x1_0000_0000;
    assert b + d == b + r + 0x1_0000_0000 * q;
    WrapTurns(b + r, q);
    WrapSmall(b, r);
  }

  // ----- save, then restore -----

  /** One list, saved and restored through one base outside it. */
  predicate Usable(list: Half, rn: Byte, mode: bv8) {
    list != 0 && !NamesPc(list) && rn < 15 && !Listed(list, rn) && Mapped(rn, mode)
    && forall q: Byte :: q < 15 && Listed(list, q) ==> Mapped(q, mode)
  }

  lemma UsableMeans(list: Half, rn: Byte, mode: bv8)
    requires Usable(list, rn, mode)
    ensures Mapped(rn, mode) && rn < 15
  {
  }

  predicate Moves(ins: Word, load: bool, list: Half, rn: Byte) {
    WritesBack(ins, rn) && Low16(ins) == list && Bit20(ins) == load
  }

  lemma StoreMoves(s: State, ins: Word, list: Half, rn: Byte, g: Garbage)
    requires Moves(ins, false, list, rn)
    ensures Multiple(s, ins, g)
         == (SetReg(StoreRegisters(s, list, StartOf(s, ins), 16, Mode(s)), rn, Wrap(Reg(s, rn) + Advance(ins))), SUCCESSFULLY_DECODED)
  {
    hide LoadRegisters, StoreRegisters, Start, Count, Listed, Advance, Wrap, Bit20, Bit21, Bit22, Bit23, Bit24, Low16, RnField,
      ModeOf, Reg, SetReg;
    EndOfBlock(s, ins);
  }

  lemma LoadMoves(s: State, ins: Word, list: Half, rn: Byte, g: Garbage)
    requires Moves(ins, true, list, rn) && !NamesPc(list)
    ensures Multiple(s, ins, g)
         == (SetReg(LoadRegisters(s, list, StartOf(s, ins), 15, Mode(s), HeldBy(s, ins, g)), rn, Wrap(Reg(s, rn) + Advance(ins))),
             SUCCESSFULLY_DECODED)
  {
    hide LoadRegisters, StoreRegisters, Retained, Start, Count, Listed, Advance, Wrap, Bit20, Bit21, Bit22, Bit23, Bit24, Low16,
      RnField, ModeOf, Reg, SetReg;
    PcIsListed(list);
    EndOfBlock(s, ins);
  }

  /** Where a load looks, when the base is where a store of as many words left it. */
  lemma LoadFindsStore(s: State, stm: Word, t: State, ldm: Word)
    requires Low16(stm) == Low16(ldm) != 0 && RnField(stm) == RnField(ldm)
    requires Reg(t, RnField(ldm)) == Wrap(Reg(s, RnField(stm)) + Advance(stm))
    ensures StartOf(t, ldm) == StartOf(s, stm) <==> DecrementBefore(ldm)
    ensures DecrementBefore(ldm) ==> StartOf(t, ldm) == Wrap(Reg(t, RnField(ldm)) - 4 * Count(Low16(ldm)))
  {
    hide Wrap, Count, Bit23, Bit24, Low16, Reg, RnField, Advance;
    var n, start := Count(Low16(ldm)), StartOf(s, stm);
    AdvanceBounds(ldm);
    EndOfBlock(s, stm);
    WrapWord(start);
    if Bit23(ldm) {
      var d := if Bit24(ldm) then 4 else 0;
      WrapWrap(start + 4 * n, d);
      WrapApart(start, 4 * n + d);
    } else {
      var d: int := if Bit24(ldm) then 0 else 4;
      WrapWrap(start + 4 * n, -4 * n + d);
      if d == 4 {
        WrapApart(start, 4);
      }
    }
  }

  /** STM with write-back and then LDM with write-back of the same list, in any of the four modes each.  The STM
      leaves the base where it was, and the LDM finds the block, each exactly if it is decrement-before; where
      it finds the block it restores the listed registers. */
  lemma SaveThenRestoreThroughBase(s: State, stm: Word, t: State, ldm: Word, g: Garbage, list: Half, rn: Byte, q: Byte)
    requires Moves(stm, false, list, rn) && Moves(ldm, true, list, rn) && Mapped(rn, Mode(s))
    requires Mode(t) == Mode(s) && t.be == s.be && Reg(t, rn) == Wrap(Reg(s, rn) + Advance(stm)) && q < 15
    ensures var (s1, code1) := Multiple(s, stm, g);
      var (t1, code2) := Multiple(t, ldm, g);
      code1 == SUCCESSFULLY_DECODED && code2 == SUCCESSFULLY_DECODED && Reg(s1, rn) == Reg(t, rn)
      && (Reg(s1, rn) == Reg(s, rn) <==> DecrementBefore(stm))
      && (StartOf(t, ldm) == StartOf(s, stm) <==> DecrementBefore(ldm))
      && (Reg(t1, rn) == Reg(s, rn) <==> DecrementBefore(stm) && DecrementBefore(ldm))
      && (Usable(list, rn, Mode(s)) && Kept(s, stm, t, ldm, g, list) && Listed(list, q) ==> Reg(t1, q) == Reg(s, q))
  {
    hide Multiple, StartOf, HeldBy, ModeOf, Listed, Reg, Advance, DecrementBefore, Wrap, Kept, Usable, Mapped;
    BaseMoves(s, stm, rn, g);
    BaseMoves(t, ldm, rn, g);
    TwoAdvances(Reg(s, rn), stm, ldm);
    LoadFindsStore(s, stm, t, ldm);
    if Usable(list, rn, Mode(s)) && Kept(s, stm, t, ldm, g, list) && Listed(list, q) {
      BlockComesBack(s, stm, t, ldm, g, list, rn, q);
    }
  }

  lemma TwoAdvances(base: Word, x: Word, y: Word)
    requires Low16(x) != 0 && Low16(y) != 0
    ensures Wrap(base + Advance(x)) == base <==> DecrementBefore(x)
    ensures Wrap(Wrap(base + Advance(x)) + Advance(y)) == base <==> DecrementBefore(x) && DecrementBefore(y)
  {
    hide Wrap, Advance, DecrementBefore, Low16;
    AdvanceBounds(x);
    AdvanceBounds(y);
    SameWhenWholeTurns(base, Advance(x));
    WrapWrap(base + Advance(x), Advance(y));
    SameWhenWholeTurns(base, Advance(x) + Advance(y));
  }

  lemma BlockComesBack(s: State, stm: Word, t: State, ldm: Word, g: Garbage, list: Half, rn: Byte, q: Byte)
    requires Moves(stm, false, list, rn) && Moves(ldm, true, list, rn) && Usable(list, rn, Mode(s))
    requires Mode(t) == Mode(s) && t.be == s.be && q < 15 && Listed(list, q)
    requires Kept(s, stm, t, ldm, g, list)
    ensures Reg(Multiple(t, ldm, g).0, q) == Reg(s, q)
  {
    hide Multiple, StartOf, HeldBy, ModeOf, Listed, LoadRegisters, LoadWord, Address, Wrap, Advance, Read, Write, Mapped;
    var start := StartOf(s, stm);
    StoreMoves(s, stm, list, rn, g);
    SetRegKeeps(StoreRegisters(s, list, start, 16, Mode(s)), rn, Wrap(Reg(s, rn) + Advance(stm)));
    assert InRange(s.mem, Address(list, start, q), 4);
    StoredWord(s, list, start, 16, Mode(s), q);
    LoadedBack(t, ldm, list, rn, g, q, Reg(s, q));
  }

  /** A listed register after LDM with write-back, whose word lies in memory, and one that is not listed. */
  lemma LoadedBack(t: State, ldm: Word, list: Half, rn: Byte, g: Garbage, q: Byte, v: Word)
    requires Moves(ldm, true, list, rn) && Usable(list, rn, Mode(t)) && q < 15 && q != rn
    ensures var t1 := Multiple(t, ldm, g).0;
      (Listed(list, q) && LoadWord(t.mem, Address(list, StartOf(t, ldm), q), t.be) == Some(v) ==> Reg(t1, q) == v)
      && (!Listed(list, q) ==> Reg(t1, q) == Reg(t, q))
      && t1.mem == t.mem && t1.be == t.be && Mode(t1) == Mode(t)
  {
    hide Multiple, StartOf, HeldBy, ModeOf, Listed, LoadRegisters, LoadWord, Address, Wrap, Advance, Read, Write, Mapped;
    var held, start := HeldBy(t, ldm, g), StartOf(t, ldm);
    var u := LoadRegisters(t, list, start, 15, Mode(t), held);
    LoadMoves(t, ldm, list, rn, g);
    LoadKeepsMode(t, list, start, 15, Mode(t), held);
    SetRegKeeps(u, rn, Wrap(Reg(t, rn) + Advance(ldm)));
    SetThenGet(u, rn, Wrap(Reg(t, rn) + Advance(ldm)), q);
    if Mapped(q, Mode(t)) {
      LoadedRegister(t, list, start, 15, Mode(t), held, q);
    } else {
      UnmappedRead(t, u, q);
    }
  }

  lemma UnmappedRead(s: State, t: State, q: Byte)
    requires Mode(s) == Mode(t) && q < 15 && !Mapped(q, Mode(s))
    ensures Reg(s, q) == Reg(t, q)
  {
  }

  // ----- whole runs -----

  /** A register other than the base is given a value, or the list is saved or restored. */
  datatype BlockOp = Change(reg: Byte, value: Word) | Save(stm: Word) | Restore(ldm: Word)

  /** Saves in any of the four modes; restores in the one that finds them. */
  predicate Follows(op: BlockOp, list: Half, rn: Byte, mode: bv8) {
    match op
    case Change(q, _) => q < 15 && q != rn && Mapped(q, mode)
    case Save(stm) => Moves(stm, false, list, rn)
    case Restore(ldm) => Moves(ldm, true, list, rn) && DecrementBefore(ldm)
  }

  function Do(s: State, op: BlockOp, g: Garbage): State {
    match op
    case Change(q, v) => SetReg(s, q, v)
    case Save(stm) => Multiple(s, stm, g).0
    case Restore(ldm) => Multiple(s, ldm, g).0
  }

  function DoAll(s: State, ops: seq<BlockOp>, g: Garbage): State
    decreases |ops|
  {
    if ops == [] then s else DoAll(Do(s, ops[0], g), ops[1..], g)
  }

  /** What takes the place of a stack: the registers r0 to r14, and one saved copy. */
  datatype Window = Window(now: seq<Word>, saved: seq<Word>)

  type FullWindow = w: Window | |w.now| == 15 && |w.saved| == 15 witness Window(seq(15, _ => 0), seq(15, _ => 0))

  function Abstractly(w: FullWindow, op: BlockOp, list: Half): FullWindow {
    match op
    case Change(q, v) => if q < 15 then w.(now := w.now[q := v]) else w
    case Save(_) => w.(saved := w.now)
    case Restore(_) => w.(now := seq(15, i requires 0 <= i < 15 => if Listed(list, i) then w.saved[i] else w.now[i]))
  }

  function AllAbstractly(w: FullWindow, ops: seq<BlockOp>, list: Half): FullWindow
    decreases |ops|
  {
    if ops == [] then w else AllAbstractly(Abstractly(w, ops[0], list), ops[1..], list)
  }

  /** The block that a decrement-before load would read. */
  function Under(s: State, list: Half, rn: Byte): Word {
    Wrap(Reg(s, rn) - 4 * Count(list))
  }

  predicate SavedIn(s: State, list: Half, start: Word, saved: seq<Word>)
    requires |saved| == 15
  {
    forall q: Byte :: q < 15 && Listed(list, q) ==> LoadWord(s.mem, Address(list, start, q), s.be) == Some(saved[q])
  }

  predicate Shows(s: State, rn: Byte, now: seq<Word>)
    requires |now| == 15
  {
    forall q: Byte :: q < 15 && q != rn ==> Reg(s, q) == now[q]
  }

  predicate Represents(s: State, list: Half, rn: Byte, w: FullWindow) {
    Shows(s, rn, w.now) && SavedIn(s, list, Under(s, list, rn), w.saved)
  }

  /** Every saved block lies in a memory of `size` bytes, given where the base is. */
  predicate Fits(base: Word, ops: seq<BlockOp>, list: Half, size: nat)
    decreases |ops|
  {
    if ops == [] then true
    else if ops[0].Save? then
      var stm := ops[0].stm;
      (forall q: Byte :: q < 15 && Listed(list, q) ==>
         Address(list, Start(Bit24(stm), Bit23(stm), base, Count(list)), q) + 4 <= size)
      && Fits(Wrap(base + Advance(stm)), ops[1..], list, size)
    else Fits(base, ops[1..], list, size)
  }

  lemma ChangeStep(s: State, q: Byte, v: Word, list: Half, rn: Byte, w: FullWindow)
    requires q < 15 && q != rn && rn < 15 && Mapped(q, Mode(s)) && Represents(s, list, rn, w)
    ensures Represents(SetReg(s, q, v), list, rn, Abstractly(w, Change(q, v), list))
    ensures Reg(SetReg(s, q, v), rn) == Reg(s, rn)
  {
    hide Listed, LoadWord, Address, Count, Wrap, ModeOf, Read, Write, Mapped;
    SetRegKeeps(s, q, v);
    forall r: Byte | r < 15
      ensures Reg(SetReg(s, q, v), r) == if r == q then v else Reg(s, r)
    {
      SetThenGet(s, q, v, r);
    }
  }

  lemma SaveStep(s: State, stm: Word, list: Half, rn: Byte, g: Garbage, w: FullWindow)
    requires Moves(stm, false, list, rn) && Usable(list, rn, Mode(s)) && Shows(s, rn, w.now)
    requires forall q: Byte :: q < 15 && Listed(list, q) ==> InRange(s.mem, Address(list, StartOf(s, stm), q), 4)
    ensures var t := Multiple(s, stm, g).0;
      Represents(t, list, rn, w.(saved := w.now)) && Reg(t, rn) == Wrap(Reg(s, rn) + Advance(stm))
      && |t.mem| == |s.mem|
  {
    hide Multiple, StartOf, Listed, LoadWord, Address, Count, Wrap, ModeOf, Read, Write, Mapped, Advance, StoreRegisters;
    var start := StartOf(s, stm);
    var s1 := StoreRegisters(s, list, start, 16, Mode(s));
    var base := Wrap(Reg(s, rn) + Advance(stm));
    StoreMoves(s, stm, list, rn, g);
    StoreKeepsRegisters(s, list, start, 16, Mode(s));
    SetRegKeeps(s1, rn, base);
    UnderStore(s, stm, list, rn);
    forall q: Byte | q < 15
      ensures Reg(SetReg(s1, rn, base), q) == if q == rn then base else Reg(s, q)
    {
      SetThenGet(s1, rn, base, q);
      SameRegisters(s, s1, q, Mode(s));
    }
    forall q: Byte | q < 15 && Listed(list, q)
      ensures LoadWord(s1.mem, Address(list, start, q), s.be) == Some(w.now[q])
    {
      StoredWord(s, list, start, 16, Mode(s), q);
    }
  }

  /** The word below the base that a store leaves is its block. */
  lemma UnderStore(s: State, stm: Word, list: Half, rn: Byte)
    requires Moves(stm, false, list, rn)
    ensures Wrap(Wrap(Reg(s, rn) + Advance(stm)) - 4 * Count(list)) == StartOf(s, stm)
  {
    hide Wrap, Count, Start, Advance, Reg;
    EndOfBlock(s, stm);
    var n := 4 * Count(list);
    WrapWrap(StartOf(s, stm) + n, -n);
    WrapWord(StartOf(s, stm));
  }

  lemma RestoreStep(s: State, ldm: Word, list: Half, rn: Byte, g: Garbage, w: FullWindow)
    requires Moves(ldm, true, list, rn) && DecrementBefore(ldm) && Usable(list, rn, Mode(s)) && Represents(s, list, rn, w)
    ensures var t := Multiple(s, ldm, g).0;
      Represents(t, list, rn, Abstractly(w, Restore(ldm), list)) && Reg(t, rn) == Reg(s, rn) && t.mem == s.mem
  {
    hide Multiple, Listed, LoadWord, Address, Count, Wrap, ModeOf, Reg, Mapped, Advance;
    var t := Multiple(s, ldm, g).0;
    BaseMoves(s, ldm, rn, g);
    AdvanceBounds(ldm);
    WrapWord(Reg(s, rn));
    assert StartOf(s, ldm) == Under(s, list, rn);
    forall q: Byte | q < 15 && q != rn
      ensures Reg(t, q) == if Listed(list, q) then w.saved[q] else Reg(s, q)
    {
      LoadedBack(s, ldm, list, rn, g, q, w.saved[q]);
    }
    LoadedBack(s, ldm, list, rn, g, if rn == 0 then 1 else 0, 0);
  }

  lemma OpKeepsMode(s: State, op: BlockOp, list: Half, rn: Byte, g: Garbage)
    requires Follows(op, list, rn, Mode(s)) && Mapped(rn, Mode(s))
    ensures Mode(Do(s, op, g)) == Mode(s)
  {
    hide Multiple, ModeOf, Mapped, Write;
    match op
    case Change(q, v) => SetRegKeeps(s, q, v);
    case Save(stm) => BaseMoves(s, stm, rn, g);
    case Restore(ldm) => BaseMoves(s, ldm, rn, g);
  }

  /** Any run of saves with write-back in any modes, decrement-before restores with write-back, and changes of
      registers in between behaves like a window with one saved copy: a restore brings back what the last save
      stored, and removes nothing, so what was saved before that is out of reach. */
  lemma {:induction false} RunRefinesWindow(s: State, ops: seq<BlockOp>, list: Half, rn: Byte, g: Garbage, w: FullWindow)
    requires Usable(list, rn, Mode(s)) && forall op :: op in ops ==> Follows(op, list, rn, Mode(s))
    requires Fits(Reg(s, rn), ops, list, |s.mem|)
    ensures Represents(s, list, rn, w) ==> Represents(DoAll(s, ops, g), list, rn, AllAbstractly(w, ops, list))
    decreases |ops|
  {
    hide Multiple, Represents, Usable, Moves, DecrementBefore, Listed, Reg, ModeOf, Mapped, Advance, Address, Wrap, Count, Start;
    if ops != [] && Represents(s, list, rn, w) {
      var op := ops[0];
      assert Follows(op, list, rn, Mode(s));
      RunStep(s, ops, list, rn, g, w);
      RunRefinesWindow(Do(s, op, g), ops[1..], list, rn, g, Abstractly(w, op, list));
    }
  }

  lemma RunStep(s: State, ops: seq<BlockOp>, list: Half, rn: Byte, g: Garbage, w: FullWindow)
    requires ops != [] && Usable(list, rn, Mode(s)) && Follows(ops[0], list, rn, Mode(s))
    requires Represents(s, list, rn, w) && Fits(Reg(s, rn), ops, list, |s.mem|)
    ensures var t := Do(s, ops[0], g);
      Represents(t, list, rn, Abstractly(w, ops[0], list)) && Mode(t) == Mode(s) && Fits(Reg(t, rn), ops[1..], list, |t.mem|)
  {
    hide Multiple, Moves, DecrementBefore, Listed, Reg, ModeOf, Mapped, Advance, Address, Wrap, Count, Start, SavedIn, Shows,
      SetReg;
    OpKeepsMode(s, ops[0], list, rn, g);
    match ops[0]
    case Change(q, v) =>
      ChangeStep(s, q, v, list, rn, w);
      SetRegKeeps(s, q, v);
    case Save(stm) =>
      assert Low16(stm) == list && RnField(stm) == rn by { MovesFields(stm, false, list, rn); }
      SaveStep(s, stm, list, rn, g, w);
    case Restore(ldm) =>
      RestoreStep(s, ldm, list, rn, g, w);
  }

  lemma MovesFields(ins: Word, load: bool, list: Half, rn: Byte)
    requires Moves(ins, load, list, rn)
    ensures Low16(ins) == list && RnField(ins) == rn
  {
  }

  function Visible(s: State): (now: seq<Word>)
    ensures |now| == 15
  {
    seq(15, i requires 0 <= i < 15 => Reg(s, i))
  }

  /** From any state, once the list has been saved. */
  lemma RunAfterSave(s: State, stm: Word, ops: seq<BlockOp>, list: Half, rn: Byte, g: Garbage)
    requires Usable(list, rn, Mode(s)) && Moves(stm, false, list, rn)
    requires forall op :: op in ops ==> Follows(op, list, rn, Mode(s))
    requires Fits(Reg(s, rn), [Save(stm)] + ops, list, |s.mem|)
    ensures Represents(DoAll(s, [Save(stm)] + ops, g), list, rn, AllAbstractly(Window(Visible(s), Visible(s)), ops, list))
  {
    hide Multiple, Represents, Usable, Moves, DecrementBefore, Listed, Reg, ModeOf, Mapped, Advance, Address, Wrap, Count, Start,
      RunBlocks;
    var all := [Save(stm)] + ops;
    assert all[1..] == ops;
    var w := Window(Visible(s), Visible(s));
    MovesFields(stm, false, list, rn);
    SaveStep(s, stm, list, rn, g, w);
    UsableMeans(list, rn, Mode(s));
    OpKeepsMode(s, Save(stm), list, rn, g);
    RunRefinesWindow(Do(s, Save(stm), g), ops, list, rn, g, w);
  }

  // ----- the usual pair -----

  /** STMDB R13!, {R0} and LDMIA R13!, {R0} */
  const PUSH_R0: Word := 0xE92D_0001
  const POP_R0: Word := 0xE8BD_0001

  lemma {:induction false} OneListed(k: nat)
    requires 1 <= k
    ensures Below(1, k) == 1 && !Listed(1, k)
  {
    assert Pow2(k) == 2 * Pow2(k - 1);
    DivModUnique(1, Pow2(k), 0, 1);
    BitStep(1, 0);
    if k > 1 {
      OneListed(k - 1);
    }
  }

  lemma OnlyR0()
    ensures Count(1) == 1 && Listed(1, 0) && Usable(1, 13, SVC)
  {
    hide Bit, Below, Mapped;
    OneListed(16);
    OneListed(13);
    BitStep(1, 0);
    forall q: Byte | q < 15
      ensures Mapped(q, SVC)
    {
      AllMapped(q, SVC);
    }
  }

  lemma {:induction false} StoreOne(s: State, start: Word, k: nat, view: bv8)
    requires 1 <= k <= 16
    ensures StoreRegisters(s, 1, start, k, view) == SetWord(s, start, RegIn(s, 0, view))
  {
    hide Listed, Address, SetWord, RegIn;
    if k == 1 {
      OnlyR0();
      NextAddress(1, start, 0);
    } else {
      OneListed(k - 1);
      StoreOne(s, start, k - 1, view);
    }
  }

  lemma UsualPair()
    ensures Moves(PUSH_R0, false, 1, 13) && Moves(POP_R0, true, 1, 13)
    ensures DecrementBefore(PUSH_R0) && Bit23(POP_R0) && !Bit24(POP_R0)
  {
  }

  /** The push leaves R13 alone, where the manual subtracts 4, and the pop loads the word above the one pushed. */
  lemma UsualPairFails(s: State, g: Garbage)
    requires Mode(s) == SVC && 4 <= Reg(s, 13) && InRange(s.mem, Reg(s, 13), 4)
    ensures var a := Reg(s, 13);
      var s1 := Multiple(s, PUSH_R0, g).0;
      Reg(s1, 13) == a != ManualWriteBack(false, a, 1) && LoadWord(s1.mem, a - 4, s.be) == Some(Reg(s, 0))
      && LoadWord(s.mem, a, s.be) == Some(Reg(Multiple(s1, POP_R0, g).0, 0))
  {
    hide Multiple, ModeOf, LoadWord, Read, Write, Listed, Count, StoreRegisters, Wrap;
    UsualPair();
    OnlyR0();
    var a: Word := Reg(s, 13);
    PushOne(s, g);
    var s1 := Multiple(s, PUSH_R0, g).0;
    assert StartOf(s1, POP_R0) == a by { WrapWord(a); }
    assert Address(1, a, 0) == a by { NextAddress(1, a, 0); }
    WordIsThere(s.mem, a, s.be);
    LoadedBack(s1, POP_R0, 1, 13, g, 0, LoadWord(s.mem, a, s.be).value);
  }

  lemma WordIsThere(m: Bytes, a: Word, be: bool)
    requires InRange(m, a, 4)
    ensures LoadWord(m, a, be).Some?
  {
  }

  lemma PushOne(s: State, g: Garbage)
    requires Mode(s) == SVC && 4 <= Reg(s, 13) && InRange(s.mem, Reg(s, 13), 4)
    ensures var a := Reg(s, 13);
      var s1 := Multiple(s, PUSH_R0, g).0;
      Reg(s1, 13) == a != Wrap(a - 4) && LoadWord(s1.mem, a - 4, s.be) == Some(Reg(s, 0))
      && LoadWord(s1.mem, a, s.be) == LoadWord(s.mem, a, s.be) && Mode(s1) == SVC && s1.be == s.be
  {
    hide Multiple, ModeOf, LoadWord, Store, Read, Write, Listed, StoreRegisters, Wrap, StartOf, Moves, Advance, Usable, Count,
      DecrementBefore, Bit23, Bit24;
    UsualPair();
    OnlyR0();
    PushStart(s);
    var a: int := Reg(s, 13);
    StoreMoves(s, PUSH_R0, 1, 13, g);
    BaseMoves(s, PUSH_R0, 13, g);
    StoreOne(s, a - 4, 16, SVC);
    SetRegKeeps(SetWord(s, a - 4, Reg(s, 0)), 13, a);
    WordAfterStore(s.mem, a - 4, Reg(s, 0), s.be);
    WordElsewhere(s.mem, a - 4, Reg(s, 0), a, s.be);
  }

  lemma PushStart(s: State)
    requires 4 <= Reg(s, 13)
    ensures StartOf(s, PUSH_R0) == Reg(s, 13) - 4 == Wrap(Reg(s, 13) - 4) && Advance(PUSH_R0) == 0
    ensures Wrap(Reg(s, 13) + 0) == Reg(s, 13)
  {
    hide Reg, Count, Wrap, Moves, Usable, Listed, Bit23, Bit24, RnField, Low16;
    UsualPair();
    MovesFields(PUSH_R0, false, 1, 13);
    OnlyR0();
    var a: int := Reg(s, 13);
    WrapWord(a);
    WrapWord(a - 4);
  }
}
