/** A store that moves its base and the load that moves it back, for words, bytes and half words and for
    every kind of offset. */
module SingleTransfers {
  import opened Bits
  import opened Decode
  import opened Registers
  import opened Memory
  import opened Core
  import opened LoadStore

  /** The bytes moved. */
  function Width(ins: Word): (n: nat)
    ensures n == 1 || n == 2 || n == 4
  {
    if HalfWord(ins) then 2 else if Bit22(ins) then 1 else 4
  }

  /** One of STR, STRB, STRH, or of LDR, LDRB, LDRH. */
  predicate Moves(ins: Word, load: bool) {
    Bit20(ins) == load && (HalfWord(ins) ==> !Bit6(ins) && Bit5(ins)) && RnField(ins) < 15 && RdField(ins) < 15
  }

  /** 256 to the power of a width. */
  function Range(n: nat): int {
    if n == 1 then 0x100 else if n == 2 then 0x1_0000 else 0x1_0000_0000
  }

  lemma OffsetsCancel(up: bool, rn: Word, v: Word)
    ensures Offset(!up, Offset(up, rn, v), v) == rn
  {
    hide Wrap;
    var d: int := v;
    WrapWord(rn);
    WrapWrap(rn + d, -d);
    WrapWrap(rn - d, d);
  }

  /** The three writes and the three reads, by width. */
  function Put(s: State, a: Word, n: nat, v: Word): State {
    s.(mem := Store(s.mem, a, n, v % Range(n), s.be))
  }

  lemma StoreEffect(s: State, ins: Word, g: Garbage, v: Word)
    requires Moves(ins, false) && Bit24(ins) && Bit21(ins) && OffsetOf(s, ins) == Some(v)
    ensures var a := Offset(Bit23(ins), Reg(s, RnField(ins)), v);
      var s1 := SetReg(s, RnField(ins), a);
      LoadOrStore(s, ins, g) == (Put(s1, a, Width(ins), Reg(s1, RdField(ins))), SUCCESSFULLY_DECODED)
  {
    hide OffsetOf, Offset, Reg, SetReg, Store, HalfWord;
  }

  /** What a load of a given width returns. */
  function Got(s: State, a: Word, n: nat, held: Word): Word {
    if n == 2 then OrElse(LoadHalf(s.mem, a, s.be), held % 0x1_0000)
    else if n == 1 then OrElse(LoadByte(s.mem, a), held % 0x100)
    else WordAt(s, a, held)
  }

  lemma LoadEffect(s: State, ins: Word, g: Garbage, v: Word)
    requires Moves(ins, true) && !Bit24(ins) && !Bit21(ins) && OffsetOf(s, ins) == Some(v)
    ensures var a := Reg(s, RnField(ins));
      var s1 := SetReg(s, RnField(ins), Offset(Bit23(ins), a, v));
      LoadOrStore(s, ins, g) == (SetReg(s1, RdField(ins), Got(s1, a, Width(ins), g(RdField(ins)))), SUCCESSFULLY_DECODED)
  {
    hide OffsetOf, Offset, Reg, LoadWord, LoadHalf, LoadByte, HalfWord, Write, ModeOf;
  }

  lemma GotAfterPut(s: State, a: Word, n: nat, v: Word, held: Word)
    requires (n == 1 || n == 2 || n == 4) && InRange(s.mem, a, n)
    ensures Got(Put(s, a, n, v), a, n, held) == v % Range(n)
    ensures forall i :: 0 <= i < |s.mem| && !(a <= i < a + n) ==> Put(s, a, n, v).mem[i] == s.mem[i]
  {
    hide Load;
    Pow2Values();
    assert v % Range(n) < Pow2(8 * n);
    LoadAfterStore(s.mem, a, n, v % Range(n), s.be);
    if n == 1 {
      OneByte(v % 0x100);
    }
  }

  /** Whatever the addressing modes of the two: a load from the address of a store, with the same width, returns
      what was stored, cut to the width. */
  lemma LoadSeesStore(s: State, st: Word, ld: Word, g: Garbage, s1: State, t1: State, a: Word)
    requires Moves(st, false) && Moves(ld, true) && Width(ld) == Width(st)
    requires AddressOf(s, st, g) == Some((s1, a)) && InRange(s1.mem, a, Width(st))
    requires Mapped(RdField(ld), Mode(t1)) && t1.mem == Put(s1, a, Width(st), Reg(s1, RdField(st))).mem && t1.be == s1.be
    ensures LoadOrStore(s, st, g) == (Put(s1, a, Width(st), Reg(s1, RdField(st))), SUCCESSFULLY_DECODED)
    ensures forall t :: AddressOf(t, ld, g) == Some((t1, a)) ==>
      Reg(LoadOrStore(t, ld, g).0, RdField(ld)) == Reg(s1, RdField(st)) % Range(Width(st))
  {
    StoreAt(s, st, g, s1, a);
    var n, rd, stored := Width(st), RdField(ld), Reg(s1, RdField(st));
    GotAfterPut(s1, a, n, stored, g(rd));
    GotSame(Put(s1, a, n, stored), t1, a, n, g(rd));
    forall t | AddressOf(t, ld, g) == Some((t1, a))
      ensures Reg(LoadOrStore(t, ld, g).0, rd) == stored % Range(n)
    {
      LoadAt(t, ld, g, t1, a);
      SetThenGet(t1, rd, Got(t1, a, n, g(rd)), rd);
    }
  }

  lemma StoreAt(s: State, ins: Word, g: Garbage, s1: State, a: Word)
    requires Moves(ins, false) && AddressOf(s, ins, g) == Some((s1, a))
    ensures LoadOrStore(s, ins, g) == (Put(s1, a, Width(ins), Reg(s1, RdField(ins))), SUCCESSFULLY_DECODED)
  {
    hide AddressOf, Reg, Store, HalfWord;
  }

  lemma LoadAt(s: State, ins: Word, g: Garbage, s1: State, a: Word)
    requires Moves(ins, true) && AddressOf(s, ins, g) == Some((s1, a))
    ensures LoadOrStore(s, ins, g) == (SetReg(s1, RdField(ins), Got(s1, a, Width(ins), g(RdField(ins)))), SUCCESSFULLY_DECODED)
  {
    hide AddressOf, Reg, LoadWord, LoadHalf, LoadByte, HalfWord, Write, ModeOf;
  }

  /** A pre-indexed store with write-back, then a post-indexed load of the same width with the opposite
      direction and an offset of the same value: the load returns what was stored, cut to the width, the
      base register is as it was, and so is all memory but the bytes stored. */
  lemma StoreThenLoadBack(s: State, st: Word, ld: Word, g: Garbage, v: Word)
    requires Moves(st, false) && Bit24(st) && Bit21(st)
    requires Moves(ld, true) && !Bit24(ld) && !Bit21(ld)
    requires Width(ld) == Width(st) && Bit23(ld) == !Bit23(st) && RnField(ld) == RnField(st)
    requires RdField(st) != RnField(st) && RdField(ld) != RnField(st)
    requires Mapped(RnField(st), Mode(s)) && Mapped(RdField(ld), Mode(s))
    ensures var (s1, code1) := LoadOrStore(s, st, g);
      var (s2, code2) := LoadOrStore(s1, ld, g);
      var a := Offset(Bit23(st), Reg(s, RnField(st)), v);
      OffsetOf(s, st) == OffsetOf(s1, ld) == Some(v) && InRange(s.mem, a, Width(st)) ==>
      code1 == SUCCESSFULLY_DECODED && code2 == SUCCESSFULLY_DECODED
      && Reg(s2, RdField(ld)) == Reg(s, RdField(st)) % Range(Width(st))
      && Reg(s2, RnField(st)) == Reg(s, RnField(st))
      && |s2.mem| == |s.mem|
      && forall i :: 0 <= i < |s.mem| && !(a <= i < a + Width(st)) ==> s2.mem[i] == s.mem[i]
  {
    var rn, rd, up, n := RnField(st), RdField(ld), Bit23(st), Width(st);
    assert rn < 15 && rd < 15 && RdField(st) < 15;
    if OffsetOf(s, st) != Some(v) {
      return;
    }
    hide LoadOrStore, OffsetOf, Offset, Width, Moves, Put, Got, Bit23, Bit24, Bit21, RnField, RdField, SetReg, Reg, ModeOf, Mapped;
    var base := Reg(s, rn);
    var a := Offset(up, base, v);
    StoreEffect(s, st, g, v);
    SetThenGet(s, rn, a, rn);
    SetThenGet(s, rn, a, RdField(st));
    var moved := SetReg(s, rn, a);
    SetRegKeeps(s, rn, a);
    var stored := Reg(s, RdField(st));
    var s1 := Put(moved, a, n, stored);
    PutKeeps(moved, a, n, stored);
    if OffsetOf(s1, ld) != Some(v) || !InRange(s.mem, a, n) {
      return;
    }
    GotAfterPut(moved, a, n, stored, g(rd));
    SameRegisters(moved, s1, rn, Mode(s));
    LoadEffect(s1, ld, g, v);
    OffsetsCancel(up, base, v);
    var back := SetReg(s1, rn, base);
    SetRegKeeps(s1, rn, base);
    SetThenGet(s1, rn, base, rn);
    GotSame(s1, back, a, n, g(rd));
    var got := Got(back, a, n, g(rd));
    SetThenGet(back, rd, got, rd);
    SetThenGet(back, rd, got, rn);
    SetRegKeeps(back, rd, got);
  }

  lemma PutKeeps(s: State, a: Word, n: nat, v: Word)
    ensures Put(s, a, n, v).regs == s.regs && Put(s, a, n, v).be == s.be && |Put(s, a, n, v).mem| == |s.mem|
  {
  }

  lemma GotSame(s: State, t: State, a: Word, n: nat, held: Word)
    requires s.mem == t.mem && s.be == t.be
    ensures Got(s, a, n, held) == Got(t, a, n, held)
  {
  }
}
