/** One step from the fetch on: the state in which an instruction is decoded, and what it sees of the registers. */
module Steps {
  import opened Bits
  import opened Decode
  import opened Registers
  import opened Memory
  import opened Core
  import opened Instruction

  /** The word fetched next is `ins`, and its condition holds. */
  predicate Ready(s: State, ins: Word, g: Garbage) {
    WordAt(s, Pc(s), g(FETCHED)) == ins && Passes(s.regs.cpsr, ins / 0x1000_0000)
  }

  /** The next instruction is at word-aligned a, lies in memory, is `ins`, and its condition holds. */
  predicate At(s: State, a: Word, ins: Word) {
    a % 4 == 0 && Pc(s) == a && LoadWord(s.mem, a, s.be) == Some(ins) && Passes(s.regs.cpsr, ins / 0x1000_0000)
  }

  /** The state after a fetch. */
  function Advanced(s: State): State {
    SetReg(s, 15, Wrap(Pc(s) + 4)).(cycles := Wrap(s.cycles + 1))
  }

  lemma AdvancedKeeps(s: State)
    ensures var t := Advanced(s);
      t.mem == s.mem && t.be == s.be && t.regs.cpsr == s.regs.cpsr && t.regs.status == s.regs.status
      && Pc(t) == Wrap(Pc(s) + 4) && Reg(t, 14) == Reg(s, 14)
  {
    hide ModeOf, PcView;
    var moved := SetReg(s, 15, Wrap(Pc(s) + 4));
    SetPc(s, Wrap(Pc(s) + 4));
    SetThenGet(s, 15, Wrap(Pc(s) + 4), 14);
    assert Advanced(s).regs == moved.regs;
  }

  lemma SetPc(s: State, v: Word)
    ensures Pc(SetReg(s, 15, v)) == v
    ensures SetReg(s, 15, v).mem == s.mem && SetReg(s, 15, v).regs.cpsr == s.regs.cpsr
  {
  }

  /** What the instruction at the PC sees of a register, in a mode's view: the PC is 8 further on, with bit 1 clear. */
  function SeenIn(s: State, r: Byte, view: bv8): Word {
    if r == 15 then
      var p := Wrap(Pc(s) + 8);
      if p / 2 % 2 == 1 then p - 2 else p
    else Read(s.regs, r, view)
  }

  function Seen(s: State, r: Byte): Word {
    SeenIn(s, r, Mode(s))
  }

  lemma SeenBelow(s: State, r: Byte)
    requires r < 15
    ensures Seen(s, r) == Reg(s, r)
  {
  }

  /** An instruction reads these registers; the fetch itself only moves the PC and the cycle count. */
  lemma AdvancedSees(s: State, r: Byte, view: bv8)
    requires r < 16
    ensures var u := Advanced(s);
      RegIn(u, r, view) == SeenIn(s, r, view) && Reg(u, r) == Seen(s, r) && Mode(u) == Mode(s)
      && (r == 15 ==> Read(u.regs, r, view) == Wrap(Pc(s) + 4)) && (r < 15 ==> Read(u.regs, r, view) == Read(s.regs, r, view))
      && u.mem == s.mem && u.be == s.be && u.regs.cpsr == s.regs.cpsr && u.regs.status == s.regs.status
      && u.cycles == Wrap(s.cycles + 1)
  {
    hide ModeOf, Wrap, ModeInd;
    WrapWrap(Pc(s) + 4, 4);
    PcSlot(r, view);
    PcSlot(r, Mode(s));
  }

  lemma PcSlot(r: Byte, mode: bv8)
    requires r < 16
    ensures ModeInd(15, mode) == 0 && (r < 15 && Mapped(r, mode) ==> Slot(r, mode) != 15)
  {
  }

  lemma ExecuteReady(s: State, ins: Word, g: Garbage)
    requires Ready(s, ins, g)
    ensures Execute(s, g) == Dispatch(Advanced(s), ins, g)
  {
    hide Dispatch, Passes, WordAt, Write, Read, ModeOf;
    SetRegKeeps(s, 15, Wrap(Pc(s) + 4));
  }

  lemma AtIsReady(s: State, a: Word, ins: Word, g: Garbage)
    requires At(s, a, ins)
    ensures Ready(s, ins, g)
  {
    hide Passes, LoadWord;
  }

  lemma ExecuteAt(s: State, a: Word, ins: Word, g: Garbage)
    requires At(s, a, ins)
    ensures Execute(s, g) == Dispatch(Advanced(s), ins, g)
  {
    hide Dispatch, Execute, Ready, At;
    AtIsReady(s, a, ins, g);
    ExecuteReady(s, ins, g);
  }
}
