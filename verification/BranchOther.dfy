/** arm_branch_other.c: B and BL, SWI, and MRS. */
module BranchOther {
  import opened Bits
  import opened Decode
  import opened Registers
  import opened Core

  /** The byte offset encoded in a branch: the 24-bit field extended to 30 bits and shifted left by two. */
  function BranchOffset(ins: Word): Word {
    var field := Low24(ins);
    Lsl(if Bit23(ins) then Orr(field, 0x3F00_0000) else field, 2)
  }

  /** arm_branch: only bits 27 and 25 are tested. */
  function Branch(s: State, ins: Word): (State, int) {
    if !(Class(ins) / 4 == 1 && Class(ins) % 2 == 1) then (s, UNDEFINED_INSTRUCTION)
    else
      var pc := Reg(s, 15);
      var s1 := if Bit24(ins) then SetReg(s, 14, Wrap(pc - 4)) else s;
      (SetReg(s1, 15, Wrap(pc + BranchOffset(ins))), SUCCESSFULLY_DECODED)
  }

  /** arm_coprocessor_others_swi. */
  function SoftwareInterrupt(ins: Word): int {
    if ins / 0x100_0000 % 16 == 15 then SOFTWARE_INTERRUPT else UNDEFINED_INSTRUCTION
  }

  /** arm_miscellaneous: only bit 24 is tested. */
  function Miscellaneous(s: State, ins: Word): (State, int) {
    if !Bit24(ins) then (s, UNDEFINED_INSTRUCTION)
    else if !Bit22(ins) then (SetReg(s, RdField(ins), StatusWord(s.regs.cpsr)), SUCCESSFULLY_DECODED)
    else
      var (s1, has) := AskSpsr(s);
      if has then (SetReg(s1, RdField(ins), StatusWord(Spsr(s1))), SUCCESSFULLY_DECODED)
      else (s1, UNDEFINED_INSTRUCTION)
  }

  /** A status register as a general register holds it. */
  function StatusWord(status: bv32): Word {
    status as Word
  }

  method ArmBranchOffset(ins: Word) returns (offset: Word)
    ensures offset == BranchOffset(ins)
  {
    hide Lsl, Orr;
    offset := Low24(ins);
    if Bit23(ins) {
      offset := Orr(offset, 0x3F00_0000);
    }
    offset := Lsl(offset, 2);
  }

  method ArmBranch(p: ArmCore, ins: Word) returns (code: int)
    requires p.Valid()
    modifies p.Repr()
    ensures (p.Abs(), code) == Branch(old(p.Abs()), ins)
  {
    hide BranchOffset, Class, Wrap;
    if !(Class(ins) / 4 == 1 && Class(ins) % 2 == 1) {
      return UNDEFINED_INSTRUCTION;
    }
    var offset := ArmBranchOffset(ins);
    var pc: Word := p.ReadRegister(15);
    if Bit24(ins) {
      p.WriteRegister(14, Wrap(pc - 4));
    }
    p.WriteRegister(15, Wrap(pc + offset));
    return SUCCESSFULLY_DECODED;
  }

  method ArmMiscellaneous(p: ArmCore, ins: Word) returns (code: int)
    requires p.Valid()
    modifies p.Repr()
    ensures (p.Abs(), code) == Miscellaneous(old(p.Abs()), ins)
  {
    hide StatusWord;
    if !Bit24(ins) {
      return UNDEFINED_INSTRUCTION;
    }
    if !Bit22(ins) {
      var cpsr := p.ReadCpsr();
      p.WriteRegister(RdField(ins), StatusWord(cpsr));
      return SUCCESSFULLY_DECODED;
    }
    var has := p.CurrentModeHasSpsr();
    if !has {
      return UNDEFINED_INSTRUCTION;
    }
    var spsr := p.ReadSpsr();
    p.WriteRegister(RdField(ins), StatusWord(spsr));
    return SUCCESSFULLY_DECODED;
  }

  // ----- branch targets -----

  /** The signed value of a 24-bit field. */
  function SignExtend24(field: Word): int
    requires field < 0x100_0000
  {
    if field < 0x80_0000 then field else field - 0x100_0000
  }

  lemma OffsetIsSigned(ins: Word)
    ensures BranchOffset(ins) == Wrap(4 * SignExtend24(Low24(ins)))
  {
    hide Orr;
    var field := Low24(ins);
    SignBit(ins);
    ExtensionAdds(field);
    assert forall x: Word :: Lsl(x, 2) == Wrap(4 * x) by { assert Pow2(2) == 4; }
  }

  lemma SignBit(ins: Word)
    ensures Bit23(ins) <==> Low24(ins) >= 0x80_0000
  {
    var q, field := ins / 0x100_0000, ins % 0x100_0000;
    assert ins == 0x100_0000 * q + field;
    assert ins / 0x80_0000 == 2 * q + field / 0x80_0000;
  }

  lemma ExtensionAdds(field: Word)
    requires field < 0x100_0000
    ensures Orr(field, 0x3F00_0000) == field + 0x3F00_0000
  {
    assert field < Pow2(24) && 0x3F00_0000 % Pow2(24) == 0 by { Pow2Values(); }
    OrDisjoint(field, 0x3F00_0000, 24);
  }

  /** The field that encodes a displacement. */
  function FieldFor(displacement: int): Word
    requires displacement % 4 == 0 && -0x200_0000 <= displacement < 0x200_0000
  {
    displacement / 4 % 0x100_0000
  }

  /** Each word-aligned displacement of section A4.1.5 of ARM DDI 0100 has exactly one field. */
  lemma OneFieldPerDisplacement(displacement: int, field: Word)
    requires displacement % 4 == 0 && -0x200_0000 <= displacement < 0x200_0000 && field < 0x100_0000
    ensures 4 * SignExtend24(field) == displacement <==> field == FieldFor(displacement)
  {
  }

  /** A branch taken at word-aligned A goes to A + 8 plus four times its signed field, and BL links A + 4. */
  lemma BranchGoesToTarget(s: State, ins: Word, a: Word)
    requires Class(ins) == 5 && a % 4 == 0 && Pc(s) == Wrap(a + 4)
    ensures var (t, code) := Branch(s, ins);
      code == SUCCESSFULLY_DECODED
      && Pc(t) == Wrap(a + 8 + 4 * SignExtend24(Low24(ins)))
      && (Bit24(ins) && Mapped(14, Mode(s)) ==> Reg(t, 14) == Wrap(a + 4))
      && t.mem == s.mem && t.regs.cpsr == s.regs.cpsr && t.be == s.be && t.cycles == s.cycles
  {
    hide BranchOffset, ModeOf, SignExtend24, PcView, Low24, Bit24;
    AlignedPcView(a);
    OffsetIsSigned(ins);
    WrapWrap(4 * SignExtend24(Low24(ins)), PcView(Pc(s)));
    WrapWrap(a + 8, 4 * SignExtend24(Low24(ins)));
    WrapWrap(a + 8, -4);
    if Mapped(14, Mode(s)) {
      SlotsDiffer(14, 15, Mode(s));
    }
  }
}
