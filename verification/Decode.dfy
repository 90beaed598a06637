/** The fields of an instruction word: get_bits and get_bit at the constant positions the decoders use. */
module Decode {
  import opened Bits
  import opened Shifter

  function Cond(ins: Word): nat { ins / 0x1000_0000 }

  /** Bits 27 to 25. */
  function Class(ins: Word): nat { ins / 0x200_0000 % 8 }

  /** Bits 24 to 21. */
  function Opcode(ins: Word): nat { ins / 0x20_0000 % 16 }

  /** Bits 19 to 16. */
  function RnField(ins: Word): (r: Byte)
    ensures r < 16
  {
    ins / 0x1_0000 % 16
  }

  /** Bits 15 to 12. */
  function RdField(ins: Word): (r: Byte)
    ensures r < 16
  {
    ins / 0x1000 % 16
  }

  /** Bits 11 to 8: a register, or the rotation of an immediate. */
  function RsField(ins: Word): (r: Byte)
    ensures r < 16
  {
    ins / 0x100 % 16
  }

  /** Bits 3 to 0. */
  function RmField(ins: Word): (r: Byte)
    ensures r < 16
  {
    ins % 16
  }

  function Low8(ins: Word): Byte { ins % 0x100 }

  function Low12(ins: Word): Word { ins % 0x1000 }

  function Low16(ins: Word): Half { ins % 0x1_0000 }

  function Low24(ins: Word): (f: Word)
    ensures f < 0x100_0000
  {
    ins % 0x100_0000
  }

  /** Bits 11 to 7. */
  function ShiftImm(ins: Word): (n: nat)
    ensures n < 32
  {
    ins / 0x80 % 32
  }

  /** Bits 6 and 5. */
  function ShiftType(ins: Word): ShiftKind {
    var t := ins / 0x20 % 4;
    if t == 0 then LSL else if t == 1 then LSR else if t == 2 then ASR else ROR
  }

  predicate Bit24(ins: Word) { ins / 0x100_0000 % 2 == 1 }

  predicate Bit23(ins: Word) { ins / 0x80_0000 % 2 == 1 }

  predicate Bit22(ins: Word) { ins / 0x40_0000 % 2 == 1 }

  predicate Bit21(ins: Word) { ins / 0x20_0000 % 2 == 1 }

  predicate Bit20(ins: Word) { ins / 0x10_0000 % 2 == 1 }

  predicate Bit7(ins: Word) { ins / 0x80 % 2 == 1 }

  predicate Bit6(ins: Word) { ins / 0x40 % 2 == 1 }

  predicate Bit5(ins: Word) { ins / 0x20 % 2 == 1 }

  predicate Bit4(ins: Word) { ins / 0x10 % 2 == 1 }
}
