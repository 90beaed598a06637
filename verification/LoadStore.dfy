/** arm_load_store.c, single transfers: LDR, STR, LDRB, STRB, LDRH and STRH. */
module LoadStore {
  import opened Bits
  import opened Decode
  import opened Registers
  import opened Memory
  import opened Shifter
  import opened Core
  import DataProcessing

  /** check_U: the offset is added or subtracted. */
  function Offset(up: bool, rn: Word, offset: Word): Word {
    if up then Wrap(rn + offset) else Wrap(rn - offset)
  }

  /** The state after write-back, and the address of the transfer. */
  type Addressed = (State, Word)

  /** Offset, pre-indexed and post-indexed addressing; nothing else. */
  function Index(s: State, p: bool, w: bool, up: bool, rn: Byte, offset: Word): Option<Addressed> {
    var indexed := Offset(up, Reg(s, rn), offset);
    if p && !w then Some((s, indexed))
    else if p then Some((SetReg(s, rn, indexed), indexed))
    else if !w then Some((SetReg(s, rn, indexed), Reg(s, rn)))
    else None
  }

  predicate HalfWord(ins: Word) {
    Class(ins) == 0 && Bit7(ins) && Bit4(ins)
  }

  /** The offset of each encoding, or none when the word is none of them. */
  function OffsetOf(s: State, ins: Word): Option<Word> {
    if Class(ins) == 2 then Some(Low12(ins))
    else if Class(ins) == 3 && ins / 0x10 % 0x100 == 0 then Some(Reg(s, RmField(ins)))
    else if Class(ins) == 3 && !Bit4(ins) then
      Some(ShiftOperation(ShiftType(ins), Reg(s, RmField(ins)), ShiftImm(ins), DataProcessing.FlagC(s.regs.cpsr)))
    else if HalfWord(ins) then
      Some(if Bit22(ins) then Orr(RsField(ins) * 0x10, RmField(ins)) else Reg(s, RmField(ins)))
    else None
  }

  /** Only these encodings refuse P = 0 with W = 1; the others go on with an address never set. */
  predicate RefusesUserAccess(ins: Word) {
    Class(ins) == 2 || (Class(ins) == 3 && ins / 0x10 % 0x100 == 0)
  }

  function AddressOf(s: State, ins: Word, g: Garbage): Option<Addressed> {
    var offset := OffsetOf(s, ins);
    var indexed := if offset.Some? then Index(s, Bit24(ins), Bit21(ins), Bit23(ins), RnField(ins), offset.value) else None;
    if indexed.None? && !RefusesUserAccess(ins) then Some((s, g(ADDRESS))) else indexed
  }

  function TransferHalf(s: State, ins: Word, a: Word, g: Garbage): (State, int) {
    var rd := RdField(ins);
    if Bit6(ins) || !Bit5(ins) then (s, UNDEFINED_INSTRUCTION)
    else if Bit20(ins) then
      (SetReg(s, rd, OrElse(LoadHalf(s.mem, a, s.be), g(rd) % 0x1_0000)), SUCCESSFULLY_DECODED)
    else
      (s.(mem := Store(s.mem, a, 2, Reg(s, rd) % 0x1_0000, s.be)), SUCCESSFULLY_DECODED)
  }

  function Transfer(s: State, ins: Word, a: Word, g: Garbage): State {
    var rd := RdField(ins);
    if Bit20(ins) then
      SetReg(s, rd, if Bit22(ins) then OrElse(LoadByte(s.mem, a), g(rd) % 0x100) else WordAt(s, a, g(rd)))
    else if Bit22(ins) then
      s.(mem := Store(s.mem, a, 1, Reg(s, rd) % 0x100, s.be))
    else
      SetWord(s, a, Reg(s, rd))
  }

  /** arm_load_store. */
  function LoadOrStore(s: State, ins: Word, g: Garbage): (State, int) {
    match AddressOf(s, ins, g)
    case None => (s, UNDEFINED_INSTRUCTION)
    case Some((s1, a)) =>
      if HalfWord(ins) then TransferHalf(s1, ins, a, g) else (Transfer(s1, ins, a, g), SUCCESSFULLY_DECODED)
  }

  // ----- the code -----

  method CheckU(up: bool, rn: Word, offset: Word) returns (address: Word)
    ensures address == Offset(up, rn, offset)
  {
    if up {
      address := Wrap(rn + offset);
    } else {
      address := Wrap(rn - offset);
    }
  }

  /** process_load_store_instruction.  `rn` is the value of the base register on entry; the address keeps
      what it held when the encoding is refused. */
  method ProcessInstruction(p: ArmCore, pre: bool, w: bool, up: bool, rnRegister: Byte, rn: Word, value: Word, held: Word)
    returns (code: int, address: Word)
    requires p.Valid() && rn == Reg(p.Abs(), rnRegister)
    modifies p.Repr()
    ensures match Index(old(p.Abs()), pre, w, up, rnRegister, value)
            case Some((s, a)) => code == SUCCESSFULLY_DECODED && p.Abs() == s && address == a
            case None => code == UNDEFINED_INSTRUCTION && p.Abs() == old(p.Abs()) && address == held
  {
    address := held;
    code := SUCCESSFULLY_DECODED;
    if pre && !w {
      address := CheckU(up, rn, value);
    } else if pre && w {
      address := CheckU(up, rn, value);
      p.WriteRegister(rnRegister, address);
    } else if !pre && !w {
      address := rn;
      var updated := CheckU(up, rn, value);
      p.WriteRegister(rnRegister, updated);
    } else {
      code := UNDEFINED_INSTRUCTION;
    }
  }

  /** The addressing part of arm_load_store. */
  method ArmAddress(p: ArmCore, ins: Word, g: Garbage) returns (code: int, address: Word)
    requires p.Valid()
    modifies p.Repr()
    ensures match AddressOf(old(p.Abs()), ins, g)
            case Some((s, a)) => code == SUCCESSFULLY_DECODED && p.Abs() == s && address == a
            case None => code == UNDEFINED_INSTRUCTION && p.Abs() == old(p.Abs())
  {
    hide ShiftOperation, ShiftType, ShiftImm, Orr, Offset, DataProcessing.FlagC, RnField, RmField, RsField, Low12, Bit21, Bit22,
      Bit23, Bit24;
    var rnRegister := RnField(ins);
    var rn := p.ReadRegister(rnRegister);
    var rm := p.ReadRegister(RmField(ins));
    var pre, w, up := Bit24(ins), Bit21(ins), Bit23(ins);
    code, address := SUCCESSFULLY_DECODED, g(ADDRESS);
    if Class(ins) == 2 {
      code, address := ProcessInstruction(p, pre, w, up, rnRegister, rn, Low12(ins), address);
    } else if Class(ins) == 3 && ins / 0x10 % 0x100 == 0 {
      code, address := ProcessInstruction(p, pre, w, up, rnRegister, rn, rm, address);
    } else if Class(ins) == 3 && !Bit4(ins) {
      var cpsr := p.ReadCpsr();
      var index := ShiftOperation(ShiftType(ins), rm, ShiftImm(ins), DataProcessing.FlagC(cpsr));
      if pre && !w {
        address := CheckU(up, rn, index);
      } else if pre && w {
        address := CheckU(up, rn, index);
        p.WriteRegister(rnRegister, address);
      } else if !pre && !w {
        address := rn;
        rn := CheckU(up, rn, index);
        p.WriteRegister(rnRegister, rn);
      }
    } else if Class(ins) == 0 && Bit7(ins) && Bit4(ins) {
      var immediate := Bit22(ins);
      var offset8 := Orr(RsField(ins) * 0x10, RmField(ins));
      var offset := if immediate then offset8 else rm;
      if pre {
        address := CheckU(up, rn, offset);
        if w {
          p.WriteRegister(rnRegister, address);
        }
      } else if !w {
        address := rn;
        rn := CheckU(up, rn, offset);
        p.WriteRegister(rnRegister, rn);
      }
    }
  }

  method ArmLoadStore(p: ArmCore, ins: Word, g: Garbage) returns (code: int)
    requires p.Valid()
    modifies p.Repr()
    ensures (p.Abs(), code) == LoadOrStore(old(p.Abs()), ins, g)
  {
    hide AddressOf;
    var address;
    code, address := ArmAddress(p, ins, g);
    if code != SUCCESSFULLY_DECODED {
      return;
    }
    var rd := RdField(ins);
    if HalfWord(ins) {
      if !Bit20(ins) && !Bit6(ins) && Bit5(ins) {
        var half: Word := p.ReadRegister(rd);
        p.WriteHalf(address, half % 0x1_0000);
      } else if Bit20(ins) && !Bit6(ins) && Bit5(ins) {
        var half := p.ReadHalf(address, g(rd) % 0x1_0000);
        p.WriteRegister(rd, half);
      } else {
        code := UNDEFINED_INSTRUCTION;
      }
    } else if Bit20(ins) {
      if Bit22(ins) {
        var octet := p.ReadByte(address, g(rd) % 0x100);
        p.WriteRegister(rd, octet);
      } else {
        var word := p.ReadWord(address, g(rd));
        p.WriteRegister(rd, word);
      }
    } else {
      var word: Word := p.ReadRegister(rd);
      if Bit22(ins) {
        p.WriteByte(address, word % 0x100);
      } else {
        p.WriteWord(address, word);
      }
    }
  }
}
