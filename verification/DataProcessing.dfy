/** arm_data_processing.c: the sixteen arithmetic and logic operations, their flags, and MSR immediate. */
module DataProcessing {
  import opened Bits
  import opened Decode
  import opened Registers
  import opened Shifter
  import opened Core

  const AND := 0
  const EOR := 1
  const SUB := 2
  const RSB := 3
  const ADD := 4
  const ADC := 5
  const SBC := 6
  const RSC := 7
  const TST := 8
  const TEQ := 9
  const CMP := 10
  const CMN := 11
  const ORR := 12
  const MOV := 13
  const BIC := 14
  const MVN := 15

  const UNALLOC_MASK: bv32 := 0x0FFF_FF00
  const USER_MASK: bv32 := 0xF000_0000
  const PRIV_MASK: bv32 := 0x0000_000F
  const STATE_MASK: bv32 := 0x0000_0020

  // ----- condition flags of a status register -----

  predicate FlagN(cpsr: bv32) { (cpsr >> 31) & 1 == 1 }

  predicate FlagZ(cpsr: bv32) { (cpsr >> 30) & 1 == 1 }

  predicate FlagC(cpsr: bv32) { (cpsr >> 29) & 1 == 1 }

  predicate FlagV(cpsr: bv32) { (cpsr >> 28) & 1 == 1 }

  function WithFlags(cpsr: bv32, n: bool, z: bool, c: bool, v: bool): bv32 {
    (cpsr & 0x0FFF_FFFF) | (if n then 0x8000_0000 else 0) | (if z then 0x4000_0000 else 0)
    | (if c then 0x2000_0000 else 0) | (if v then 0x1000_0000 else 0)
  }

  lemma FlagsOf(cpsr: bv32, n: bool, z: bool, c: bool, v: bool)
    ensures var r := WithFlags(cpsr, n, z, c, v);
      FlagN(r) == n && FlagZ(r) == z && FlagC(r) == c && FlagV(r) == v && r & 0x0FFF_FFFF == cpsr & 0x0FFF_FFFF
  {
  }

  // ----- the arithmetic and logic unit -----

  predicate Overflows(i: int) {
    !(-0x8000_0000 <= i < 0x8000_0000)
  }

  function Unit(b: bool): int {
    if b then 1 else 0
  }

  /** What an operation yields: its value, the C and V flags it would set, and whether it writes Rd. */
  datatype AluResult = AluResult(value: Word, carry: bool, overflow: bool, writes: bool)

  function Plus(x: Word, y: Word): AluResult {
    var a, b := Signed(x), Signed(y);
    AluResult(Wrap(x + y), Overflows(a + b) || b < 0, Overflows(a + b), true)
  }

  function Minus(x: Word, y: Word): AluResult {
    var a, b := Signed(x), Signed(y);
    AluResult(Wrap(x - y), Overflows(a - b) || b < 0, Overflows(a - b), true)
  }

  /** ADC: unless x + y overflows, what is added in the end is the new carry and not the old one. */
  function PlusCarry(x: Word, y: Word, c: bool): AluResult {
    var a, b := Signed(x), Signed(y);
    var first := Overflows(a + b);
    var carry := first || b < 0 || Overflows(a + b + Unit(c));
    AluResult(Wrap(x + y + Unit(if first then c else carry)), carry,
              first || Overflows(a + b + Unit(carry)), true)
  }

  /** SBC and RSC: unless x - y overflows, the borrow taken in the end is the new one. */
  function MinusCarry(x: Word, y: Word, c: bool): AluResult {
    var a, b := Signed(x), Signed(y);
    var first := Overflows(a - b);
    var carry := first || b < 0 || Overflows(a - b - Unit(!c));
    AluResult(Wrap(x - y - Unit(if first then !c else !carry)), carry,
              first || Overflows(a - b - Unit(!carry)), true)
  }

  /** The operation `op` on Rn and the shifter operand, given the flags C and V. */
  function Alu(op: nat, rn: Word, operand: Word, shifterCarry: bool, c: bool, v: bool): AluResult {
    if op == AND then AluResult(And(rn, operand), shifterCarry, v, true)
    else if op == EOR then AluResult(Eor(rn, operand), shifterCarry, v, true)
    else if op == SUB then Minus(rn, operand)
    else if op == RSB then Minus(operand, rn)
    else if op == ADD then Plus(rn, operand)
    else if op == ADC then PlusCarry(rn, operand, c)
    else if op == SBC then MinusCarry(rn, operand, c)
    else if op == RSC then MinusCarry(operand, rn, c)
    else if op == TST then AluResult(And(rn, operand), shifterCarry, v, false)
    else if op == TEQ then AluResult(Eor(rn, operand), shifterCarry, v, false)
    else if op == CMP then Minus(rn, operand).(writes := false)
    else if op == CMN then Plus(rn, operand).(writes := false)
    else if op == ORR then AluResult(Orr(rn, operand), shifterCarry, v, true)
    else if op == MOV then AluResult(operand, shifterCarry, v, true)
    else if op == BIC then AluResult(And(rn, Not(operand)), shifterCarry, v, true)
    else AluResult(Not(operand), shifterCarry, v, true)
  }

  /** The end of data_processing: the result and the flags are written. */
  function WriteBack(s: State, setFlags: bool, rd: Byte, cpsr: bv32, r: AluResult): (State, int) {
    var s1 := if r.writes then SetReg(s, rd, r.value) else s;
    if setFlags && rd == 15 then
      var (s2, has) := RestoreCpsr(s1);
      (s2, if has then SUCCESSFULLY_DECODED else UNDEFINED_INSTRUCTION)
    else if setFlags then
      (SetCpsr(s1, WithFlags(cpsr, r.value >= 0x8000_0000, r.value == 0, r.carry, r.overflow)), SUCCESSFULLY_DECODED)
    else
      (s1, SUCCESSFULLY_DECODED)
  }

  /** data_processing. */
  function Process(s: State, setFlags: bool, op: nat, rd: Byte, rn: Word, operand: Word, shifterCarry: bool): (State, int) {
    var cpsr := s.regs.cpsr;
    var r := Alu(op, rn, operand, shifterCarry, FlagC(cpsr), FlagV(cpsr));
    WriteBack(s, setFlags, rd, cpsr, r)
  }

  /** arm_data_processing_shift. */
  function ProcessShift(s: State, ins: Word): (State, int) {
    var c := FlagC(s.regs.cpsr);
    var rn, rd, rm, rs := RnField(ins), RdField(ins), RmField(ins), RsField(ins);
    if !Bit4(ins) then
      // r15 as Rm or as Rn makes the PC, 4 further on, the value to be shifted
      var rmValue := if rm == 15 || rn == 15 then Wrap(Reg(s, 15) + 4) else Reg(s, rm);
      var (operand, carry) := ImmediateShift(ShiftType(ins), rmValue, ShiftImm(ins), c);
      Process(s, Bit20(ins), Opcode(ins), rd, Reg(s, rn), operand, carry)
    else if Bit7(ins) || rd == 15 || rm == 15 || rn == 15 || rs == 15 then
      (s, UNDEFINED_INSTRUCTION)
    else
      var (operand, carry) := RegisterShift(ShiftType(ins), Reg(s, rm), Reg(s, rs) % 0x100, c);
      Process(s, Bit20(ins), Opcode(ins), rd, Reg(s, rn), operand, carry)
  }

  /** The byte of an immediate, rotated right by twice its rotation field. */
  function RotatedImmediate(ins: Word): Word {
    Ror(Low8(ins), RsField(ins) * 2)
  }

  /** arm_data_processing_immediate. */
  function ProcessImmediate(s: State, ins: Word): (State, int) {
    var operand := RotatedImmediate(ins);
    var carry := if RsField(ins) == 0 then FlagC(s.regs.cpsr) else operand >= 0x8000_0000;
    Process(s, Bit20(ins), Opcode(ins), RdField(ins), Reg(s, RnField(ins)), operand, carry)
  }

  /** The bytes of a status register selected by the field mask. */
  function ByteMask(field: Byte): bv32 {
    (if field % 2 == 1 then 0x0000_00FF else 0) | (if field / 2 % 2 == 1 then 0x0000_FF00 else 0)
    | (if field / 4 % 2 == 1 then 0x00FF_0000 else 0) | (if field / 8 % 2 == 1 then 0xFF00_0000 else 0)
  }

  /** The bits that a mask does not select. */
  function Unselected(before: bv32, mask: bv32): bv32 {
    before & !mask
  }

  /** Replace the bits of `before` selected by `mask`. */
  function Merge(before: bv32, operand: bv32, mask: bv32): bv32 {
    Unselected(before, mask) | (operand & mask)
  }

  function MsrOperand(ins: Word): bv32 {
    RotatedImmediate(ins) as bv32
  }

  /** The bits of the CPSR that MSR may write. */
  function CpsrMask(privileged: bool): bv32 {
    if privileged then USER_MASK | PRIV_MASK else USER_MASK
  }

  /** What MSR makes of the CPSR. */
  function MsrValue(before: bv32, operand: bv32, bytes: bv32, privileged: bool): bv32 {
    Merge(before, operand, bytes & CpsrMask(privileged))
  }

  predicate NamesState(operand: bv32) {
    operand & STATE_MASK != 0
  }

  function MsrCpsr(s: State, operand: bv32, bytes: bv32): (State, int) {
    if Privileged(Mode(s)) && NamesState(operand) then
      (s, UNDEFINED_INSTRUCTION)
    else
      (SetCpsr(s, MsrValue(s.regs.cpsr, operand, bytes, Privileged(Mode(s)))), SUCCESSFULLY_DECODED)
  }

  /** The bits of an SPSR that MSR may write. */
  function SpsrMask(bytes: bv32): bv32 {
    bytes & (USER_MASK | PRIV_MASK | STATE_MASK)
  }

  function MsrSpsr(s: State, operand: bv32, bytes: bv32): (State, int) {
    var (s1, has) := AskSpsr(s);
    if has then
      (SetSpsr(s1, Merge(Spsr(s1), operand, SpsrMask(bytes))), SUCCESSFULLY_DECODED)
    else
      (s1, UNDEFINED_INSTRUCTION)
  }

  predicate Unallocated(operand: bv32) {
    operand & UNALLOC_MASK != 0
  }

  /** arm_msr_immediate. */
  function Msr(s: State, ins: Word): (State, int) {
    var operand := MsrOperand(ins);
    if Unallocated(operand) then (s, UNDEFINED_INSTRUCTION)
    else if !Bit22(ins) then MsrCpsr(s, operand, ByteMask(RnField(ins)))
    else MsrSpsr(s, operand, ByteMask(RnField(ins)))
  }

  /** arm_data_processing_immediate_msr. */
  function ProcessImmediateOrMsr(s: State, ins: Word): (State, int) {
    if Bit24(ins) && !Bit23(ins) && Bit21(ins) && !Bit20(ins) then Msr(s, ins) else ProcessImmediate(s, ins)
  }

  // ----- the code -----

  /** __builtin_add_overflow and __builtin_sub_overflow store the wrapped result. */
  method AddOverflow(a: int, b: int) returns (overflow: bool, result: int)
    requires !Overflows(a) && !Overflows(b)
    ensures overflow == Overflows(a + b)
    ensures !Overflows(result) && Wrap(result) == Wrap(a + b) && (!overflow ==> result == a + b)
  {
    overflow, result := Overflows(a + b), Signed(Wrap(a + b));
  }

  method SubOverflow(a: int, b: int) returns (overflow: bool, result: int)
    requires !Overflows(a) && !Overflows(b)
    ensures overflow == Overflows(a - b)
    ensures !Overflows(result) && Wrap(result) == Wrap(a - b) && (!overflow ==> result == a - b)
  {
    overflow, result := Overflows(a - b), Signed(Wrap(a - b));
  }

  method AddCarry(a: int, b: int) returns (carry: bool, result: int)
    requires !Overflows(a) && !Overflows(b)
    ensures carry == (Overflows(a + b) || b < 0)
    ensures !Overflows(result) && Wrap(result) == Wrap(a + b) && (!Overflows(a + b) ==> result == a + b)
  {
    var overflow;
    overflow, result := AddOverflow(a, b);
    carry := overflow || result < a;
  }

  method SubCarry(a: int, b: int) returns (carry: bool, result: int)
    requires !Overflows(a) && !Overflows(b)
    ensures carry == (Overflows(a - b) || b < 0)
    ensures !Overflows(result) && Wrap(result) == Wrap(a - b) && (!Overflows(a - b) ==> result == a - b)
  {
    var overflow;
    overflow, result := SubOverflow(a, b);
    carry := overflow || result > a;
  }

  lemma WrapSigned(x: Word)
    ensures !Overflows(Signed(x)) && Wrap(Signed(x)) == x
  {
  }

  lemma WrapPlus(i: int, j: int, u: int)
    requires Wrap(i) == Wrap(j)
    ensures Wrap(i + u) == Wrap(j + u) && Wrap(i - u) == Wrap(j - u)
  {
    hide Wrap;
    WrapWrap(i, u);
    WrapWrap(j, u);
    WrapWrap(i, -u);
    WrapWrap(j, -u);
  }

  lemma WrapSums(x: Word, y: Word)
    ensures Wrap(Signed(x) + Signed(y)) == Wrap(x + y)
    ensures Wrap(Signed(x) - Signed(y)) == Wrap(x - y)
  {
    hide Wrap;
    var j := if x < 0x8000_0000 then 0 else -1;
    var k := if y < 0x8000_0000 then 0 else -1;
    WrapTurns(x + y, j + k);
    WrapTurns(x - y, j - k);
  }

  /** The ADD and CMN cases of data_processing. */
  method AddWithFlags(x: Word, y: Word) returns (value: Word, carry: bool, overflow: bool)
    ensures AluResult(value, carry, overflow, true) == Plus(x, y)
  {
    hide Signed, Wrap, Overflows;
    WrapSigned(x);
    WrapSigned(y);
    WrapSums(x, y);
    var result;
    carry, result := AddCarry(Signed(x), Signed(y));
    overflow, result := AddOverflow(Signed(x), Signed(y));
    value := Wrap(result);
  }

  /** The SUB, RSB and CMP cases. */
  method SubWithFlags(x: Word, y: Word) returns (value: Word, carry: bool, overflow: bool)
    ensures AluResult(value, carry, overflow, true) == Minus(x, y)
  {
    hide Signed, Wrap, Overflows;
    WrapSigned(x);
    WrapSigned(y);
    WrapSums(x, y);
    var result;
    carry, result := SubCarry(Signed(x), Signed(y));
    overflow, result := SubOverflow(Signed(x), Signed(y));
    value := Wrap(result);
  }

  /** The ADC case. */
  method AddWithCarry(x: Word, y: Word, c: bool) returns (value: Word, carry: bool, overflow: bool)
    ensures AluResult(value, carry, overflow, true) == PlusCarry(x, y, c)
  {
    hide Signed, Wrap;
    var a, b := Signed(x), Signed(y);
    var tmp := Signed(Wrap(x + y));
    WrapSigned(x);
    WrapSigned(y);
    WrapSigned(Wrap(x + y));
    WrapPlus(tmp, x + y, Unit(c));
    var result := Signed(Wrap(tmp + Unit(c)));
    WrapSigned(Wrap(tmp + Unit(c)));
    carry, tmp := AddCarry(a, b);
    if !carry {
      carry, result := AddCarry(tmp, Unit(c));
    }
    overflow, tmp := AddOverflow(a, b);
    if !overflow {
      overflow, result := AddOverflow(tmp, Unit(carry));
      WrapSums(x, y);
      WrapPlus(a + b, x + y, Unit(carry));
    }
    value := Wrap(result);
  }

  /** The SBC and RSC cases. */
  method SubWithCarry(x: Word, y: Word, c: bool) returns (value: Word, carry: bool, overflow: bool)
    ensures AluResult(value, carry, overflow, true) == MinusCarry(x, y, c)
  {
    hide Signed, Wrap;
    var a, b := Signed(x), Signed(y);
    var tmp := Signed(Wrap(x - y));
    WrapSigned(x);
    WrapSigned(y);
    WrapSigned(Wrap(x - y));
    WrapPlus(tmp, x - y, Unit(!c));
    var result := Signed(Wrap(tmp - Unit(!c)));
    WrapSigned(Wrap(tmp - Unit(!c)));
    carry, tmp := SubCarry(a, b);
    if !carry {
      carry, result := SubCarry(tmp, Unit(!c));
    }
    overflow, tmp := SubOverflow(a, b);
    if !overflow {
      overflow, result := SubOverflow(tmp, Unit(!carry));
      WrapSums(x, y);
      WrapPlus(a - b, x - y, Unit(!carry));
    }
    value := Wrap(result);
  }

  /** The switch of data_processing. */
  method ArmAlu(op: nat, rn: Word, operand: Word, shifterCarry: bool, c: bool, v: bool) returns (r: AluResult)
    ensures r == Alu(op, rn, operand, shifterCarry, c, v)
  {
    hide And, Orr, Eor, Not, Plus, Minus, PlusCarry, MinusCarry;
    var carry, overflow, change, result: Word := c, v, true, 0;
    if op == AND {
      result, carry := And(rn, operand), shifterCarry;
    } else if op == EOR {
      result, carry := Eor(rn, operand), shifterCarry;
    } else if op == SUB {
      result, carry, overflow := SubWithFlags(rn, operand);
    } else if op == RSB {
      result, carry, overflow := SubWithFlags(operand, rn);
    } else if op == ADD {
      result, carry, overflow := AddWithFlags(rn, operand);
    } else if op == ADC {
      result, carry, overflow := AddWithCarry(rn, operand, c);
    } else if op == SBC {
      result, carry, overflow := SubWithCarry(rn, operand, c);
    } else if op == RSC {
      result, carry, overflow := SubWithCarry(operand, rn, c);
    } else if op == TST {
      result, carry, change := And(rn, operand), shifterCarry, false;
    } else if op == TEQ {
      result, carry, change := Eor(rn, operand), shifterCarry, false;
    } else if op == CMP {
      result, carry, overflow := SubWithFlags(rn, operand);
      change := false;
    } else if op == CMN {
      result, carry, overflow := AddWithFlags(rn, operand);
      change := false;
    } else if op == ORR {
      result, carry := Orr(rn, operand), shifterCarry;
    } else if op == MOV {
      result, carry := operand, shifterCarry;
    } else if op == BIC {
      result, carry := And(rn, Not(operand)), shifterCarry;
    } else {
      result, carry := Not(operand), shifterCarry;
    }
    r := AluResult(result, carry, overflow, change);
  }

  /** data_processing. */
  method ArmProcess(p: ArmCore, setFlags: bool, op: nat, rd: Byte, rn: Word, operand: Word, shifterCarry: bool)
    returns (code: int)
    requires p.Valid()
    modifies p.Repr()
    ensures (p.Abs(), code) == Process(old(p.Abs()), setFlags, op, rd, rn, operand, shifterCarry)
  {
    hide Alu;
    var cpsr := p.ReadCpsr();
    var r := ArmAlu(op, rn, operand, shifterCarry, FlagC(cpsr), FlagV(cpsr));
    code := ArmWriteBack(p, setFlags, rd, cpsr, r);
  }

  method ArmWriteBack(p: ArmCore, setFlags: bool, rd: Byte, cpsr: bv32, r: AluResult) returns (code: int)
    requires p.Valid()
    modifies p.Repr()
    ensures (p.Abs(), code) == WriteBack(old(p.Abs()), setFlags, rd, cpsr, r)
  {
    if r.writes {
      p.WriteRegister(rd, r.value);
    }
    if setFlags && rd == 15 {
      var has := p.RestoreStatus();
      if !has {
        return UNDEFINED_INSTRUCTION;
      }
    } else if setFlags {
      p.WriteCpsr(WithFlags(cpsr, r.value >= 0x8000_0000, r.value == 0, r.carry, r.overflow));
    }
    return SUCCESSFULLY_DECODED;
  }

  /** The cases of arm_data_processing_shift that shift by an immediate. */
  method ArmImmediateShift(kind: ShiftKind, rm: Word, imm: nat, c: bool) returns (operand: Word, carry: bool)
    requires imm < 32
    ensures (operand, carry) == ImmediateShift(kind, rm, imm, c)
  {
    hide Lsl, Lsr, Asr, Ror, Orr, Bit;
    match kind {
      case LSL =>
        if imm == 0 {
          operand, carry := rm, c;
        } else {
          operand, carry := Lsl(rm, imm), Bit(rm, 32 - imm) == 1;
        }
      case LSR =>
        if imm == 0 {
          operand, carry := 0, Bit(rm, 31) == 1;
        } else {
          operand, carry := Lsr(rm, imm), Bit(rm, imm - 1) == 1;
        }
      case ASR =>
        if imm > 0 {
          operand, carry := Asr(rm, imm), Bit(rm, imm - 1) == 1;
        } else if Bit(rm, 31) == 0 {
          operand, carry := 0, false;
        } else {
          operand, carry := 0xFFFF_FFFF, true;
        }
      case ROR =>
        if imm == 0 {
          operand, carry := Orr(if c then 0x8000_0000 else 0, Lsr(rm, 1)), Bit(rm, 0) == 1;
        } else {
          operand, carry := Ror(rm, imm), Bit(rm, imm - 1) == 1;
        }
    }
  }

  /** The cases that shift by a register. */
  method ArmRegisterShift(kind: ShiftKind, rm: Word, rs: Word, c: bool) returns (operand: Word, carry: bool)
    ensures (operand, carry) == RegisterShift(kind, rm, rs % 0x100, c)
  {
    hide Lsl, Lsr, Asr, Ror, Orr, Bit;
    var low := rs % 0x100;
    LowFiveBits(rs);
    if low == 0 {
      return rm, c;
    }
    match kind {
      case LSL =>
        if low < 32 {
          operand, carry := Lsl(rm, low), Bit(rm, 32 - low) == 1;
        } else if low == 32 {
          operand, carry := 0, Bit(rm, 0) == 1;
        } else {
          operand, carry := 0, false;
        }
      case LSR =>
        if low < 32 {
          operand, carry := Lsr(rm, low), Bit(rm, low - 1) == 1;
        } else if low == 32 {
          operand, carry := 0, Bit(rm, 31) == 1;
        } else {
          operand, carry := 0, false;
        }
      case ASR =>
        if low < 32 {
          operand, carry := Asr(rm, low), Bit(rm, low - 1) == 1;
        } else if Bit(rm, 31) == 0 {
          operand, carry := 0, false;
        } else {
          operand, carry := 0xFFFF_FFFF, true;
        }
      case ROR =>
        if rs % 32 == 0 {
          operand, carry := rm, Bit(rm, 31) == 1;
        } else {
          operand, carry := Ror(rm, rs % 32), Bit(rm, rs % 32 - 1) == 1;
        }
    }
  }

  lemma LowFiveBits(x: Word)
    ensures x % 0x100 % 32 == x % 32
  {
    assert x == 32 * (8 * (x / 0x100)) + x % 0x100;
  }

  method ArmProcessShift(p: ArmCore, ins: Word) returns (code: int)
    requires p.Valid()
    modifies p.Repr()
    ensures (p.Abs(), code) == ProcessShift(old(p.Abs()), ins)
  {
    hide Process, ImmediateShift, RegisterShift, ShiftType, ShiftImm, RnField, RdField, RmField, RsField, Opcode, Bit4, Bit7, Bit20,
      FlagC;
    var cpsr := p.ReadCpsr();
    var c := FlagC(cpsr);
    var rn := p.ReadRegister(RnField(ins));
    var rm := p.ReadRegister(RmField(ins));
    var rs := p.ReadRegister(RsField(ins));
    var operand, carry;
    if !Bit4(ins) {
      if RmField(ins) == 15 || RnField(ins) == 15 {
        var pc: Word := p.ReadRegister(15);
        rm := Wrap(pc + 4);
      }
      operand, carry := ArmImmediateShift(ShiftType(ins), rm, ShiftImm(ins), c);
    } else if !Bit7(ins) {
      if RdField(ins) == 15 || RmField(ins) == 15 || RnField(ins) == 15 || RsField(ins) == 15 {
        return UNDEFINED_INSTRUCTION;
      }
      operand, carry := ArmRegisterShift(ShiftType(ins), rm, rs, c);
    } else {
      return UNDEFINED_INSTRUCTION;
    }
    code := ArmProcess(p, Bit20(ins), Opcode(ins), RdField(ins), rn, operand, carry);
  }

  method ArmProcessImmediate(p: ArmCore, ins: Word) returns (code: int)
    requires p.Valid()
    modifies p.Repr()
    ensures (p.Abs(), code) == ProcessImmediate(old(p.Abs()), ins)
  {
    hide Process, Ror;
    var cpsr := p.ReadCpsr();
    var rn := p.ReadRegister(RnField(ins));
    var operand := Ror(Low8(ins), RsField(ins) * 2);
    var carry := if RsField(ins) == 0 then FlagC(cpsr) else operand >= 0x8000_0000;
    code := ArmProcess(p, Bit20(ins), Opcode(ins), RdField(ins), rn, operand, carry);
  }

  method ArmMsrImmediate(p: ArmCore, ins: Word) returns (code: int)
    requires p.Valid()
    modifies p.Repr()
    ensures (p.Abs(), code) == Msr(old(p.Abs()), ins)
  {
    hide MsrOperand, ByteMask, MsrCpsr, MsrSpsr, Unallocated;
    var operand := MsrOperand(ins);
    if Unallocated(operand) {
      return UNDEFINED_INSTRUCTION;
    }
    if !Bit22(ins) {
      code := ArmMsrCpsr(p, operand, ByteMask(RnField(ins)));
    } else {
      code := ArmMsrSpsr(p, operand, ByteMask(RnField(ins)));
    }
  }

  method ArmMsrCpsr(p: ArmCore, operand: bv32, bytes: bv32) returns (code: int)
    requires p.Valid()
    modifies p.Repr()
    ensures (p.Abs(), code) == MsrCpsr(old(p.Abs()), operand, bytes)
  {
    hide ModeOf, Privileged, NamesState, MsrValue;
    var privileged := p.InPrivilegedMode();
    if privileged {
      if NamesState(operand) {
        return UNDEFINED_INSTRUCTION;
      }
    }
    var cpsr := p.ReadCpsr();
    p.WriteCpsr(MsrValue(cpsr, operand, bytes, privileged));
    return SUCCESSFULLY_DECODED;
  }

  method ArmMsrSpsr(p: ArmCore, operand: bv32, bytes: bv32) returns (code: int)
    requires p.Valid()
    modifies p.Repr()
    ensures (p.Abs(), code) == MsrSpsr(old(p.Abs()), operand, bytes)
  {
    hide Merge, SpsrMask, ModeOf;
    var has := p.CurrentModeHasSpsr();
    if !has {
      return UNDEFINED_INSTRUCTION;
    }
    var mask := SpsrMask(bytes);
    var spsr := p.ReadSpsr();
    p.WriteSpsr(Merge(spsr, operand, mask));
    return SUCCESSFULLY_DECODED;
  }

  method ArmProcessImmediateOrMsr(p: ArmCore, ins: Word) returns (code: int)
    requires p.Valid()
    modifies p.Repr()
    ensures (p.Abs(), code) == ProcessImmediateOrMsr(old(p.Abs()), ins)
  {
    if Bit24(ins) && !Bit23(ins) && Bit21(ins) && !Bit20(ins) {
      code := ArmMsrImmediate(p, ins);
    } else {
      code := ArmProcessImmediate(p, ins);
    }
  }

  // ----- when arithmetic is right -----

  predicate Arithmetic(op: nat) {
    op in {SUB, RSB, ADD, ADC, SBC, RSC, CMP, CMN}
  }

  /** The unbounded signed result that the manual gives an arithmetic operation. */
  function Exact(op: nat, rn: Word, operand: Word, c: bool): int
    requires Arithmetic(op)
  {
    var a, b := Signed(rn), Signed(operand);
    if op == ADD || op == CMN then a + b
    else if op == SUB || op == CMP then a - b
    else if op == RSB then b - a
    else if op == ADC then a + b + Unit(c)
    else if op == SBC then a - b - Unit(!c)
    else b - a - Unit(!c)
  }

  /** When the C flag of x + y + u is the carry out of bit 31. */
  predicate AddCarryIsRight(x: Word, y: Word, u: int) {
    if y >= 0x8000_0000 then x + y + u >= 0x1_0000_0000
    else if x < 0x8000_0000 then x + y + u < 0x8000_0000
    else x + y + u < 0x1_0000_0000
  }

  /** When the C flag of x - y - u is the absence of a borrow. */
  predicate SubCarryIsRight(x: Word, y: Word, u: int) {
    if y >= 0x8000_0000 then x >= y + u
    else if x < 0x8000_0000 then x < y + u
    else x - y - u < 0x8000_0000
  }

  /** When the V flag of x - y - NOT c is the overflow of that difference. */
  predicate BorrowOverflowIsRight(x: Word, y: Word, c: bool) {
    var d := Signed(x) - Signed(y);
    if c then d != -0x8000_0000 || Signed(y) < 0 else d != 0x8000_0000 && d != -0x8000_0000
  }

  /** When the V flag of an arithmetic operation is the overflow of its exact result. */
  predicate OverflowIsRight(op: nat, rn: Word, operand: Word, c: bool) {
    if op == ADC then !c || Signed(rn) + Signed(operand) != -0x8000_0001
    else if op == SBC then BorrowOverflowIsRight(rn, operand, c)
    else if op == RSC then BorrowOverflowIsRight(operand, rn, c)
    else true
  }

  /** ADC adds the carry flag exactly when x + y overflows, or the carry to be added is the one the sum itself
      generates, and otherwise adds the opposite; its V is the overflow of x + y + C, and its C the carry out, exactly
      where described. */
  lemma AdcIsExactWhen(x: Word, y: Word, sc: bool, c: bool, v: bool)
    ensures Alu(ADC, x, y, sc, c, v).value == Wrap(x + y + Unit(c))
       <==> Overflows(Signed(x) + Signed(y))
            || (if c then Signed(y) < 0 || Signed(x) + Signed(y) == 0x7FFF_FFFF else Signed(y) >= 0)
    ensures Alu(ADC, x, y, sc, c, v).value in {Wrap(x + y + Unit(c)), Wrap(x + y + Unit(!c))}
    ensures (Alu(ADC, x, y, sc, c, v).overflow <==> Overflows(Exact(ADC, x, y, c))) <==> OverflowIsRight(ADC, x, y, c)
    ensures (Alu(ADC, x, y, sc, c, v).carry <==> x + y + Unit(c) >= 0x1_0000_0000) <==> AddCarryIsRight(x, y, Unit(c))
  {
    hide Wrap;
    UnitWraps(x + y);
  }

  /** SBC subtracts the inverted carry exactly when x - y overflows, or likewise, and its V and C are those of the
      difference exactly where described.  RSC is SBC with its operands exchanged. */
  lemma SbcIsExactWhen(x: Word, y: Word, sc: bool, c: bool, v: bool)
    ensures Alu(SBC, x, y, sc, c, v).value == Wrap(x - y - Unit(!c))
       <==> Overflows(Signed(x) - Signed(y))
            || (if c then Signed(y) < 0 else Signed(y) >= 0 && Signed(x) - Signed(y) != -0x8000_0000)
    ensures Alu(SBC, x, y, sc, c, v).value in {Wrap(x - y - Unit(!c)), Wrap(x - y - Unit(c))}
    ensures (Alu(SBC, x, y, sc, c, v).overflow <==> Overflows(Exact(SBC, x, y, c))) <==> OverflowIsRight(SBC, x, y, c)
    ensures (Alu(SBC, x, y, sc, c, v).carry <==> x >= y + Unit(!c)) <==> SubCarryIsRight(x, y, Unit(!c))
    ensures Alu(RSC, y, x, sc, c, v) == Alu(SBC, x, y, sc, c, v) && Exact(RSC, y, x, c) == Exact(SBC, x, y, c)
    ensures OverflowIsRight(RSC, y, x, c) == OverflowIsRight(SBC, x, y, c)
  {
    hide Wrap;
    UnitWraps(x - y);
  }

  /** V, and the sign of the exact result, after a sum and after a difference without carry. */
  lemma PlusFlags(x: Word, y: Word)
    ensures var r := Plus(x, y);
      r.overflow == Overflows(Signed(x) + Signed(y)) && ((Signed(r.value) < 0) != r.overflow <==> Signed(x) + Signed(y) < 0)
  {
  }

  lemma MinusFlags(x: Word, y: Word)
    ensures var r := Minus(x, y);
      r.overflow == Overflows(Signed(x) - Signed(y)) && ((Signed(r.value) < 0) != r.overflow <==> Signed(x) - Signed(y) < 0)
  {
  }

  lemma PlainFlags(op: nat, x: Word, y: Word, sc: bool, c: bool, v: bool)
    requires Arithmetic(op) && op !in {ADC, SBC, RSC}
    ensures var r := Alu(op, x, y, sc, c, v);
      r.overflow == Overflows(Exact(op, x, y, c)) && ((Signed(r.value) < 0) != r.overflow <==> Exact(op, x, y, c) < 0)
  {
    hide Plus, Minus, Signed, Overflows;
    PlusFlags(x, y);
    MinusFlags(x, y);
    MinusFlags(y, x);
  }

  /** V of the eight arithmetic operations. */
  lemma OverflowFlag(op: nat, x: Word, y: Word, sc: bool, c: bool, v: bool)
    requires Arithmetic(op)
    ensures (Alu(op, x, y, sc, c, v).overflow <==> Overflows(Exact(op, x, y, c))) <==> OverflowIsRight(op, x, y, c)
  {
    hide Alu, Exact, Signed, Overflows, BorrowOverflowIsRight, AddCarryIsRight, SubCarryIsRight, Wrap;
    if op == ADC {
      AdcIsExactWhen(x, y, sc, c, v);
    } else if op == SBC {
      SbcIsExactWhen(x, y, sc, c, v);
    } else if op == RSC {
      SbcIsExactWhen(y, x, sc, c, v);
    } else {
      PlainFlags(op, x, y, sc, c, v);
    }
  }

  lemma UnitWraps(i: int)
    ensures Wrap(i) != Wrap(i + 1) && Wrap(i) != Wrap(i - 1)
  {
  }

  /** The smallest failures: 1 + 1 + carry is 2, and 5 - 3 without borrow is 1.  -2^31 - 1 + carry fits in a word
      and sets V. */
  lemma CarryArithmeticFails()
    ensures Alu(ADC, 1, 1, false, true, false).value == 2
    ensures Alu(SBC, 5, 3, false, true, false).value == 1
    ensures Alu(RSC, 3, 5, false, true, false).value == 1
    ensures Alu(ADC, 0x8000_0000, 0xFFFF_FFFF, false, true, false).overflow
    ensures Exact(ADC, 0x8000_0000, 0xFFFF_FFFF, true) == -0x8000_0000
  {
  }

  // ----- the other operations -----

  lemma LogicValues(x: Word, y: Word, sc: bool, c: bool, v: bool)
    ensures Alu(AND, x, y, sc, c, v).value == And(x, y) && Alu(EOR, x, y, sc, c, v).value == Eor(x, y)
    ensures Alu(ORR, x, y, sc, c, v).value == Orr(x, y) && Alu(BIC, x, y, sc, c, v).value == And(x, Not(y))
    ensures Alu(MVN, x, y, sc, c, v).value == Not(y) && Alu(MOV, x, y, sc, c, v).value == y
  {
    hide And, Eor, Orr, Not, Plus, Minus, PlusCarry, MinusCarry;
  }

  lemma NotBit(y: Word, i: nat)
    requires i < 32
    ensures Bit(Not(y), i) == 1 <==> Bit(y, i) == 0
  {
    hide Bit, Pow2;
    Pow2Values();
    NotBits(y, 32, i);
  }

  /** The logic operations act on each bit separately. */
  lemma LogicIsBitwise(x: Word, y: Word, sc: bool, c: bool, v: bool, i: nat)
    requires i < 32
    ensures Bit(Alu(AND, x, y, sc, c, v).value, i) == 1 <==> Bit(x, i) == 1 && Bit(y, i) == 1
    ensures Bit(Alu(EOR, x, y, sc, c, v).value, i) == 1 <==> Bit(x, i) != Bit(y, i)
    ensures Bit(Alu(ORR, x, y, sc, c, v).value, i) == 1 <==> Bit(x, i) == 1 || Bit(y, i) == 1
    ensures Bit(Alu(BIC, x, y, sc, c, v).value, i) == 1 <==> Bit(x, i) == 1 && Bit(y, i) == 0
    ensures Bit(Alu(MVN, x, y, sc, c, v).value, i) == 1 <==> Bit(y, i) == 0
    ensures Alu(MOV, x, y, sc, c, v).value == y
  {
    hide Bit, BitAnd, BitOr, BitXor, Alu, Not;
    LogicValues(x, y, sc, c, v);
    BitwiseBits(x, y, i);
    BitwiseBits(x, Not(y), i);
    NotBit(y, i);
  }

  lemma LogicKeepsFlags(op: nat, x: Word, y: Word, sc: bool, c: bool, v: bool)
    requires !Arithmetic(op)
    ensures Alu(op, x, y, sc, c, v).carry == sc && Alu(op, x, y, sc, c, v).overflow == v
  {
    hide And, Eor, Orr, Not, PlusCarry, MinusCarry;
  }

  /** The four tests compute what AND, EOR, SUB and ADD do, and write no register. */
  lemma TestsAreUnwritten(x: Word, y: Word, sc: bool, c: bool, v: bool)
    ensures Alu(TST, x, y, sc, c, v) == Alu(AND, x, y, sc, c, v).(writes := false)
    ensures Alu(TEQ, x, y, sc, c, v) == Alu(EOR, x, y, sc, c, v).(writes := false)
    ensures Alu(CMP, x, y, sc, c, v) == Alu(SUB, x, y, sc, c, v).(writes := false)
    ensures Alu(CMN, x, y, sc, c, v) == Alu(ADD, x, y, sc, c, v).(writes := false)
    ensures Alu(RSB, x, y, sc, c, v) == Alu(SUB, y, x, sc, c, v)
  {
    hide And, Eor;
  }

  /** ADD, and SUB below: V is set exactly when the signed result is not the mathematical one; the result is right
      modulo 2^32 as an unsigned number; C is the manual's exactly on the operands above. */
  lemma Sums(x: Word, y: Word, sc: bool, c: bool, v: bool)
    ensures var r := Alu(ADD, x, y, sc, c, v);
      (r.overflow <==> Signed(r.value) != Signed(x) + Signed(y))
      && (r.value == x + y || r.value == x + y - 0x1_0000_0000)
      && ((r.carry <==> x + y >= 0x1_0000_0000) <==> AddCarryIsRight(x, y, 0))
  {
  }

  lemma Differences(x: Word, y: Word, sc: bool, c: bool, v: bool)
    ensures var r := Alu(SUB, x, y, sc, c, v);
      (r.overflow <==> Signed(r.value) != Signed(x) - Signed(y))
      && (r.value == x - y || r.value == x - y + 0x1_0000_0000)
      && ((r.carry <==> x >= y) <==> SubCarryIsRight(x, y, 0))
  {
  }

  /** 0x7FFFFFFF + 1 sets C although nothing is carried out. */
  lemma SumCarryFails(sc: bool, c: bool, v: bool)
    ensures Alu(ADD, 0x7FFF_FFFF, 1, sc, c, v).carry && 0x7FFF_FFFF + 1 < 0x1_0000_0000
    ensures !AddCarryIsRight(0x7FFF_FFFF, 1, 0)
  {
    Sums(0x7FFF_FFFF, 1, sc, c, v);
  }

  // ----- the sixteen operations by their numbers -----

  /** A bit of the result of a logic operation. */
  predicate LogicBit(op: nat, x: bool, y: bool) {
    if op == 0 || op == 8 then x && y
    else if op == 1 || op == 9 then x != y
    else if op == 12 then x || y
    else if op == 13 then y
    else if op == 14 then x && !y
    else !y
  }

  /** The sum of two words, with V where it overflows and C as described above. */
  predicate IsSum(x: Word, y: Word, r: AluResult) {
    r.value == Wrap(x + y)
    && r.overflow == Overflows(Signed(x) + Signed(y))
    && ((r.carry <==> x + y >= 0x1_0000_0000) <==> AddCarryIsRight(x, y, 0))
  }

  predicate IsDifference(x: Word, y: Word, r: AluResult) {
    r.value == Wrap(x - y)
    && r.overflow == Overflows(Signed(x) - Signed(y))
    && ((r.carry <==> x >= y) <==> SubCarryIsRight(x, y, 0))
  }

  /** The operands on which ADC, or SBC, takes the carry it should. */
  predicate AddsCarry(x: Word, y: Word, c: bool) {
    Overflows(Signed(x) + Signed(y))
    || (if c then Signed(y) < 0 || Signed(x) + Signed(y) == 0x7FFF_FFFF else Signed(y) >= 0)
  }

  predicate SubtractsBorrow(x: Word, y: Word, c: bool) {
    Overflows(Signed(x) - Signed(y))
    || (if c then Signed(y) < 0 else Signed(y) >= 0 && Signed(x) - Signed(y) != -0x8000_0000)
  }

  predicate IsSumWithCarry(x: Word, y: Word, c: bool, r: AluResult) {
    r.value == Wrap(x + y + Unit(if AddsCarry(x, y, c) then c else !c))
    && ((r.overflow <==> Overflows(Signed(x) + Signed(y) + Unit(c))) <==> !c || Signed(x) + Signed(y) != -0x8000_0001)
    && ((r.carry <==> x + y + Unit(c) >= 0x1_0000_0000) <==> AddCarryIsRight(x, y, Unit(c)))
  }

  predicate IsDifferenceWithBorrow(x: Word, y: Word, c: bool, r: AluResult) {
    r.value == Wrap(x - y - Unit(if SubtractsBorrow(x, y, c) then !c else c))
    && ((r.overflow <==> Overflows(Signed(x) - Signed(y) - Unit(!c))) <==> BorrowOverflowIsRight(x, y, c))
    && ((r.carry <==> x >= y + Unit(!c)) <==> SubCarryIsRight(x, y, Unit(!c)))
  }

  /** `r` is what operation number `op` yields for Rn and the shifter operand: the four tests write nothing, the logic
      operations act on each bit and pass on the shifter's carry and V, and the others calculate. */
  predicate Yields(op: nat, rn: Word, operand: Word, sc: bool, c: bool, v: bool, r: AluResult) {
    (r.writes <==> op < 8 || op >= 12)
    && if op == 4 || op == 11 then IsSum(rn, operand, r)
       else if op == 2 || op == 10 then IsDifference(rn, operand, r)
       else if op == 3 then IsDifference(operand, rn, r)
       else if op == 5 then IsSumWithCarry(rn, operand, c, r)
       else if op == 6 then IsDifferenceWithBorrow(rn, operand, c, r)
       else if op == 7 then IsDifferenceWithBorrow(operand, rn, c, r)
       else
         r.carry == sc && r.overflow == v && (op == 13 ==> r.value == operand)
         && forall i: nat :: i < 32 ==> (Bit(r.value, i) == 1 <==> LogicBit(op, Bit(rn, i) == 1, Bit(operand, i) == 1))
  }

  lemma SumsWithCarry(x: Word, y: Word, c: bool)
    ensures IsSumWithCarry(x, y, c, PlusCarry(x, y, c)) && IsDifferenceWithBorrow(x, y, c, MinusCarry(x, y, c))
    ensures PlusCarry(x, y, c).writes && MinusCarry(x, y, c).writes
  {
    hide Wrap, Yields;
    AdcIsExactWhen(x, y, false, c, false);
    SbcIsExactWhen(x, y, false, c, false);
  }

  lemma PlainSums(x: Word, y: Word)
    ensures IsSum(x, y, Plus(x, y)) && IsDifference(x, y, Minus(x, y))
    ensures Plus(x, y).writes && Minus(x, y).writes
  {
    hide Wrap;
    Sums(x, y, false, false, false);
    Differences(x, y, false, false, false);
  }

  /** The sixteen operations by their numbers in bits 24 to 21. */
  lemma OperationsByNumber(op: nat, rn: Word, operand: Word, sc: bool, c: bool, v: bool)
    requires op < 16
    ensures Yields(op, rn, operand, sc, c, v, Alu(op, rn, operand, sc, c, v))
  {
    if op in {0, 1, 8, 9, 12, 13, 14, 15} {
      LogicYields(op, rn, operand, sc, c, v);
    } else {
      ArithmeticYields(op, rn, operand, sc, c, v);
    }
  }

  lemma ArithmeticYields(op: nat, rn: Word, operand: Word, sc: bool, c: bool, v: bool)
    requires op < 16 && op !in {0, 1, 8, 9, 12, 13, 14, 15}
    ensures Yields(op, rn, operand, sc, c, v, Alu(op, rn, operand, sc, c, v))
  {
    hide Plus, Minus, PlusCarry, MinusCarry, AddCarryIsRight, SubCarryIsRight, AddsCarry, SubtractsBorrow,
      BorrowOverflowIsRight, Wrap, Signed, Overflows;
    PlainSums(rn, operand);
    PlainSums(operand, rn);
    SumsWithCarry(rn, operand, c);
    SumsWithCarry(operand, rn, c);
  }

  lemma LogicYields(op: nat, rn: Word, operand: Word, sc: bool, c: bool, v: bool)
    requires op in {0, 1, 8, 9, 12, 13, 14, 15}
    ensures Yields(op, rn, operand, sc, c, v, Alu(op, rn, operand, sc, c, v))
  {
    hide And, Orr, Eor, Not, Bit, Plus, Minus, PlusCarry, MinusCarry;
    LogicValues(rn, operand, sc, c, v);
    forall i: nat | i < 32
      ensures Bit(Alu(op, rn, operand, sc, c, v).value, i) == 1
         <==> LogicBit(op, Bit(rn, i) == 1, Bit(operand, i) == 1)
    {
      LogicIsBitwise(rn, operand, sc, c, v, i);
      TestsAreUnwritten(rn, operand, sc, c, v);
    }
  }

  // ----- operands and masks -----

  /** The operand of a data-processing instruction with a shifted register, from its bits.  A shift by immediate that
      names the PC as Rm or Rn shifts the PC, 4 further on. */
  function ShifterOperand(s: State, ins: Word): Shifted {
    var c, bits, rm, rn := FlagC(s.regs.cpsr), ins / 0x20 % 4, ins % 16, ins / 0x1_0000 % 16;
    if ins / 0x10 % 2 == 1 then ShiftBy(bits, Reg(s, rm), Reg(s, ins / 0x100 % 16) % 0x100, c)
    else ShiftByImmediate(bits, if rm == 15 || rn == 15 then Wrap(Reg(s, 15) + 4) else Reg(s, rm), ins / 0x80 % 32, c)
  }

  /** Shifts by register that are refused: those that name the PC, and those with bit 7. */
  predicate RefusesShift(ins: Word) {
    ins / 0x10 % 2 == 1
    && (ins / 0x80 % 2 == 1 || ins / 0x1_0000 % 16 == 15 || ins / 0x1000 % 16 == 15 || ins / 0x100 % 16 == 15 || ins % 16 == 15)
  }

  /** Every data-processing instruction with a shifted register, of all encodings, works on that operand, or is refused
      and changes nothing. */
  lemma ShiftedOperand(s: State, ins: Word)
    ensures var (operand, carry) := ShifterOperand(s, ins);
      ProcessShift(s, ins)
      == if RefusesShift(ins) then (s, UNDEFINED_INSTRUCTION)
         else Process(s, ins / 0x10_0000 % 2 == 1, ins / 0x20_0000 % 16, ins / 0x1000 % 16, Reg(s, ins / 0x1_0000 % 16),
                      operand, carry)
  {
    hide Process, ImmediateShift, RegisterShift, ShiftBy, ShiftByImmediate, Reg, FlagC, Wrap;
    var c, bits := FlagC(s.regs.cpsr), ins / 0x20 % 4;
    if ins / 0x10 % 2 == 1 {
      ShiftsAreArithmetic(bits, Reg(s, ins % 16), Reg(s, ins / 0x100 % 16) % 0x100, c);
    } else {
      var source := if ins % 16 == 15 || ins / 0x1_0000 % 16 == 15 then Wrap(Reg(s, 15) + 4) else Reg(s, ins % 16);
      ShiftsAreArithmetic(bits, source, ins / 0x80 % 32, c);
    }
  }

  /** The byte of an immediate rotated right by twice bits 11 to 8, with its carry. */
  function RotatedByte(ins: Word, c: bool): Shifted {
    ShiftBy(3, ins % 0x100, 2 * (ins / 0x100 % 16), c)
  }

  lemma RotatedByteIs(ins: Word, c: bool)
    ensures RotatedByte(ins, c).0 == RotatedImmediate(ins)
    ensures RotatedByte(ins, c).1 == if RsField(ins) == 0 then c else RotatedImmediate(ins) >= 0x8000_0000
  {
    hide Ror, Iterate, ShiftBy;
    RotatedImmediateIsIterated(Low8(ins), RsField(ins), c);
    ShiftByIsIterated(3, ins % 0x100, 2 * (ins / 0x100 % 16), c);
  }

  /** An instruction with an immediate works on its rotated byte. */
  lemma ImmediateOperand(s: State, ins: Word)
    ensures var (operand, carry) := RotatedByte(ins, FlagC(s.regs.cpsr));
      ProcessImmediate(s, ins)
      == Process(s, ins / 0x10_0000 % 2 == 1, ins / 0x20_0000 % 16, ins / 0x1000 % 16, Reg(s, ins / 0x1_0000 % 16), operand, carry)
  {
    hide Process, RotatedImmediate, RotatedByte, Reg, FlagC;
    RotatedByteIs(ins, FlagC(s.regs.cpsr));
  }

  /** `after` has the flags and the low bits of `operand` where selected, and is `before` elsewhere. */
  predicate WritesFields(before: bv32, after: bv32, operand: bv32, flags: bool, low: bv32) {
    after >> 28 == (if flags then operand else before) >> 28
    && after & 0x0FFF_FFFF == (before & (0x0FFF_FFFF ^ low)) | (operand & low)
  }

  /** What MSR immediate wants to write. */
  function MsrBits(ins: Word): bv32 {
    RotatedByte(ins, false).0 as bv32
  }

  /** MSR immediate is refused exactly if its operand has bits that are never allocated, or sets the state bit of the CPSR
      from a privileged mode, or the mode has no SPSR to write. */
  predicate RefusesMsr(ins: Word, mode: bv8) {
    MsrBits(ins) & 0x0FFF_FF00 != 0
    || (if ins / 0x40_0000 % 2 == 1 then !ExceptionMode(mode) else Privileged(mode) && MsrBits(ins) & 0x20 != 0)
  }

  /** MSR immediate, of every encoding: refused, it writes nothing.  To the CPSR it writes the flags if bit 19 is set and
      the low four mode bits if bit 16 is set and the mode is privileged.  The SPSR becomes the CPSR with the flags, or
      bits 5 and 3 to 0, written under the same bits.  Nothing else changes. */
  lemma MsrWrites(s: State, ins: Word)
    ensures var (t, code) := Msr(s, ins);
      var flags, low := ins / 0x8_0000 % 2 == 1, ins / 0x1_0000 % 2 == 1;
      if RefusesMsr(ins, Mode(s)) then (t, code) == (s, UNDEFINED_INSTRUCTION)
      else
        code == SUCCESSFULLY_DECODED
        && if ins / 0x40_0000 % 2 == 0 then
             t == SetCpsr(s, t.regs.cpsr)
             && WritesFields(s.regs.cpsr, t.regs.cpsr, MsrBits(ins), flags, if low && Privileged(Mode(s)) then 0xF else 0)
           else
             t == SetSpsr(s, Spsr(t))
             && WritesFields(s.regs.cpsr, Spsr(t), MsrBits(ins), flags, if low then 0x2F else 0)
  {
    hide MsrOperand, MsrBits, MsrValue, ByteMask, Privileged, ModeOf, WritesFields, RotatedByte, Merge, SpsrMask, StatusIndex,
      Bit22, RnField, MsrCpsr, MsrSpsr, RefusesMsr;
    FieldBits(ins);
    var operand, bytes := MsrBits(ins), ByteMask(RnField(ins));
    MsrOperandIs(ins);
    RefusesMeans(ins, Mode(s));
    MsrToCpsr(s, operand, RnField(ins));
    MsrToSpsr(s, operand, RnField(ins));
  }

  lemma RefusesMeans(ins: Word, mode: bv8)
    ensures RefusesMsr(ins, mode)
       <==> Unallocated(MsrBits(ins)) || (if Bit22(ins) then !ExceptionMode(mode) else Privileged(mode) && NamesState(MsrBits(ins)))
  {
    hide MsrBits, Privileged, ExceptionMode;
  }

  lemma FieldBits(ins: Word)
    ensures (RnField(ins) / 8 % 2 == 1) == (ins / 0x8_0000 % 2 == 1)
    ensures (RnField(ins) % 2 == 1) == (ins / 0x1_0000 % 2 == 1)
    ensures Bit22(ins) == (ins / 0x40_0000 % 2 == 1)
  {
    var q := ins / 0x1_0000;
    assert ins / 0x8_0000 == q / 8;
    NibbleBits(q / 16, q % 16);
  }

  lemma MsrOperandIs(ins: Word)
    ensures MsrOperand(ins) == MsrBits(ins)
  {
    hide RotatedByte, RotatedImmediate;
    RotatedByteIs(ins, false);
  }

  lemma MsrToCpsr(s: State, operand: bv32, field: Byte)
    ensures var (t, code) := MsrCpsr(s, operand, ByteMask(field));
      if Privileged(Mode(s)) && NamesState(operand) then (t, code) == (s, UNDEFINED_INSTRUCTION)
      else
        code == SUCCESSFULLY_DECODED && t == SetCpsr(s, t.regs.cpsr)
        && WritesFields(s.regs.cpsr, t.regs.cpsr, operand, field / 8 % 2 == 1,
                        if field % 2 == 1 && Privileged(Mode(s)) then 0xF else 0)
  {
    hide NamesState, ByteMask, MsrValue, Privileged, ModeOf, WritesFields;
    MergeWrites(s.regs.cpsr, operand, field, Privileged(Mode(s)));
  }

  lemma MergeWrites(c: bv32, operand: bv32, field: Byte, privileged: bool)
    ensures WritesFields(c, MsrValue(c, operand, ByteMask(field), privileged), operand, field / 8 % 2 == 1,
                         if field % 2 == 1 && privileged then 0xF else 0)
  {
  }

  lemma MsrToSpsr(s: State, operand: bv32, field: Byte)
    ensures var (t, code) := MsrSpsr(s, operand, ByteMask(field));
      if !ExceptionMode(Mode(s)) then (t, code) == (s, UNDEFINED_INSTRUCTION)
      else
        code == SUCCESSFULLY_DECODED && t == SetSpsr(s, Spsr(t))
        && WritesFields(s.regs.cpsr, Spsr(t), operand, field / 8 % 2 == 1, if field % 2 == 1 then 0x2F else 0)
  {
    hide ByteMask, Merge, SpsrMask, ModeOf, WritesFields;
    MergeWritesSpsr(s.regs.cpsr, operand, field);
  }

  lemma MergeWritesSpsr(c: bv32, operand: bv32, field: Byte)
    ensures WritesFields(c, Merge(c, operand, SpsrMask(ByteMask(field))), operand, field / 8 % 2 == 1,
                         if field % 2 == 1 then 0x2F else 0)
  {
  }
}
