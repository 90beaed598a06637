/** The barrel shifter: the operand and carry of arm_data_processing_shift, its smaller second form in
    arm_load_store.c, and what both compute in terms of one-bit shifts (section A5.1 of ARM DDI 0100). */
module Shifter {
  import opened Bits

  datatype ShiftKind = LSL | LSR | ASR | ROR

  /** Shifter operand and shifter carry out. */
  type Shifted = (Word, bool)

  /** The arithmetic shift of 32 or more: all sign bits. */
  function SignFill(rm: Word): Shifted {
    if Bit(rm, 31) == 0 then (0, false) else (0xFFFF_FFFF, true)
  }

  /** Shift by immediate. */
  function ImmediateShift(kind: ShiftKind, rm: Word, imm: nat, c: bool): Shifted
    requires imm < 32
  {
    match kind
    case LSL =>
      if imm == 0 then (rm, c) else (Lsl(rm, imm), Bit(rm, 32 - imm) == 1)
    case LSR =>
      if imm == 0 then (0, Bit(rm, 31) == 1) else (Lsr(rm, imm), Bit(rm, imm - 1) == 1)
    case ASR =>
      if imm == 0 then SignFill(rm) else (Asr(rm, imm), Bit(rm, imm - 1) == 1)
    case ROR =>
      if imm == 0 then (Orr(if c then 0x8000_0000 else 0, Lsr(rm, 1)), Bit(rm, 0) == 1)
      else (Ror(rm, imm), Bit(rm, imm - 1) == 1)
  }

  /** Shift by the low byte of a register. */
  function RegisterShift(kind: ShiftKind, rm: Word, rs: Byte, c: bool): Shifted {
    if rs == 0 then (rm, c)
    else match kind
    case LSL =>
      if rs < 32 then (Lsl(rm, rs), Bit(rm, 32 - rs) == 1)
      else if rs == 32 then (0, Bit(rm, 0) == 1)
      else (0, false)
    case LSR =>
      if rs < 32 then (Lsr(rm, rs), Bit(rm, rs - 1) == 1)
      else if rs == 32 then (0, Bit(rm, 31) == 1)
      else (0, false)
    case ASR =>
      if rs < 32 then (Asr(rm, rs), Bit(rm, rs - 1) == 1) else SignFill(rm)
    case ROR =>
      if rs % 32 == 0 then (rm, Bit(rm, 31) == 1) else (Ror(rm, rs % 32), Bit(rm, rs % 32 - 1) == 1)
  }

  /** shift_operation of arm_load_store.c: the index of a scaled register offset. */
  function ShiftOperation(kind: ShiftKind, rm: Word, imm: nat, c: bool): Word
    requires imm < 32
  {
    match kind
    case LSL => Lsl(rm, imm)
    case LSR => if imm == 0 then 0 else Lsr(rm, imm)
    case ASR => if imm == 0 then (if Bit(rm, 31) == 1 then 0xFFFF_FFFF else 0) else Asr(rm, imm)
    case ROR => if imm == 0 then Orr(if c then 0x8000_0000 else 0, Lsr(rm, 1)) else Ror(rm, imm)
  }

  // ----- the reference: one bit at a time -----

  /** Shift by one bit; the bit that falls out is the carry. */
  function OneBit(kind: ShiftKind, x: Word): Shifted {
    match kind
    case LSL => (2 * x % 0x1_0000_0000, x >= 0x8000_0000)
    case LSR => (x / 2, x % 2 == 1)
    case ASR => (x / 2 + (if x >= 0x8000_0000 then 0x8000_0000 else 0), x % 2 == 1)
    case ROR => (x / 2 + x % 2 * 0x8000_0000, x % 2 == 1)
  }

  function Iterate(kind: ShiftKind, n: nat, x: Word, c: bool): Shifted {
    if n == 0 then (x, c) else OneBit(kind, Iterate(kind, n - 1, x, c).0)
  }

  /** What n one-bit shifts make of x, for n up to 32, in closed form. */
  function Form(kind: ShiftKind, x: Word, n: nat): int
    requires n <= 32
  {
    match kind
    case LSL => x % Pow2(32 - n) * Pow2(n)
    case LSR => x / Pow2(n)
    case ASR => x / Pow2(n) + (if x >= 0x8000_0000 then 0x1_0000_0000 - Pow2(32 - n) else 0)
    case ROR => x / Pow2(n) + x % Pow2(n) * Pow2(32 - n)
  }

  /** The bit that falls out of shift number n + 1. */
  function Falling(kind: ShiftKind, x: Word, n: nat): bool
    requires n < 32
  {
    if kind == LSL then Bit(x, 31 - n) == 1 else Bit(x, n) == 1
  }

  // ----- arithmetic of one shift, with p = 2^k and q = 2^(32 - k) -----

  lemma QuotientBound(x: nat, p: nat, q: nat)
    requires p > 0 && x < p * q
    ensures 0 <= x / p < q
  {
    var a := x / p;
    assert x == p * a + x % p;
    if a >= q {
      MulMono(q, a, p);
    }
  }

  lemma QuotientAtLeast(x: nat, p: nat, q: nat)
    requires p > 0 && x >= p * q
    ensures x / p >= q
  {
    var a := x / p;
    assert x == p * a + x % p;
    if a < q {
      MulMono(a + 1, q, p);
    }
  }

  /** Multiplying by q modulo p * q keeps only the remainder modulo p. */
  lemma ProductModulo(x: nat, p: nat, q: nat)
    requires p > 0 && q > 0
    ensures x * q % (p * q) == x % p * q
  {
    var a, b := x / p, x % p;
    assert x == p * a + b;
    assert x * q == (p * q) * a + b * q by {
      assert (p * a) * q == (p * q) * a;
    }
    MulMono(b + 1, p, q);
    assert (b + 1) * q == b * q + q;
    DivModUnique(x * q, p * q, a, b * q);
  }

  /** One more left shift, with p * q == 2^31. */
  lemma LeftStep(x: Word, p: nat, q: nat, y: int)
    requires p > 0 && q > 0 && p * q == 0x8000_0000
    requires y == x % (2 * p) * q
    ensures 0 <= y < 0x1_0000_0000
    ensures 2 * y % 0x1_0000_0000 == x % p * (2 * q)
    ensures y >= 0x8000_0000 <==> x / p % 2 == 1
  {
    Twice(x, p);
    var d, b := x / p % 2, x % p;
    SumTimes(d, p, b, q);
    RemainderTimes(b, p, q);
    TopBitFallsOut(d, b * q);
  }

  lemma TopBitFallsOut(d: nat, h: nat)
    requires d < 2 && h < 0x8000_0000
    ensures 2 * (d * 0x8000_0000 + h) % 0x1_0000_0000 == 2 * h
    ensures d * 0x8000_0000 + h >= 0x8000_0000 <==> d == 1
  {
  }

  /** One more arithmetic shift. */
  lemma SignStep(x: Word, p: nat, q: nat, y: int)
    requires p > 0 && q > 0 && p * q == 0x8000_0000
    requires y == x / p + (if x >= 0x8000_0000 then 0x1_0000_0000 - 2 * q else 0)
    ensures 0 <= y < 0x1_0000_0000
    ensures y / 2 + (if y >= 0x8000_0000 then 0x8000_0000 else 0)
         == x / (2 * p) + (if x >= 0x8000_0000 then 0x1_0000_0000 - q else 0)
    ensures y % 2 == x / p % 2
  {
    Twice(x, p);
    DivShrinks(x, p);
    assert p * (2 * q) == 2 * (p * q);
    QuotientBound(x, p, 2 * q);
    assert q <= 0x8000_0000 by { MulMono(1, p, q); }
    if x >= 0x8000_0000 {
      QuotientAtLeast(x, p, q);
    }
  }

  /** One more rotation. */
  lemma RotateStep(x: Word, p: nat, q: nat, y: int)
    requires p > 0 && q > 0 && p * q == 0x8000_0000
    requires y == x / p + x % p * (2 * q)
    ensures 0 <= y < 0x1_0000_0000
    ensures y / 2 + y % 2 * 0x8000_0000 == x / (2 * p) + x % (2 * p) * q
    ensures y % 2 == x / p % 2
  {
    Twice(x, p);
    assert p * (2 * q) == 0x1_0000_0000 by { TwiceProduct(p, q); }
    QuotientBound(x, p, 2 * q);
    RotateParts(x / p, x % p, p, q);
  }

  lemma RotateParts(a: nat, b: nat, p: nat, q: nat)
    requires a < 2 * q && b < p && p * q == 0x8000_0000
    ensures 0 <= a + b * (2 * q) < 0x1_0000_0000
    ensures (a + b * (2 * q)) / 2 + (a + b * (2 * q)) % 2 * 0x8000_0000 == a / 2 + (a % 2 * p + b) * q
    ensures (a + b * (2 * q)) % 2 == a % 2
  {
    RemainderTimes(b, p, q);
    SumTimes(a % 2, p, b, q);
    RotateSum(a, b * q, q);
  }

  lemma TwiceProduct(p: nat, q: nat)
    ensures p * (2 * q) == 2 * (p * q)
  {
  }

  lemma RemainderTimes(b: nat, p: nat, q: nat)
    requires b < p
    ensures 0 <= b * q && b * q + q <= p * q && b * (2 * q) == 2 * (b * q)
  {
    MulMono(b + 1, p, q);
  }

  lemma RotateSum(a: nat, h: nat, q: nat)
    requires a < 2 * q && h + q <= 0x8000_0000
    ensures a + 2 * h < 0x1_0000_0000
    ensures (a + 2 * h) / 2 + (a + 2 * h) % 2 * 0x8000_0000 == a / 2 + (a % 2 * 0x8000_0000 + h)
    ensures (a + 2 * h) % 2 == a % 2
  {
  }

  lemma SumTimes(d: nat, p: nat, b: nat, q: nat)
    ensures (d * p + b) * q == d * (p * q) + b * q
  {
  }

  lemma HalfProducts(n: nat)
    requires n < 32
    ensures Pow2(n) * Pow2(31 - n) == 0x8000_0000
    ensures Pow2(n + 1) == 2 * Pow2(n) && Pow2(32 - n) == 2 * Pow2(31 - n)
  {
    Pow2Add(n, 31 - n);
    Pow2Values();
  }

  lemma FormStep(kind: ShiftKind, x: Word, n: nat)
    requires n < 32
    ensures 0 <= Form(kind, x, n) < 0x1_0000_0000
    ensures OneBit(kind, Form(kind, x, n)) == (Form(kind, x, n + 1), Falling(kind, x, n))
  {
    hide Pow2, OneBit;
    HalfProducts(n);
    FormArithmetic(kind, x, Pow2(n), Pow2(31 - n), Form(kind, x, n));
  }

  lemma FormArithmetic(kind: ShiftKind, x: Word, p: nat, q: nat, y: int)
    requires p > 0 && q > 0 && p * q == 0x8000_0000
    requires y == match kind
                  case LSL => x % (2 * q) * p
                  case LSR => x / p
                  case ASR => x / p + (if x >= 0x8000_0000 then 0x1_0000_0000 - 2 * q else 0)
                  case ROR => x / p + x % p * (2 * q)
    ensures 0 <= y < 0x1_0000_0000
    ensures OneBit(kind, y).0 == match kind
                                 case LSL => x % q * (2 * p)
                                 case LSR => x / (2 * p)
                                 case ASR => x / (2 * p) + (if x >= 0x8000_0000 then 0x1_0000_0000 - q else 0)
                                 case ROR => x / (2 * p) + x % (2 * p) * q
    ensures OneBit(kind, y).1 == (x / (if kind == LSL then q else p) % 2 == 1)
  {
    match kind
    case LSL => LeftStep(x, q, p, y);
    case LSR => Twice(x, p); DivShrinks(x, p);
    case ASR => SignStep(x, p, q, y);
    case ROR => RotateStep(x, p, q, y);
  }

  /** n one-bit shifts, for n up to 32. */
  lemma {:induction false} IterateForm(kind: ShiftKind, n: nat, x: Word, c: bool)
    requires n <= 32
    ensures Iterate(kind, n, x, c) == (Form(kind, x, n), if n == 0 then c else Falling(kind, x, n - 1))
  {
    if n == 0 {
      FormZero(kind, x);
    } else {
      IterateForm(kind, n - 1, x, c);
      FormStep(kind, x, n - 1);
    }
  }

  lemma FormZero(kind: ShiftKind, x: Word)
    ensures Form(kind, x, 0) == x
    ensures Form(kind, x, 32) == match kind
                                 case LSL => 0 case LSR => 0
                                 case ASR => if x >= 0x8000_0000 then 0xFFFF_FFFF else 0
                                 case ROR => x
  {
    assert Pow2(0) == 1 && Pow2(32) == 0x1_0000_0000 by { Pow2Values(); }
    DivModUnique(x, 1, x, 0);
    DivModUnique(x, 0x1_0000_0000, 0, x);
  }

  /** Past 32 shifts the word stays 0 or all sign bits. */
  lemma {:induction false} IterateLong(kind: ShiftKind, n: nat, x: Word, c: bool)
    requires n > 32 && kind != ROR
    ensures Iterate(kind, n, x, c)
         == if kind == ASR && x >= 0x8000_0000 then (0xFFFF_FFFF, true) else (0, false)
  {
    hide Form, Falling;
    FormZero(kind, x);
    if n == 33 {
      IterateForm(kind, 32, x, c);
    } else {
      IterateLong(kind, n - 1, x, c);
    }
  }

  /** A rotation starts again after 32 steps. */
  lemma {:induction false} IterateRotate(n: nat, x: Word, c: bool)
    requires n >= 32
    ensures Iterate(ROR, n, x, c)
         == (Form(ROR, x, n % 32), if n % 32 == 0 then Falling(ROR, x, 31) else Falling(ROR, x, n % 32 - 1))
  {
    hide Form, Falling, OneBit;
    FormZero(ROR, x);
    if n == 32 {
      IterateForm(ROR, 32, x, c);
    } else {
      IterateRotate(n - 1, x, c);
      FormStep(ROR, x, (n - 1) % 32);
    }
  }

  // ----- the shifter computes these forms -----

  lemma ShiftProducts(n: nat)
    requires n <= 32
    ensures Pow2(n) * Pow2(32 - n) == 0x1_0000_0000
  {
    hide Pow2;
    Pow2Add(n, 32 - n);
    Pow2Values();
  }

  lemma TopPart(x: nat, p: nat, q: nat, m: nat)
    requires p > 0 && q > 0 && p * q == m
    ensures x * q % m == x % p * q && x % p * q % q == 0
  {
    ProductModulo(x, p, q);
    DivModUnique(x % p * q, q, x % p, 0);
  }

  lemma LslIsForm(x: Word, n: nat)
    requires n <= 32
    ensures Lsl(x, n) == Form(LSL, x, n)
    ensures Lsl(x, n) % Pow2(n) == 0
  {
    hide Pow2;
    ShiftProducts(n);
    TopPart(x, Pow2(32 - n), Pow2(n), 0x1_0000_0000);
  }

  lemma LsrIsForm(x: Word, n: nat)
    requires n <= 32
    ensures Lsr(x, n) == Form(LSR, x, n) < Pow2(32 - n)
  {
    hide Pow2;
    ShiftProducts(n);
    QuotientBound(x, Pow2(n), Pow2(32 - n));
  }

  /** The two halves of a rotation, and of an arithmetic shift, do not overlap. */
  lemma OrAbove(low: Word, high: Word, k: nat)
    requires low < Pow2(k) && high % Pow2(k) == 0
    ensures Orr(low, high) == low + high
  {
    hide Pow2, BitOr;
    OrDisjoint(low, high, k);
  }

  lemma RorIsForm(x: Word, n: nat)
    requires 0 < n < 32
    ensures Ror(x, n) == Form(ROR, x, n)
  {
    hide Pow2, Orr, Lsl, Lsr;
    LsrIsForm(x, n);
    LslIsForm(x, 32 - n);
    OrAbove(Lsr(x, n), Lsl(x, 32 - n), 32 - n);
  }

  lemma AsrIsForm(x: Word, n: nat)
    requires 0 < n < 32
    ensures Asr(x, n) == Form(ASR, x, n)
  {
    hide Pow2, Orr, Lsl, Lsr, Bit;
    TopBit(x);
    LsrIsForm(x, n);
    LslIsForm(0xFFFF_FFFF, 32 - n);
    ShiftProducts(n);
    AllOnes(Pow2(n), Pow2(32 - n));
    OrAbove(Lsr(x, n), if x >= 0x8000_0000 then Lsl(0xFFFF_FFFF, 32 - n) else 0, 32 - n);
  }

  lemma ShiftsAreForms(x: Word, n: nat)
    requires 0 < n < 32
    ensures Lsl(x, n) == Form(LSL, x, n)
    ensures Lsr(x, n) == Form(LSR, x, n)
    ensures Asr(x, n) == Form(ASR, x, n)
    ensures Ror(x, n) == Form(ROR, x, n)
  {
    hide Form, Lsl, Lsr, Asr, Ror;
    LslIsForm(x, n);
    LsrIsForm(x, n);
    AsrIsForm(x, n);
    RorIsForm(x, n);
  }

  lemma AllOnes(p: nat, q: nat)
    requires p > 0 && q > 0 && p * q == 0x1_0000_0000
    ensures 0xFFFF_FFFF % p * q == 0x1_0000_0000 - q
  {
    assert 0xFFFF_FFFF == p * (q - 1) + (p - 1);
    DivModUnique(0xFFFF_FFFF, p, q - 1, p - 1);
  }

  lemma TopBit(x: Word)
    ensures Bit(x, 31) == if x >= 0x8000_0000 then 1 else 0
    ensures Bit(x, 0) == x % 2 && Lsr(x, 1) == x / 2
  {
    hide Pow2;
    Pow2Values();
  }

  // ----- main results -----

  /** A shift by register is its low byte's number of one-bit shifts. */
  lemma RegisterShiftIsIterated(kind: ShiftKind, rm: Word, rs: Byte, c: bool)
    ensures RegisterShift(kind, rm, rs, c) == Iterate(kind, rs, rm, c)
  {
    hide Form, OneBit, Iterate, Bit, Lsl, Lsr, Asr, Ror;
    TopBit(rm);
    FormZero(kind, rm);
    if rs <= 32 {
      IterateForm(kind, rs, rm, c);
    } else if kind == ROR {
      IterateRotate(rs, rm, c);
    } else {
      IterateLong(kind, rs, rm, c);
    }
    if 0 < rs % 32 {
      ShiftsAreForms(rm, rs % 32);
    }
  }

  /** An immediate is a register's low byte in disguise: 0 stands for 32 in LSR and ASR. */
  lemma ImmediateIsRegister(kind: ShiftKind, rm: Word, imm: nat, c: bool)
    requires imm < 32 && (imm > 0 || kind != ROR)
    ensures ImmediateShift(kind, rm, imm, c)
         == RegisterShift(kind, rm, if imm == 0 && kind != LSL then 32 else imm, c)
  {
    hide Lsl, Lsr, Asr, Ror, Bit, SignFill;
  }

  /** A shift by immediate is that many one-bit shifts, except that LSR #0 and ASR #0 stand for 32 and
      ROR #0 for one step of the 33-bit rotation through the carry. */
  lemma ImmediateShiftIsIterated(kind: ShiftKind, rm: Word, imm: nat, c: bool)
    requires imm < 32
    ensures imm > 0 || kind == LSL ==> ImmediateShift(kind, rm, imm, c) == Iterate(kind, imm, rm, c)
    ensures imm == 0 && (kind == LSR || kind == ASR) ==> ImmediateShift(kind, rm, imm, c) == Iterate(kind, 32, rm, c)
    ensures imm == 0 && kind == ROR ==> Joined(ImmediateShift(kind, rm, imm, c)) == Rotate33(Joined((rm, c)))
  {
    hide ImmediateShift, RegisterShift, Iterate, Joined, Rotate33;
    if imm == 0 && kind == ROR {
      RotateThroughCarry(rm, c);
    } else {
      ImmediateIsRegister(kind, rm, imm, c);
      RegisterShiftIsIterated(kind, rm, if imm == 0 && kind != LSL then 32 else imm, c);
    }
  }

  /** The carry as bit 32 above the word. */
  function Joined(s: Shifted): nat {
    s.0 + (if s.1 then 0x1_0000_0000 else 0)
  }

  /** Rotate 33 bits right by one. */
  function Rotate33(v: nat): nat {
    v / 2 + v % 2 * 0x1_0000_0000
  }

  lemma RotateThroughCarry(rm: Word, c: bool)
    ensures Joined(ImmediateShift(ROR, rm, 0, c)) == Rotate33(Joined((rm, c)))
  {
    hide Orr, Lsr, Bit;
    TopBit(rm);
    OrTop(rm / 2);
  }

  lemma OrTop(y: Word)
    requires y < 0x8000_0000
    ensures Orr(0x8000_0000, y) == 0x8000_0000 + y && Orr(0, y) == y
  {
    assert y < Pow2(31) && 0x8000_0000 % Pow2(31) == 0 by { Pow2Values(); }
    OrDisjoint(y, 0x8000_0000, 31);
    OrZero(y);
  }

  /** The operand and carry of a rotated immediate byte are those of rotating it one bit at a time. */
  lemma RotatedImmediateIsIterated(imm: Byte, rot: nat, c: bool)
    requires rot < 16
    ensures var operand := Ror(imm, rot * 2);
      (operand, if rot == 0 then c else operand >= 0x8000_0000) == Iterate(ROR, rot * 2, imm, c)
  {
    hide Ror, Bit;
    RegisterShiftIsIterated(ROR, imm, rot * 2, c);
    RotateByZero(imm);
  }

  lemma RotateByZero(x: Word)
    ensures Ror(x, 0) == x
  {
    assert Pow2(0) == 1;
    DivModUnique(x, 1, x, 0);
    OrZero(x);
  }

  /** The two shifters agree: a scaled register offset is the operand of the same shift by immediate. */
  lemma ShiftersAgree(kind: ShiftKind, rm: Word, imm: nat, c: bool)
    requires imm < 32
    ensures ShiftOperation(kind, rm, imm, c) == ImmediateShift(kind, rm, imm, c).0
  {
    hide Lsr, Asr, Ror, Orr, Bit, Pow2;
    TopBit(rm);
    assert Pow2(0) == 1 by { Pow2Values(); }
  }

  // ----- shifts as arithmetic -----

  /** The shift that bits 6 and 5 of an instruction ask for (0 left, 1 right, 2 arithmetic right, 3 rotation), by n: its
      operand and carry as arithmetic on the whole word. */
  function ShiftBy(bits: nat, x: Word, n: nat, c: bool): Shifted
    requires bits < 4
  {
    if n == 0 then (x, c)
    else if bits == 0 then (Wrap(x * Pow2(n)), n <= 32 && Bit(x, 32 - n) == 1)
    else if bits == 1 then (Wrap(x / Pow2(n)), Bit(x, n - 1) == 1)
    else if bits == 2 then (Wrap(Signed(x) / Pow2(n)), Signed(x) / Pow2(n - 1) % 2 == 1)
    else
      var m := n % 32;
      (Wrap(x / Pow2(m) + x % Pow2(m) * Pow2(32 - m)), Bit(x, (n - 1) % 32) == 1)
  }

  /** The same by an immediate, where 0 stands for 32 in right shifts and for one step through the carry in rotations. */
  function ShiftByImmediate(bits: nat, x: Word, imm: nat, c: bool): Shifted
    requires bits < 4 && imm < 32
  {
    if bits == 3 && imm == 0 then (x / 2 + (if c then 0x8000_0000 else 0), x % 2 == 1)
    else ShiftBy(bits, x, if imm == 0 && bits != 0 then 32 else imm, c)
  }

  function KindOf(bits: nat): ShiftKind
    requires bits < 4
  {
    if bits == 0 then LSL else if bits == 1 then LSR else if bits == 2 then ASR else ROR
  }

  /** From 2^32 on a divisor leaves nothing of a word but its sign. */
  lemma LargeDivisor(x: Word, n: nat)
    requires n >= 32
    ensures x / Pow2(n) == 0 && Wrap(x * Pow2(n)) == 0
    ensures Signed(x) / Pow2(n) == if x >= 0x8000_0000 then -1 else 0
  {
    hide Pow2;
    var p := Pow2(n - 32);
    Pow2Values();
    Pow2Add(32, n - 32);
    LargeQuotient(x, p, Pow2(n));
  }

  lemma LargeQuotient(x: Word, p: nat, d: nat)
    requires p > 0 && d == 0x1_0000_0000 * p
    ensures x / d == 0 && Wrap(x * d) == 0 && Signed(x) / d == if x >= 0x8000_0000 then -1 else 0
  {
    MulMono(1, p, 0x1_0000_0000);
    DivModUnique(x, d, 0, x);
    assert x * d == 0x1_0000_0000 * (x * p);
    DivModUnique(x * d, 0x1_0000_0000, x * p, 0);
    if x >= 0x8000_0000 {
      DivModUnique(x - 0x1_0000_0000, d, -1, x - 0x1_0000_0000 + d);
    }
  }

  /** Dividing the signed value, with p * q == 2^32. */
  lemma SignedQuotient(x: Word, p: nat, q: nat)
    requires p > 0 && q > 0 && p * q == 0x1_0000_0000
    ensures Signed(x) / p == if x >= 0x8000_0000 then x / p - q else x / p
    ensures 0 <= x / p < q
  {
    QuotientBound(x, p, q);
    if x >= 0x8000_0000 {
      assert x == p * (x / p) + x % p;
      assert p * (x / p - q) == p * (x / p) - p * q;
      DivModUnique(x - 0x1_0000_0000, p, x / p - q, x % p);
    }
  }

  lemma SignedShift(x: Word, n: nat, c: bool)
    requires 0 < n <= 32
    ensures ShiftBy(2, x, n, c) == (Form(ASR, x, n), Bit(x, n - 1) == 1)
  {
    hide Pow2, Wrap;
    ShiftProducts(n);
    ShiftProducts(n - 1);
    SignedQuotient(x, Pow2(n), Pow2(32 - n));
    SignedQuotient(x, Pow2(n - 1), Pow2(33 - n));
    Pow2Double(32 - n);
    assert 33 - n == 32 - n + 1 && 32 - (n - 1) == 33 - n;
    var q, r := Pow2(32 - n), x / Pow2(n);
    assert q <= 0x1_0000_0000 by { MulMono(1, Pow2(n), q); }
    WrapSmallNegative(r, q);
    if x < 0x8000_0000 {
      WrapWord(r);
    } else {
      EvenDifference(x / Pow2(n - 1), q);
    }
  }

  lemma Pow2Double(n: nat)
    ensures Pow2(n + 1) == 2 * Pow2(n)
  {
  }

  lemma WrapSmallNegative(r: nat, q: nat)
    requires r < q <= 0x1_0000_0000
    ensures Wrap(r - q) == r - q + 0x1_0000_0000
  {
  }

  lemma EvenDifference(a: nat, q: nat)
    ensures (a - 2 * q) % 2 == a % 2
  {
  }

  lemma RotationFits(x: Word, n: nat)
    requires n < 32
    ensures Wrap(Form(ROR, x, n)) == Form(ROR, x, n)
  {
    hide Form, OneBit, Falling;
    FormStep(ROR, x, n);
  }

  /** n one-bit shifts are one division, multiplication or rotation, for every n. */
  lemma ShiftByIsIterated(bits: nat, x: Word, n: nat, c: bool)
    requires bits < 4
    ensures ShiftBy(bits, x, n, c) == Iterate(KindOf(bits), n, x, c)
  {
    if n == 0 {
    } else if bits == 3 {
      RotationIsIterated(x, n, c);
    } else if n <= 32 {
      ShortShift(bits, x, n, c);
    } else {
      LongShift(bits, x, n, c);
    }
  }

  lemma RotationIsIterated(x: Word, n: nat, c: bool)
    requires n > 0
    ensures ShiftBy(3, x, n, c) == Iterate(ROR, n, x, c)
  {
    hide Iterate, Form, ShiftBy, Bit;
    RotationForm(x, n, c);
    StepBefore(n);
    if n < 32 {
      IterateForm(ROR, n, x, c);
    } else {
      IterateRotate(n, x, c);
    }
  }

  lemma RotationForm(x: Word, n: nat, c: bool)
    requires n > 0
    ensures ShiftBy(3, x, n, c) == (Form(ROR, x, n % 32), Bit(x, (n - 1) % 32) == 1)
  {
    hide Pow2, Bit, Wrap;
    RotationFits(x, n % 32);
  }

  lemma StepBefore(n: nat)
    requires n > 0
    ensures (n - 1) % 32 == if n % 32 == 0 then 31 else n % 32 - 1
    ensures n < 32 ==> n % 32 == n
  {
  }

  lemma ShortShift(bits: nat, x: Word, n: nat, c: bool)
    requires bits < 3 && 0 < n <= 32
    ensures ShiftBy(bits, x, n, c) == Iterate(KindOf(bits), n, x, c)
  {
    hide Iterate, Pow2, Bit, Wrap;
    IterateForm(KindOf(bits), n, x, c);
    if bits == 0 {
      LslIsForm(x, n);
      assert Lsl(x, n) == Wrap(x * Pow2(n)) by { LslWraps(x, n); }
    } else if bits == 1 {
      LsrIsForm(x, n);
      WrapWord(Lsr(x, n));
    } else {
      SignedShift(x, n, c);
    }
  }

  lemma LslWraps(x: Word, n: nat)
    ensures Lsl(x, n) == Wrap(x * Pow2(n))
  {
    hide Pow2;
  }

  lemma LongShift(bits: nat, x: Word, n: nat, c: bool)
    requires bits < 3 && n > 32
    ensures ShiftBy(bits, x, n, c) == Iterate(KindOf(bits), n, x, c)
  {
    hide Iterate, Pow2;
    IterateLong(KindOf(bits), n, x, c);
    LargeDivisor(x, n);
    LargeDivisor(x, n - 1);
  }

  /** The code's shifts, by register and by immediate, as arithmetic. */
  lemma ShiftsAreArithmetic(bits: nat, x: Word, n: nat, c: bool)
    requires bits < 4
    ensures n < 0x100 ==> RegisterShift(KindOf(bits), x, n, c) == ShiftBy(bits, x, n, c)
    ensures n < 32 ==> ImmediateShift(KindOf(bits), x, n, c) == ShiftByImmediate(bits, x, n, c)
  {
    hide RegisterShift, ImmediateShift, ShiftBy, Iterate;
    if n < 0x100 {
      RegisterShiftIsIterated(KindOf(bits), x, n, c);
      ShiftByIsIterated(bits, x, n, c);
    }
    if n < 32 {
      if n == 0 && bits == 3 {
        ThroughCarry(x, c);
      } else {
        ImmediateShiftIsIterated(KindOf(bits), x, n, c);
        ShiftByIsIterated(bits, x, if n == 0 && bits != 0 then 32 else n, c);
      }
    }
  }

  lemma ThroughCarry(x: Word, c: bool)
    ensures ImmediateShift(ROR, x, 0, c) == (x / 2 + (if c then 0x8000_0000 else 0), x % 2 == 1)
  {
    hide Orr, Lsr, Bit;
    TopBit(x);
    OrTop(x / 2);
  }
}
