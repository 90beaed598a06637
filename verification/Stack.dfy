/** Full descending stacks kept with STR Rd, [Rn, #-4]! and LDR Rd, [Rn], #4: any run of pushes and pops
    behaves like an abstract stack. */
module Stack {
  import opened Bits
  import opened Decode
  import opened Registers
  import opened Memory
  import opened Core
  import opened LoadStore
  import opened Instruction
  import Exceptions

  /** One step of a run: push a value through a register, or pop into one. */
  datatype StackOp = Push(rd: RegNumber, value: Word) | Pop(rd: RegNumber)

  type RegNumber = r: int | 0 <= r < 16

  /** STR Rd, [Rn, #-4]! */
  function PushWord(rn: RegNumber, rd: RegNumber): Word
  {
    0xE520_0004 + rn * 0x1_0000 + rd * 0x1000
  }

  /** LDR Rd, [Rn], #4 */
  function PopWord(rn: RegNumber, rd: RegNumber): Word
  {
    0xE490_0004 + rn * 0x1_0000 + rd * 0x1000
  }

  /** The registers a run may use: the data registers are neither the base nor the PC. */
  predicate Usable(rn: RegNumber, rd: RegNumber, mode: bv8) {
    rn < 15 && rd < 15 && rn != rd && Mapped(rn, mode) && Mapped(rd, mode)
  }

  function StepOp(s: State, rn: RegNumber, op: StackOp, g: Garbage): (State, seq<Word>)
  {
    match op
    case Push(rd, v) => (Dispatch(SetReg(s, rd, v), PushWord(rn, rd), g).0, [])
    case Pop(rd) =>
      var s1 := Dispatch(s, PopWord(rn, rd), g).0;
      (s1, [Reg(s1, rd)])
  }

  /** The simulator's run, with the values popped in order. */
  function Run(s: State, rn: RegNumber, ops: seq<StackOp>, g: Garbage): (State, seq<Word>)
    decreases |ops|
  {
    if ops == [] then (s, [])
    else
      var (s1, popped) := StepOp(s, rn, ops[0], g);
      var (s2, rest) := Run(s1, rn, ops[1..], g);
      (s2, popped + rest)
  }

  /** No pop of an empty stack, and never more than `cap` elements. */
  predicate Fits(depth: nat, ops: seq<StackOp>, cap: nat)
    decreases |ops|
  {
    depth <= cap
    && (ops != [] ==>
          if ops[0].Push? then Fits(depth + 1, ops[1..], cap) else depth > 0 && Fits(depth - 1, ops[1..], cap))
  }

  /** The run of an abstract stack, whose last element is its top. */
  function AbstractRun(stack: seq<Word>, ops: seq<StackOp>, cap: nat): (seq<Word>, seq<Word>)
    requires Fits(|stack|, ops, cap)
    decreases |ops|
  {
    if ops == [] then (stack, [])
    else if ops[0].Push? then
      AbstractRun(stack + [ops[0].value], ops[1..], cap)
    else
      var (final, rest) := AbstractRun(stack[..|stack| - 1], ops[1..], cap);
      (final, [stack[|stack| - 1]] + rest)
  }

  /** Where element number k of the stack lives. */
  function Place(base: int, k: nat): int {
    base - 4 * (k + 1)
  }

  /** The concrete state represents the abstract stack. */
  predicate Represents(s: State, rn: RegNumber, base: int, stack: seq<Word>) {
    4 * |stack| <= base <= |s.mem|
    && Reg(s, rn) == Wrap(base - 4 * |stack|)
    && forall k: nat :: k < |stack| ==> Place(base, k) >= 0 && LoadWord(s.mem, Place(base, k), s.be) == Some(stack[k])
  }

  /** What a run leaves alone: the mode, the memory outside the stack, and the registers it does not use. */
  predicate Frame(s: State, t: State, rn: RegNumber, used: set<RegNumber>, low: int, base: int) {
    t.regs.cpsr == s.regs.cpsr && t.be == s.be && |t.mem| == |s.mem|
    && (forall i :: 0 <= i < |s.mem| && !(low <= i < base) ==> t.mem[i] == s.mem[i])
    && (forall q: RegNumber :: q != rn && q !in used ==> Reg(t, q) == Reg(s, q))
  }

  lemma PushDecodes(rn: RegNumber, rd: RegNumber)
    ensures var w := PushWord(rn, rd);
      Class(w) == 2 && Bit24(w) && !Bit23(w) && !Bit22(w) && Bit21(w) && !Bit20(w)
      && RnField(w) == rn && RdField(w) == rd && Low12(w) == 4
  {
    hide Class, Bit24, Bit23, Bit22, Bit21, Bit20, RnField, RdField, Low12;
    FieldsOf(PushWord(rn, rd), 0xE52, rn, rd);
  }

  lemma PopDecodes(rn: RegNumber, rd: RegNumber)
    ensures var w := PopWord(rn, rd);
      Class(w) == 2 && !Bit24(w) && Bit23(w) && !Bit22(w) && !Bit21(w) && Bit20(w)
      && RnField(w) == rn && RdField(w) == rd && Low12(w) == 4
  {
    hide Class, Bit24, Bit23, Bit22, Bit21, Bit20, RnField, RdField, Low12;
    FieldsOf(PopWord(rn, rd), 0xE49, rn, rd);
  }

  /** The fields of a word with 12 given bits at the top, two registers and an offset of 4. */
  lemma FieldsOf(w: Word, top: nat, rn: RegNumber, rd: RegNumber)
    requires top < 0x1000 && w == top * 0x10_0000 + rn * 0x1_0000 + rd * 0x1000 + 4
    ensures Bit20(w) == (top % 2 == 1) && Bit21(w) == (top / 2 % 2 == 1) && Bit22(w) == (top / 4 % 2 == 1)
    ensures Bit23(w) == (top / 8 % 2 == 1) && Bit24(w) == (top / 16 % 2 == 1) && Class(w) == top / 32 % 8
    ensures RnField(w) == rn && RdField(w) == rd && Low12(w) == 4
  {
    assert w / 0x10_0000 == top && w / 0x20_0000 == top / 2 && w / 0x40_0000 == top / 4;
    assert w / 0x80_0000 == top / 8 && w / 0x100_0000 == top / 16 && w / 0x200_0000 == top / 32;
    assert w / 0x1_0000 == top * 16 + rn;
    assert w / 0x1000 == top * 0x100 + rn * 16 + rd;
  }

  lemma SingleDispatch(s: State, ins: Word, g: Garbage)
    requires Class(ins) == 2
    ensures Dispatch(s, ins, g) == LoadOrStore(s, ins, g)
  {
    hide LoadOrStore, Class;
  }

  lemma PushEffect(s: State, rn: RegNumber, rd: RegNumber, v: Word, g: Garbage)
    requires Usable(rn, rd, Mode(s))
    ensures var a := Wrap(Reg(s, rn) - 4);
      StepOp(s, rn, Push(rd, v), g) == (SetWord(SetReg(SetReg(s, rd, v), rn, a), a, v), [])
  {
    hide Class, Bit24, Bit23, Bit22, Bit21, Bit20, RnField, RdField, Low12, PushWord, Dispatch;
    PushDecodes(rn, rd);
    var s1 := SetReg(s, rd, v);
    SingleDispatch(s1, PushWord(rn, rd), g);
    SetThenGet(s, rd, v, rn);
    SetThenGet(s, rd, v, rd);
    SetThenGet(s1, rn, Wrap(Reg(s, rn) - 4), rd);
  }

  lemma PopEffect(s: State, rn: RegNumber, rd: RegNumber, g: Garbage)
    requires Usable(rn, rd, Mode(s))
    ensures var a := Reg(s, rn);
      StepOp(s, rn, Pop(rd), g)
      == (SetReg(SetReg(s, rn, Wrap(a + 4)), rd, WordAt(s, a, g(rd))), [WordAt(s, a, g(rd))])
  {
    hide Class, Bit24, Bit23, Bit22, Bit21, Bit20, RnField, RdField, Low12, PopWord, Dispatch;
    PopDecodes(rn, rd);
    SingleDispatch(s, PopWord(rn, rd), g);
    var a: Word := Reg(s, rn);
    var s1 := SetReg(s, rn, Wrap(a + 4));
    SetThenGet(s1, rd, WordAt(s, a, g(rd)), rd);
  }

  lemma PushStep(s: State, rn: RegNumber, rd: RegNumber, v: Word, g: Garbage, base: int, stack: seq<Word>)
    requires Usable(rn, rd, Mode(s))
    requires Represents(s, rn, base, stack) && 4 * (|stack| + 1) <= base
    ensures var (t, popped) := StepOp(s, rn, Push(rd, v), g);
      popped == [] && Represents(t, rn, base, stack + [v]) && Frame(s, t, rn, {rd}, base - 4 * (|stack| + 1), base)
  {
    hide StepOp, Store, LoadWord, Read, Write, ModeOf, Mapped, Wrap;
    PushEffect(s, rn, rd, v, g);
    var a: Word := Wrap(Reg(s, rn) - 4);
    WrapWrap(base - 4 * |stack|, -4);
    WrapWord(Place(base, |stack|));
    assert a == Place(base, |stack|);
    var s1 := SetReg(s, rd, v);
    var s2 := SetReg(s1, rn, a);
    var t := SetWord(s2, a, v);
    forall q: RegNumber
      ensures Reg(t, q) == if q == rn then a else if q == rd then v else Reg(s, q)
    {
      SetThenGet(s, rd, v, q);
      SetThenGet(s1, rn, a, q);
    }
    SetRegKeeps(s, rd, v);
    SetRegKeeps(s1, rn, a);
    WordAfterStore(s.mem, a, v, s.be);
    BytesOutsideStore(s.mem, a, v, s.be);
    forall k: nat | k < |stack|
      ensures LoadWord(t.mem, Place(base, k), s.be) == Some(stack[k])
    {
      WordElsewhere(s.mem, a, v, Place(base, k), s.be);
    }
  }

  lemma PopStep(s: State, rn: RegNumber, rd: RegNumber, g: Garbage, base: int, stack: seq<Word>)
    requires Usable(rn, rd, Mode(s))
    requires Represents(s, rn, base, stack) && stack != []
    ensures var (t, popped) := StepOp(s, rn, Pop(rd), g);
      popped == [stack[|stack| - 1]]
      && Represents(t, rn, base, stack[..|stack| - 1]) && Frame(s, t, rn, {rd}, base, base)
  {
    hide StepOp, LoadWord, Read, Write, ModeOf;
    PopEffect(s, rn, rd, g);
    var n := |stack| - 1;
    var a: Word := Reg(s, rn);
    assert a == Place(base, n);
    var v := stack[n];
    var s1 := SetReg(s, rn, Wrap(a + 4));
    var t := SetReg(s1, rd, v);
    forall q: RegNumber
      ensures Reg(t, q) == if q == rd then v else if q == rn then Wrap(a + 4) else Reg(s, q)
    {
      SetThenGet(s, rn, Wrap(a + 4), q);
      SetThenGet(s1, rd, v, q);
    }
    SetRegKeeps(s, rn, Wrap(a + 4));
    SetRegKeeps(s1, rd, v);
  }

  /** Any run of pushes and pops that respects an abstract stack behaves like it. */
  lemma {:induction false} RunRefinesStack(s: State, rn: RegNumber, ops: seq<StackOp>, g: Garbage, base: int, cap: nat,
                                           stack: seq<Word>)
    requires forall op :: op in ops ==> Usable(rn, op.rd, Mode(s))
    requires Represents(s, rn, base, stack) && Fits(|stack|, ops, cap) && 4 * cap <= base
    ensures var (t, popped) := Run(s, rn, ops, g);
      var (final, expected) := AbstractRun(stack, ops, cap);
      popped == expected && Represents(t, rn, base, final)
      && Frame(s, t, rn, Used(ops), base - 4 * cap, base)
    decreases |ops|
  {
    hide StepOp, Represents, Usable, Reg, Dispatch;
    if ops != [] {
      var op := ops[0];
      var (s1, popped) := StepOp(s, rn, op, g);
      var next;
      if op.Push? {
        Underneath(s, rn, base, stack, cap);
        PushStep(s, rn, op.rd, op.value, g, base, stack);
        next := stack + [op.value];
      } else {
        PopStep(s, rn, op.rd, g, base, stack);
        next := stack[..|stack| - 1];
      }
      assert Fits(|next|, ops[1..], cap);
      var low := base - 4 * cap;
      assert Frame(s, s1, rn, Used(ops), low, base);
      RunRefinesStack(s1, rn, ops[1..], g, base, cap, next);
      var (t, rest) := Run(s1, rn, ops[1..], g);
      assert [] + rest == rest;
      FrameJoins(s, s1, t, rn, Used(ops), Used(ops[1..]), low, base);
    } else {
      assert Frame(s, s, rn, {}, base, base);
    }
  }

  lemma FrameJoins(s: State, s1: State, t: State, rn: RegNumber, used: set<RegNumber>, later: set<RegNumber>,
                   low: int, base: int)
    requires Frame(s, s1, rn, used, low, base) && Frame(s1, t, rn, later, low, base) && later <= used
    ensures Frame(s, t, rn, used, low, base)
  {
  }

  lemma Underneath(s: State, rn: RegNumber, base: int, stack: seq<Word>, cap: nat)
    requires Represents(s, rn, base, stack)
    ensures 4 * |stack| <= base <= |s.mem|
  {
  }

  function Used(ops: seq<StackOp>): set<RegNumber> {
    set op | op in ops :: op.rd
  }

  // ----- n pushes, then n pops -----

  function PushAll(rd: RegNumber, vs: seq<Word>): seq<StackOp> {
    if vs == [] then [] else [Push(rd, vs[0])] + PushAll(rd, vs[1..])
  }

  function PopAll(rd: RegNumber, n: nat): seq<StackOp> {
    if n == 0 then [] else [Pop(rd)] + PopAll(rd, n - 1)
  }

  lemma {:induction false} PopAllRun(stack: seq<Word>, rd: RegNumber, cap: nat)
    requires |stack| <= cap
    ensures Fits(|stack|, PopAll(rd, |stack|), cap)
    ensures AbstractRun(stack, PopAll(rd, |stack|), cap) == ([], Reversed(stack))
    decreases |stack|
  {
    if stack != [] {
      var top := stack[|stack| - 1];
      PopAllRun(stack[..|stack| - 1], rd, cap);
      ReversedConcat(stack[..|stack| - 1], [top]);
      assert stack == stack[..|stack| - 1] + [top] && Reversed([top]) == [top];
      assert PopAll(rd, |stack|)[1..] == PopAll(rd, |stack| - 1);
    }
  }

  lemma PushFirst(stack: seq<Word>, rd: RegNumber, v: Word, rest: seq<StackOp>, cap: nat)
    requires |stack| < cap && Fits(|stack| + 1, rest, cap)
    ensures Fits(|stack|, [Push(rd, v)] + rest, cap)
    ensures AbstractRun(stack, [Push(rd, v)] + rest, cap) == AbstractRun(stack + [v], rest, cap)
  {
    assert ([Push(rd, v)] + rest)[1..] == rest;
  }

  lemma {:induction false} PushAllRun(stack: seq<Word>, rd: RegNumber, vs: seq<Word>, rest: seq<StackOp>, cap: nat)
    requires |stack| + |vs| <= cap && Fits(|stack| + |vs|, rest, cap)
    ensures Fits(|stack|, PushAll(rd, vs) + rest, cap)
    ensures AbstractRun(stack, PushAll(rd, vs) + rest, cap) == AbstractRun(stack + vs, rest, cap)
    decreases |vs|
  {
    hide AbstractRun, Fits;
    if vs == [] {
      assert PushAll(rd, vs) + rest == rest && stack + vs == stack;
    } else {
      var later := PushAll(rd, vs[1..]) + rest;
      PushAllRun(stack + [vs[0]], rd, vs[1..], rest, cap);
      PushFirst(stack, rd, vs[0], later, cap);
      assert PushAll(rd, vs) + rest == [Push(rd, vs[0])] + later;
      assert stack + [vs[0]] + vs[1..] == stack + vs;
    }
  }

  lemma OnlyOneRegister(rd: RegNumber, vs: seq<Word>, n: nat)
    ensures forall op :: op in PushAll(rd, vs) + PopAll(rd, n) ==> op.rd == rd
  {
  }

  /** Last in, first out: n pushes and n pops return the values backwards, restore the base register, and
      change no memory outside the 4n bytes below it. */
  lemma LastInFirstOut(s: State, rn: RegNumber, rd: RegNumber, vs: seq<Word>, base: int, g: Garbage)
    requires Usable(rn, rd, Mode(s))
    requires Reg(s, rn) == Wrap(base) && 4 * |vs| <= base <= |s.mem|
    ensures var (t, popped) := Run(s, rn, PushAll(rd, vs) + PopAll(rd, |vs|), g);
      popped == Reversed(vs) && Reg(t, rn) == Reg(s, rn)
      && Frame(s, t, rn, {rd}, base - 4 * |vs|, base)
  {
    hide Run, Usable, Reg, AbstractRun, Fits, PushAll, PopAll, Reversed;
    var ops := PushAll(rd, vs) + PopAll(rd, |vs|);
    PopAllRun(vs, rd, |vs|);
    PushAllRun([], rd, vs, PopAll(rd, |vs|), |vs|);
    assert [] + vs == vs;
    OnlyOneRegister(rd, vs, |vs|);
    RunRefinesStack(s, rn, ops, g, base, |vs|, []);
  }

  /** A new processor has an empty stack at the end of its memory, in r13 of supervisor mode. */
  lemma CreatedStack(regs: RegisterFile, mem: Bytes, be: bool, g: Garbage)
    ensures var s := Exceptions.Create(regs, mem, be, g);
      Mode(s) == SVC && Pc(s) == 0 && s.mem == mem && Represents(s, 13, |mem|, [])
      && forall rd: RegNumber :: rd < 13 || rd == 14 ==> Usable(13, rd, Mode(s))
  {
    var s1 := Exceptions.Exception(State(regs, mem, 0, be), Core.RESET, g).0;
    assert Mode(s1) == SVC;
    SetThenGet(s1, 13, Wrap(|mem|), 13);
  }
}
