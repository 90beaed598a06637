/** arm_instruction.c: the condition field, the decoder and the step of the simulator. */
module Instruction {
  import opened Bits
  import opened Decode
  import opened Core
  import opened DataProcessing
  import LoadStore
  import LoadStoreMultiple
  import BranchOther
  import Exceptions

  /** instruction_cond; the last code, 15, is not a condition. */
  predicate Passes(cpsr: bv32, cond: nat) {
    var n, z, c, v := FlagN(cpsr), FlagZ(cpsr), FlagC(cpsr), FlagV(cpsr);
    if cond == 0 then z
    else if cond == 1 then !z
    else if cond == 2 then c
    else if cond == 3 then !c
    else if cond == 4 then n
    else if cond == 5 then !n
    else if cond == 6 then v
    else if cond == 7 then !v
    else if cond == 8 then c && !z
    else if cond == 9 then !c || z
    else if cond == 10 then n == v
    else if cond == 11 then n != v
    else if cond == 12 then !z && n == v
    else if cond == 13 then z || n != v
    else cond == 14
  }

  /** The switch of arm_execute_instruction on bits 27 to 25. */
  function Dispatch(s: State, ins: Word, g: Garbage): (State, int) {
    match Class(ins)
    case 0 =>
      if Bit4(ins) && Bit7(ins) then LoadStore.LoadOrStore(s, ins, g)
      else if Bit24(ins) && !Bit23(ins) && !Bit20(ins) then BranchOther.Miscellaneous(s, ins)
      else ProcessShift(s, ins)
    case 1 => ProcessImmediateOrMsr(s, ins)
    case 2 => LoadStore.LoadOrStore(s, ins, g)
    case 3 => if !Bit4(ins) then LoadStore.LoadOrStore(s, ins, g) else (s, UNDEFINED_INSTRUCTION)
    case 4 => LoadStoreMultiple.Multiple(s, ins, g)
    case 5 => BranchOther.Branch(s, ins)
    case 6 => (s, UNDEFINED_INSTRUCTION)
    case _ => (s, BranchOther.SoftwareInterrupt(ins))
  }

  /** arm_execute_instruction. */
  function Execute(s: State, g: Garbage): (State, int) {
    var (s1, ins) := Fetch(s, g);
    if Passes(s1.regs.cpsr, Cond(ins)) then Dispatch(s1, ins, g) else (s1, SUCCESSFULLY_DECODED)
  }

  /** arm_step. */
  function Step(s: State, g: Garbage): (State, int) {
    var (s1, code) := Execute(s, g);
    if code != 0 then Exceptions.Exception(s1, code % 0x100, g) else (s1, code)
  }

  method ArmDispatch(p: ArmCore, ins: Word, g: Garbage) returns (code: int)
    requires p.Valid()
    modifies p.Repr()
    ensures (p.Abs(), code) == Dispatch(old(p.Abs()), ins, g)
  {
    hide LoadStore.LoadOrStore, LoadStoreMultiple.Multiple, BranchOther.Branch, BranchOther.Miscellaneous,
      ProcessShift, ProcessImmediateOrMsr;
    code := UNDEFINED_INSTRUCTION;
    match Class(ins) {
      case 0 =>
        if Bit4(ins) && Bit7(ins) {
          code := LoadStore.ArmLoadStore(p, ins, g);
        } else if Bit24(ins) && !Bit23(ins) && !Bit20(ins) {
          if !Bit4(ins) || !Bit7(ins) {
            code := BranchOther.ArmMiscellaneous(p, ins);
          }
        } else {
          code := ArmProcessShift(p, ins);
        }
      case 1 =>
        code := ArmProcessImmediateOrMsr(p, ins);
      case 2 =>
        code := LoadStore.ArmLoadStore(p, ins, g);
      case 3 =>
        if !Bit4(ins) {
          code := LoadStore.ArmLoadStore(p, ins, g);
        }
      case 4 =>
        code := LoadStoreMultiple.ArmLoadStoreMultiple(p, ins, g);
      case 5 =>
        code := BranchOther.ArmBranch(p, ins);
      case 6 =>
        code := UNDEFINED_INSTRUCTION;
      case _ =>
        code := BranchOther.SoftwareInterrupt(ins);
    }
  }

  method ArmExecuteInstruction(p: ArmCore, g: Garbage) returns (code: int)
    requires p.Valid()
    modifies p.Repr()
    ensures (p.Abs(), code) == Execute(old(p.Abs()), g)
  {
    hide Dispatch, Passes, Fetch;
    var ins := p.FetchWord(g);
    var cpsr := p.ReadCpsr();
    if !Passes(cpsr, Cond(ins)) {
      return 0;
    }
    code := ArmDispatch(p, ins, g);
  }

  method ArmStep(p: ArmCore, g: Garbage) returns (code: int)
    requires p.Valid()
    modifies p.Repr()
    ensures (p.Abs(), code) == Step(old(p.Abs()), g)
  {
    hide Execute, Exceptions.Exception;
    code := ArmExecuteInstruction(p, g);
    if code != 0 {
      code := Exceptions.ArmException(p, code % 0x100, g);
    }
  }
}
