# A verified model of the ARMv5 simulator

The simulator executes ARMv5 instructions on a register file of 31 general registers seen through seven
modes, a CPSR, five saved status registers (SPSRs) and a memory of bytes. This project models that machine
and proves what its instructions, exceptions and whole runs do.

The machine has two views. The classes `RegisterBank`, `MemoryUnit` and `ArmCore` hold the fields the
simulator updates in place, and the methods on them (`Arm...`) follow the C functions branch by branch and
loop by loop. Each method is proved equal to a function on the value `Core.State`, and the laws are lemmas
about those functions.

What a whole step does is stated a second time, independently of the decoders: `Decoding`, `Operations` and
`Accesses` describe, for every instruction word, the effect of `Execute` in terms of literal bit fields of the word
(`ins / 0x20 % 4` is bits 6 and 5), arithmetic on whole words and single registers, and say exactly which words
are refused.

| file | what it holds |
|---|---|
| `Bits.dfy` | 32-bit values, shifts and bitwise operators on naturals below 2^32 |
| `Registers.dfy` | the banked register table, and its refinement of a file of 31 registers |
| `Memory.dfy` | loads and stores as positional values of byte strings, and the six access loops |
| `Core.dfy` | the state, access routed by mode and endianness, fetch |
| `Decode.dfy`, `Shifter.dfy`, `DataProcessing.dfy` | instruction fields, the barrel shifter, the sixteen operations, MSR |
| `LoadStore.dfy`, `SingleTransfers.dfy`, `Stack.dfy` | single transfers, their round trips, stacks |
| `LoadStoreMultiple.dfy`, `BlockTransfers.dfy`, `BlockStacks.dfy` | LDM and STM, save and restore, runs with write-back |
| `BranchOther.dfy`, `Exceptions.dfy`, `Instruction.dfy` | branches, SWI, MRS, exceptions, decoder and step |
| `Steps.dfy`, `Decoding.dfy`, `Operations.dfy`, `Accesses.dfy` | what a step does with every word, stated over the bits of the word |
| `Runs.dfy`, `Isolation.dfy`, `Programs.dfy` | whole runs, what cannot change, short programs |

Conventions:

- A `uint32_t` is a natural below 2^32 and arithmetic on it is reduced by `Wrap`; the CPSR and the SPSRs,
  on which the code only does bitwise work, are bit vectors. `Not(x)` and the masks of word-aligned PCs are
  written as the arithmetic they amount to.
- Where the C code reads a local that no read or assignment has set (a word that could not be fetched or
  loaded, or the address of an encoding that never computes one) the model takes the value from an arbitrary
  function `Garbage`, and every result holds for all of them. Two such reads may or may not give the same value.
- Endianness is a compile-time choice in the simulator and a field of the state here.
- Overflowing `int` sums in ADC, SBC and RSC wrap, and rotating by 0 leaves a word alone, as the usual
  compilers make them; the C standard leaves both undefined.

Where the code differs from the manual (ARM DDI 0100) or from its own comments, the model follows the code. A lemma
says exactly when the two agree, and another names an input on which they do not:

| what | when they agree | where they do not |
|---|---|---|
| value, V and C of ADC, SBC and RSC | `AdcIsExactWhen`, `SbcIsExactWhen` | `CarryArithmeticFails` |
| C of ADD and SUB, and the unsigned conditions | `Sums`, `Differences`, `UnsignedConditions` | `SumCarryFails`, `UnsignedConditionFails` |
| base register and addresses of block transfers with write-back | `WriteBackIsRightOnlyForIA`, `SaveThenRestoreThroughBase` | `UsualPairFails` |
| the SPSR, which a mere query overwrites: MRS, MSR, returns | `SpsrReadsAsCpsr`, `MsrSpsrMergesIntoCpsr`, `ReturnRestoresNothing`, `LoadAndReturnMeaning` | `SpsrFails` |
| the bank in which exceptions save link and CPSR | `ExceptionEntry`, `HandlerReturnsToItself` | `LinkIsFoundByChance`, `LinkIsLost` |

## Model

| member | source | states |
|---|---|---|
| Registers.RegisterBank.constructor | registers.c:90-123 | a new bank has all 96 slots, the CPSR and the five SPSRs at 0 |
| Registers.RegisterBank.ModeHasSpsr | registers.c:158-186 | answers for the five exception modes, and copies the CPSR into that mode's SPSR as it does |
| Registers.RegisterBank.InPrivilegedMode | registers.c:198-213 | true in the six privileged modes, false in USR and in every mode number that is no mode |
| Registers.RegisterBank.ReadRegister | registers.c:280-290 | the slot of that register and mode, or 0 when there is none |
| Registers.RegisterBank.WriteRegister | registers.c:338-345 | one slot changes, or none when the register does not exist in that mode |
| Registers.RegisterBank.ReadStatus | registers.c:304-333 | the mode's SPSR, or 0 |
| Registers.RegisterBank.WriteStatus | registers.c:358-386 | only the mode's SPSR changes, if it has one |
| Registers.ModeNumbers | registers.c:198-213 | the seven mode numbers; all but user mode are privileged, and all but user and system mode have an SPSR |
| Registers.ModeBits | registers.c:148-152 | the mode is the low five bits of the CPSR, whatever the others are |
| Registers.SpsrsAreSeparate | registers.c:304-386 | writing one mode's SPSR is seen in that mode and in no other |
| Registers.ThereAre31Registers | registers.c:40-44 | the physical registers named by a number and a bank are exactly 31 |
| Registers.SlotsAlias | registers.c:219-275 | two views of the table name one slot exactly when number and bank agree |
| Registers.ReadRefines | registers.c:280-290 | reading through any mode reads the abstract 31-register file |
| Registers.WriteRefines | registers.c:338-345 | writing through any mode updates one register of that file and no other |
| Registers.InvalidModeSeesUnbanked | registers.c:219-290 | outside the seven modes only r0 to r7 and the PC exist |
| Memory.MemoryUnit.ReadByte | memory.c:92-103 | the byte, or failure exactly when the address is outside memory, leaving the target alone |
| Memory.MemoryUnit.ReadHalf | memory.c:105-123 | the positional value of two bytes in the given endianness, or failure exactly when they do not fit |
| Memory.MemoryUnit.ReadWord | memory.c:125-145 | the shift-and-or loops compute the positional value of four bytes, or fail exactly when they do not fit |
| Memory.MemoryUnit.WriteByte | memory.c:147-157 | that byte changes and nothing else; failure changes nothing |
| Memory.MemoryUnit.WriteHalf | memory.c:159-175 | two bytes become the digits of the value; failure changes nothing |
| Memory.MemoryUnit.WriteWord | memory.c:177-197 | four bytes become the digits of the value; failure changes nothing |
| Memory.LoadAfterStore | memory.c:92-197 | for every width and endianness a store followed by a load returns the value and changes only those bytes |
| Memory.LoadElsewhere | memory.c:92-197 | items that do not overlap do not see each other's stores, whatever their widths and endianness |
| Memory.StoreWhatWasLoaded | memory.c:92-197 | storing back what was loaded leaves memory as it was |
| Memory.LoadInParts | memory.c:105-145 | an item is its two parts joined, the first the more significant when big endian |
| Memory.StoreInParts | memory.c:105-197 | an item stored in two parts reads back as their positional value |
| Memory.WordOfBytes | memory_test.c:89-106 | a word and its halves are the positional values of the bytes in memory |
| Memory.WordOfStoredBytes | memory_test.c:89-106 | four byte writes followed by a word read give their positional value |
| Memory.BytesOfStoredWord | memory_test.c:108-121 | a word write lays out its bytes in the order of the endianness |
| Memory.WordOfOtherEndianness | memory_test.c:101-106 | reading with the other endianness reverses the four bytes |
| Core.ArmCore.ReadRegisterInternal | arm_core.c:86-99 | the register in a mode's view; the PC is read 4 ahead with bit 1 clear |
| Core.ArmCore.FetchWord | arm_core.c:169-184 | the word at the PC, with the PC 4 on and the cycle count 1 on |
| Core.RestoreKeepsCpsr | registers.c:164-193 | asking for the SPSR and then moving it to the CPSR changes neither the CPSR nor anything but that SPSR |
| Core.AlignedPcView | arm_core.c:86-99 | at a word-aligned instruction the PC reads as its address plus 8 |
| Steps.AdvancedSees | arm_core.c:86-99 | an instruction sees the PC 8 further on with bit 1 clear, and every other register as it was before the fetch |
| Shifter.RegisterShiftIsIterated | arm_data_processing.c:246-358 | operand and carry of every shift by register are those of Rs[7:0] one-bit shifts from (Rm, C) |
| Shifter.ImmediateShiftIsIterated | arm_data_processing.c:235-342 | the same for immediates; LSR #0 and ASR #0 are 32 steps, ROR #0 one step of the 33-bit rotation |
| Shifter.RotatedImmediateIsIterated | arm_data_processing.c:381-386 | a rotated immediate and its carry are those of rotating the byte one bit at a time |
| Shifter.ShiftersAgree | arm_load_store.c:36-68 | the addressing-mode shifter yields the operand of the data-processing shifter |
| Shifter.ShiftsAreArithmetic | arm_data_processing.c:235-358 | for each value of bits 6 and 5, operand and carry of the shifts by register and by immediate are a product, a quotient, a quotient of the signed value or a rotation of the whole word, for every amount |
| DataProcessing.AddCarry | arm_data_processing.c:55-57 | true on signed overflow or when the second operand is negative |
| DataProcessing.SubCarry | arm_data_processing.c:65-67 | true on signed overflow or when the second operand is negative |
| DataProcessing.AddWithCarry | arm_data_processing.c:116-124 | the short-circuited helper calls of ADC yield this value, carry and overflow |
| DataProcessing.SubWithCarry | arm_data_processing.c:125-142 | likewise for SBC and RSC |
| DataProcessing.ArmAlu | arm_data_processing.c:87-185 | value, C, V and whether Rd is written, for the sixteen operations |
| DataProcessing.ArmWriteBack | arm_data_processing.c:186-211 | Rd, then the flags, or the SPSR when S is set and Rd is the PC |
| DataProcessing.OperationsByNumber | arm_data_processing.c:87-185 | for each opcode 0 to 15: which operation it is, bit by bit or as a sum or difference, its C and V, and whether Rd is written; with the exact value also where the carry goes wrong |
| DataProcessing.ArmProcessShift | arm_data_processing.c:215-363 | decoding, the uses of r15, the shift and the operation, as one change of state, which ShiftedOperand describes by the bits of the word |
| DataProcessing.ArmProcessImmediate | arm_data_processing.c:367-389 | the operation on a rotated immediate |
| DataProcessing.ArmMsrImmediate | arm_data_processing.c:392-441 | refusals, masks and target register of MSR immediate, as one change of state, which MsrWrites describes by the bits of the word |
| DataProcessing.AdcIsExactWhen | arm_data_processing.c:116-124 | ADC yields x + y + C exactly when x + y overflows or the carry generated equals the carry added, and else x + y + NOT C; its V is the overflow of the sum unless x + y is -2^31 - 1 and C is set; its C is the carry out exactly on the operands described |
| DataProcessing.SbcIsExactWhen | arm_data_processing.c:125-142 | the exact conditions for the value, V and C (absence of a borrow) of SBC; RSC is SBC with operands exchanged |
| DataProcessing.CarryArithmeticFails | arm_data_processing.c:116-142 | 1 + 1 + carry is 2, 5 - 3 without borrow is 1, and -2^31 - 1 + carry sets V although it is -2^31 |
| DataProcessing.Sums | arm_data_processing.c:110-115 | ADD is right modulo 2^32, V tells whether it is right as a signed sum, and C is the carry out exactly on the operands described |
| DataProcessing.SumCarryFails | arm_data_processing.c:110-115 | 0x7FFFFFFF + 1 sets C with nothing carried out |
| DataProcessing.Differences | arm_data_processing.c:98-103 | the same for SUB and the absence of a borrow |
| DataProcessing.LogicIsBitwise | arm_data_processing.c:88-97 | AND, EOR, ORR, BIC and MVN act on each of the 32 bits separately |
| DataProcessing.TestsAreUnwritten | arm_data_processing.c:143-164 | TST, TEQ, CMP and CMN compute what AND, EOR, SUB and ADD do and write no register; RSB is SUB exchanged |
| DataProcessing.ShiftedOperand | arm_data_processing.c:215-362 | every word with a shifted register works on Rn and on Rm (or the PC 4 further on) shifted as bits 11 to 4 say, or is refused, exactly when a shift by register names r15 or has bit 7 set, and changes nothing |
| DataProcessing.ImmediateOperand | arm_data_processing.c:367-389 | every word with an immediate works on its low byte rotated right by twice bits 11 to 8, with its carry |
| DataProcessing.MsrWrites | arm_data_processing.c:392-441 | MSR immediate is refused exactly for unallocated bits, the state bit in a privileged mode, or a missing SPSR; else the flags (bit 19) and the low mode bits (bit 16, for the CPSR if privileged) become those of the rotated byte, and nothing else changes |
| LoadStore.ProcessInstruction | arm_load_store.c:70-84 | offset, pre-indexed and post-indexed addressing, and the refusal of P = 0 with W = 1 |
| LoadStore.ArmAddress | arm_load_store.c:86-186 | the address and the written-back base of every encoding |
| LoadStore.ArmLoadStore | arm_load_store.c:86-234 | addressing and transfer of LDR, STR, LDRB, STRB, LDRH and STRH as one change of state |
| SingleTransfers.StoreThenLoadBack | arm_load_store.c:70-234 | for every width and offset kind, a pre-indexed store and the opposite post-indexed load return the value cut to the width and restore base and memory outside it |
| SingleTransfers.LoadSeesStore | arm_load_store.c:189-231 | a load from the address of a store of the same width returns what was stored, in any addressing modes |
| Stack.RunRefinesStack | arm_load_store.c:70-84 | any run of `STR Rd,[Rn,#-4]!` and `LDR Rd,[Rn],#4` within bounds behaves as an abstract stack and touches nothing else |
| Stack.LastInFirstOut | arm_load_store.c:102-107 | n pushes then n pops return the values backwards, restore Rn and leave memory outside the 4n bytes alone |
| Stack.CreatedStack | arm_core.c:50-66 | a new processor is in supervisor mode at PC 0 with an empty stack at the end of memory |
| LoadStoreMultiple.NumberSetBitsIn | arm_load_store.c:236-243 | the loop counts the registers of the list |
| LoadStoreMultiple.AddressingMode | arm_load_store.c:265-287 | in all four modes the last address is 4 less than the start plus 4 per register, modulo 2^32 |
| LoadStoreMultiple.LoadLoop | arm_load_store.c:293-325 | with S, register i is loaded from start plus 4 per listed register below it, in the current or the user view |
| LoadStoreMultiple.ArmLoadPlain | arm_load_store.c:346-362 | without S likewise, the PC with bits 1 and 0 cleared; a word that cannot be read is replaced by the last one that could |
| LoadStoreMultiple.StoreLoop | arm_load_store.c:332-373 | register i is stored at start plus 4 per listed register below it |
| LoadStoreMultiple.ArmTransferBlock | arm_load_store.c:291-374 | the five paths, each with the assertion that the last address was reached |
| LoadStoreMultiple.ArmLoadStoreMultiple | arm_load_store.c:245-381 | refusals, transfer and write-back as one change of state |
| BlockTransfers.EachWordOnce | arm_load_store.c:264-374 | listed registers and words of the block correspond one to one, in increasing order |
| BlockTransfers.LoadedRegister | arm_load_store.c:293-355 | after a load loop each listed register holds its word and each other register what it held |
| BlockTransfers.StoredWord | arm_load_store.c:332-373 | after a store loop each word of the block in memory holds its register, even when the block wraps around |
| BlockTransfers.UnstoredByte | arm_load_store.c:332-373 | bytes outside the block are unchanged |
| BlockTransfers.SaveThenRestore | arm_load_store.c:345-374 | STM then LDM of one list at one start restores every listed register and no other, whatever happened to the registers in between |
| BlockTransfers.ContextSwitch | arm_load_store.c:315-343 | STM with S in one exception mode and LDM with S in another restore the user bank and leave the second mode's own registers alone |
| BlockTransfers.LoadAndReturnMeaning | arm_load_store.c:291-313 | LDM with S and the PC, with or without write-back, loads the current mode's registers and an unaligned PC; the CPSR stays, so it becomes the SPSR exactly when the two were equal, and the SPSR becomes the CPSR |
| BlockTransfers.UserLoad | arm_load_store.c:315-328 | LDM with S and without the PC loads the user bank, seen from every mode, and writes the base back in the current mode |
| BlockTransfers.PlainLoad | arm_load_store.c:345-378 | after LDM without S, with or without write-back, each register is known: a listed one holds its word (the PC aligned), the base what is written back, the others what they held |
| BlockTransfers.LastReadIs | arm_load_store.c:347-361 | in place of a word outside memory comes that of the highest listed register below whose word lies in memory |
| BlockTransfers.StoreBlock | arm_load_store.c:332-378 | after STM, with or without S and write-back, each word of the block in memory holds its register as it was before write-back, and other bytes and registers are as before |
| BlockTransfers.StoreModesAgree | arm_load_store.c:266-286 | STM in any two of the four modes, from bases that differ as the modes do, produces the same memory |
| BlockTransfers.LoadModesAgree | arm_load_store.c:266-286 | the matching LDMs load the same registers, the PC included |
| BlockTransfers.WriteBackIsRightOnlyForIA | arm_load_store.c:376-378 | the base written back is the manual's exactly when the mode is increment after |
| BlockStacks.BaseMoves | arm_load_store.c:376-378 | write-back moves the base up by 4n in IA, 4n + 4 in IB, 4 in DA and 0 in DB |
| BlockStacks.BaseNeverComesDown | arm_load_store.c:265-287 | over any run of LDM and STM with write-back the base comes back exactly when these distances add up to a multiple of 2^32; short of 2^32, exactly when every transfer is decrement-before |
| BlockStacks.SaveThenRestoreThroughBase | arm_load_store.c:345-378 | STM then LDM through one base with write-back, any modes: the STM leaves the base, and the LDM finds the block, each exactly if it is decrement-before; found, the listed registers come back |
| BlockStacks.RunRefinesWindow | arm_load_store.c:345-378 | any run of STM with write-back in any modes, decrement-before LDM with write-back and register changes behaves as the registers with one saved copy: a restore brings back the last save and removes nothing |
| BlockStacks.RunAfterSave | arm_load_store.c:345-378 | the same from any state whose run begins with a save |
| BlockStacks.UsualPairFails | arm_load_store.c:345-378 | `STMDB R13!,{R0}` leaves R13 alone and `LDMIA R13!,{R0}` then loads the word above the one stored |
| BranchOther.ArmBranch | arm_branch_other.c:51-79 | link and target of B and BL as one change of state |
| BranchOther.ArmMiscellaneous | arm_branch_other.c:92-119 | MRS of the CPSR, or of the SPSR in a mode that has one |
| BranchOther.BranchGoesToTarget | arm_branch_other.c:59-77 | from word-aligned A the PC becomes A + 8 + 4 times the signed field, and BL links A + 4 |
| BranchOther.OneFieldPerDisplacement | arm_branch_other.c:60-67 | each word-aligned displacement from -2^25 to 2^25 - 4 has exactly one field |
| Exceptions.ArmException | arm_exception.c:34-130 | software interrupts by their re-read low 24 bits, the six exceptions entered, and no change for any other number |
| Exceptions.ArmCreate | arm_core.c:50-66 | a new processor is reset and has its stack pointer at the size of memory |
| Exceptions.ExceptionEntry | arm_exception.c:72-122 | from any mode and any PC the handler runs in supervisor mode at its vector; link and CPSR are saved in the interrupted mode's bank, or nowhere if it is no mode; the handler finds its link, or the CPSR, exactly if supervisor mode was interrupted or already held it |
| Exceptions.ExceptionTable | arm_exception.c:34-130 | CPSR, vector and link of the exception numbers 1, 2, 3, 4, 6 and 7, from any state; the other numbers change nothing |
| Exceptions.LinkIsFoundByChance | arm_exception.c:81-90 | after an interrupt in user mode at PC 0 the handler finds its link 8 exactly if supervisor mode's r14 was 8 before |
| Instruction.ArmDispatch | arm_instruction.c:97-140 | which decoder each word goes to |
| Instruction.ArmExecuteInstruction | arm_instruction.c:89-141 | fetch, condition and decoding as one change of state |
| Instruction.ArmStep | arm_instruction.c:144-152 | an instruction that reports a nonzero code raises that exception |
| Decoding.RefusedExactlyWhen | arm_instruction.c:89-141 | over all words, modes and states: a step executes the word, reports a software interrupt, or reports it undefined exactly for the encodings listed by bits; unless the base, the PC or registers were written first, a refusal has only moved on |
| Decoding.RefusedStep | arm_instruction.c:144-152 | a refused word enters the handler at 4 in supervisor mode with link A + 8 |
| Decoding.ExecutedStep | arm_instruction.c:144-152 | a word that is executed raises nothing |
| Decoding.BranchExecutes | arm_instruction.c:127-129 | a step on B or BL at A goes to A + 8 + 4 times the signed field; BL links A + 4, and no other register changes |
| Operations.OperationExecutes | arm_instruction.c:98-113 | a step on any data-processing word: operation, operands, Rd, flags and S are as its bits say, also for Rd = 15, and nothing else changes |
| Operations.MoveShifted | arm_data_processing.c:235-342 | a step on MOV with a shift by immediate leaves the product, quotient, signed quotient or rotation in Rd, by bits 6 and 5 |
| Operations.MsrExecutes | arm_data_processing.c:392-441 | a step on MSR immediate: refused exactly as described, else the selected fields of one status register become those of the rotated byte |
| Operations.MrsExecutes | arm_branch_other.c:92-119 | a step on MRS puts the CPSR in Rd, for either status register, and overwrites the SPSR with it if that was asked for |
| Accesses.SingleExecutes | arm_load_store.c:86-234 | a step on any LDR, STR, LDRB, STRB, LDRH or STRH: offset, direction, indexing, width and register are as its bits say |
| Accesses.OffsetAddressing | arm_load_store.c:70-84 | with P = 1 and W = 0 every such word reads or writes at Rn plus or minus its offset, and Rn stays |
| Accesses.MovesAndRefuses | arm_load_store.c:140-234 | the other words of the half-word space move the base as bits 24, 23 and 21 say and are then refused |
| Accesses.BlockLoadExecutes | arm_load_store.c:245-381 | a step on LDM without S puts each listed word in its register and the address after the block in the base if W is set |
| Accesses.BlockReturnExecutes | arm_load_store.c:291-313 | likewise with S and the PC; the CPSR stays and the SPSR is lost |
| Accesses.BlockReturnRefused | arm_load_store.c:303-307 | in a mode number that is no mode it loads r0 to r14 and is refused |
| Accesses.BlockUserLoadExecutes | arm_load_store.c:315-328 | likewise with S and without the PC, into the user bank |
| Accesses.BlockStoreExecutes | arm_load_store.c:332-378 | a step on STM stores each listed register at its word, in user mode's view if S is set, and changes no other byte |
| Runs.ExecuteKeepsControl | arm_instruction.c:89-141 | for every state and word, CPSR bits 27 to 4 stay and bits 3 to 0 change only in a privileged mode by MSR to the CPSR |
| Runs.MsrKeepsControl | arm_data_processing.c:405-429 | MSR immediate keeps bits 27 to 4, and outside privileged modes everything but the flags |
| Runs.RunKeepsInvariant | arm_instruction.c:144-152 | any interleaving of steps and delivered exceptions keeps CPSR & 0x0FFFFFB0 at 0x190 |
| Runs.EveryRunKeepsInvariant | arm_core.c:50-66 | so every run from creation has it, for all memory contents and all code |
| Runs.UnprivilegedEvent | arm_exception.c:45-122 | one event in an unprivileged mode keeps the mode exactly when it enters no exception, and else leads to supervisor mode |
| Runs.UnprivilegedRun | arm_data_processing.c:419-428 | over runs of any length without such an event the mode bits stay |
| Runs.OnlySomeChangeCpsr | arm_instruction.c:97-140 | no bit of the CPSR is changed by any word but S-suffixed data processing and MSR to the CPSR |
| Runs.QuietRunKeepsCpsr | arm_instruction.c:144-152 | over runs of any length, in any mode, that enter no exception and execute no MSR to the CPSR, everything but the flags stays, and the flags too unless something S-suffixed is executed |
| Isolation.OnlyStoresChangeMemory | arm_load_store.c:206-231 | an instruction of any encoding that is not a store leaves all of memory alone |
| Isolation.UnprivilegedRunIsIsolated | registers.c:219-275 | over such runs the banked registers of the exception modes and all SPSRs are untouched |
| Programs.FlagsAfter | arm_data_processing.c:186-208 | after an S-suffixed operation Rd, N, Z, C and V are the operation's, and all else is as before |
| Programs.ConditionsArePaired | arm_instruction.c:32-86 | the fourteen conditions are seven complementary pairs, AL always holds and the last code never |
| Programs.SignAndOverflowConditions | arm_instruction.c:48-71 | after an S-suffixed operation MI tells the sign of the result; VS tells whether the exact result of an arithmetic operation overflows exactly where V is right, which is everywhere without carry; there LT tells its sign; logic operations leave VS and pass on the shifter's carry |
| Programs.SignedConditions | arm_instruction.c:66-77 | after CMP the conditions EQ, NE, GE, LT, GT and LE decide the mathematical signed comparison |
| Programs.SumIsNegative | arm_instruction.c:69-71 | after CMN the condition LT holds exactly when the unbounded signed sum is negative |
| Programs.UnsignedConditions | arm_instruction.c:42-65 | after CMP the conditions HS, LO, HI and LS decide the unsigned comparison exactly when C is right, HI and LS also on equal operands |
| Programs.UnsignedConditionFails | arm_instruction.c:42-44 | after comparing 5 with 3 the condition HS does not hold |
| Programs.SoftwareInterruptStep | arm_exception.c:45-60 | a step on an SWI re-reads the fetched word, ends (9), goes on (0) or reports (8) by its low 24 bits, and changes only PC and cycle count |
| Programs.SkippedStep | arm_instruction.c:93-95 | a step whose condition fails changes only PC and cycle count |
| Programs.CallAndReturn | arm_branch_other.c:69-77 | BL and then `MOV PC, LR` at its target resume at the next instruction |
| Programs.SpsrReadsAsCpsr | arm_branch_other.c:99-117 | MRS yields the CPSR even when it asks for the SPSR, so the SPSR exactly when the two are equal; where there is none it is undefined and changes nothing |
| Programs.MsrSpsrMergesIntoCpsr | arm_data_processing.c:430-440 | MSR to the SPSR merges into the CPSR, which is right exactly when SPSR and CPSR agree on the bits not written |
| Programs.ReturnRestoresNothing | arm_data_processing.c:194-201 | in every state an S-suffixed operation on the PC leaves the CPSR, so it restores the SPSR exactly when the two are equal |
| Programs.HandlerReturnsToItself | arm_data_processing.c:194-197 | an exception, any run of quiet events and such a return end in supervisor mode; the interrupted mode is back exactly if it was supervisor mode, and its CPSR but for the flags exactly if that was the one of the handler's entry |
| Programs.SpsrFails | registers.c:158-193 | on a newly created processor MRS of the SPSR, MSR to it, `MOVS PC,LR` and LDM with S and the PC all miss it |
| Programs.LinkIsLost | registers.c:219-275 | from supervisor mode `MSR CPSR_c,#0x14` leads to mode number 0x14, where an exception saves neither link nor CPSR |

## Left out

- Sockets, threads, the mutex, options, tracing and messages: input and output that do not touch the machine.
- The gdb protocol, its scanner and `send_irq`: interrupts reach the model as delivered exception numbers.
- `putchar` for software interrupt 1: output only.
- Allocation failure, null pointers and the integrity checks of `memory.c`: allocation is assumed to succeed.
- Memories of 1 or 2 bytes, where the bound of a word access wraps around, and of more than 2^32 bytes.
- Coprocessor instructions: the simulator has none and reports them as undefined.
- The contents of general registers and SPSRs before creation are arbitrary in `Runs.EveryRunKeepsInvariant`, which is more than `registers_create` produces.
