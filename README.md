# A 6502-style virtual machine, modelled and verified in Dafny

The system is a small emulator of a 6502-like CPU (`vm_6502/vm_6502.cpp`). A `Memory`
struct holds 64 KiB of bytes, zero-filled by `Init`, and every index is bounds-asserted.
A `CPU` struct holds:

- the 16-bit `PC` and `SP`, and the 8-bit `A`, `X` and `Y`;
- seven one-bit flags `C Z I D B V N`;
- fetch, read and write primitives, each of which debits an unsigned 32-bit cycle budget
  passed by reference;
- a push and a pull of the flags packed into a word;
- `Execute`, which loops while the budget is non-zero, fetching an opcode and running one
  case of a large switch.

The opcode values are the MOS 6502's, but the semantics are the program's own. Words are
stored high byte first, stack slots are two bytes wide, JSR grows the stack upward, BRK
indexes its vector table by `A`, and several cases have quirks. The model reproduces all
of them as written.

The project has two layers.

- **Semantics** (`semantics.dfy`) is a value model. A `Machine` datatype holds the
  registers, the flags, the 64 KiB memory as a sequence, the remaining budget and the
  bytes sent to the console. Each switch case is a function from `Machine` to
  `Result<Machine>`. `Decode` (`opcodes.dfy`) maps every opcode the switch handles to
  its case as data, and `Step` and the fuel-bounded `Run` are built on top.
- **Emulator** (`emulator.dfy`) is the imperative model. Class `Memory` holds an
  `array<byte>`. Class `CPU` has the register fields, the flags and the console output.
  Its methods update them in place, and `Execute` is a `while` loop. Every `CPU` method
  is proved against the matching Semantics function through `Snapshot`, the value of the
  object and the memory. `Memory.Init` has no Semantics counterpart: its contract says
  outright that every byte is zero afterwards.

The properties live in `properties.dfy` (memory primitives, the flag word, the ALU),
`stack.dfy` (push/pull pairs, JSR/RTS, BRK/RTI, the trap), `instructions.dfy` (single
cases and their quirks), `loop.dfy` (the loop) and `flags.dfy`/`bits.dfy` (packing and
bitwise operators).

Integer widths are explicit. `byte`, `word` and `u32` are integer ranges, and every
result stored into one goes through `WrapByte`, `WrapWord` or `WrapU32`, which reduce it
the way C's conversion to an unsigned type does. An index at or past 65536, which trips
the source's `assert`, becomes `Fault(index)` at instruction level and a precondition on
the memory primitives.

Where the code departs from what a 6502 does, or from what its own comments suggest, the
model follows the code:

- ADC sets C to `A < oldA`, computed in byte width, not from a widened sum. With
  `data = 0xFF` and C set, the sum wraps back to A and the carry is lost
  (`Properties.AdcCarry`).
- ADC always clears V; it does not compute signed overflow.
- The branch offset is an unsigned byte added to PC, not a signed displacement
  (`InstructionProperties.BranchEffect`).
- JSR/RTS are not symmetric (`StackProperties.JsrRts`).

## Model

| member | source | states |
|---|---|---|
| Emulator.Memory.Init | vm_6502/vm_6502.cpp:19-25 | every one of the 65536 bytes is zero afterwards |
| Emulator.CPU.Reset | vm_6502/vm_6502.cpp:56-63 | PC = 0xFFFC, SP = 0x00FF, A = X = Y = 0, all seven flags clear, memory zero-filled; the state equals `ResetState` |
| Emulator.CPU.FetchByte | vm_6502/vm_6502.cpp:64-70 | returns `ram[PC]`, advances PC by one modulo 2^16, debits exactly one cycle |
| Emulator.CPU.FetchWord | vm_6502/vm_6502.cpp:71-78 | the high byte is read first, the word is `high * 256 + low`, PC advances by two, two cycles |
| Emulator.CPU.ReadByte | vm_6502/vm_6502.cpp:79-84 | requires the index below 65536; returns the byte and debits one cycle, changing nothing else |
| Emulator.CPU.ReadWord | vm_6502/vm_6502.cpp:85-92 | requires both indices below 65536; high byte at `address`, low byte at `address + 1`, two cycles |
| Emulator.CPU.WriteByte | vm_6502/vm_6502.cpp:93-97 | requires the index below 65536; only the addressed byte changes, one cycle |
| Emulator.CPU.WriteWord | vm_6502/vm_6502.cpp:98-105 | writes `(data >> 8) & 0xFF` at `address` and `data & 0xFF` at `address + 1`, two cycles |
| Emulator.CPU.PushWord | vm_6502/vm_6502.cpp:109-110 | SP drops by two modulo 2^16 and the word is written at the new SP |
| Emulator.CPU.PushProgramState | vm_6502/vm_6502.cpp:106-111 | pushes `Pack(P)`, lowering SP by two |
| Emulator.CPU.PullProgramState | vm_6502/vm_6502.cpp:112-124 | the word at SP is unpacked into the seven flags, then SP rises by two |
| Emulator.CPU.JumpVia | vm_6502/vm_6502.cpp:1035-1037 | PC becomes the word read at the vector address |
| Emulator.CPU.EffectiveAddress | vm_6502/vm_6502.cpp:264-314 | the operand address of each addressing mode, with the index added in the width the source uses |
| Emulator.CPU.ReadOperand | vm_6502/vm_6502.cpp:253-314 | the data byte of an immediate or memory operand, or a fault when the address is past the end |
| Emulator.CPU.ExecAdc | vm_6502/vm_6502.cpp:251-321 | the new state is `Semantics.ExecAdc` of the old one: `A += data + C`, `C = A < oldA`, Z, N, `V = 0` |
| Emulator.CPU.ApplyLogic | vm_6502/vm_6502.cpp:349-589 | `A = A op data` for AND, ORA and EOR (EOR 349-395, ORA 397-451, AND 538-589), with Z and N from A |
| Emulator.CPU.ExecLogic | vm_6502/vm_6502.cpp:349-589 | the new state is `Semantics.ExecLogic` (EOR 349-395, ORA 397-451, AND 538-589): operand, logic op, extra cycles; a fault past the end of memory |
| Emulator.CPU.ExecEorImmediate | vm_6502/vm_6502.cpp:341-347 | the new state is `Semantics.ExecEorImmediate`: A = 0, Z = 0, N = 0 |
| Emulator.CPU.ExecBranch | vm_6502/vm_6502.cpp:453-536 | the new state is `Semantics.ExecBranch`: one cycle, offset fetch, unsigned `PC += offset` and one cycle when taken |
| Emulator.CPU.LoadRegister | vm_6502/vm_6502.cpp:591-655 | the register gets the byte; only the immediate forms set Z and N, from A |
| Emulator.CPU.ExecLoad | vm_6502/vm_6502.cpp:591-655 | the new state is `Semantics.ExecLoad` of the old one, or a fault past the end of memory |
| Emulator.CPU.StoreAt | vm_6502/vm_6502.cpp:943-1009 | the register is written at the address; the absolute forms append the byte to the output when the address is 0xFFFF |
| Emulator.CPU.ExecStore | vm_6502/vm_6502.cpp:943-1009 | the new state is `Semantics.ExecStore`, or a fault when the address is past the end |
| Emulator.CPU.ExecCompare | vm_6502/vm_6502.cpp:682-797 | the new state is `Semantics.ExecCompare`: of the flags, only C, Z and N change; PC and the cycle count move by the operand fetch |
| Emulator.CPU.ModifyAt | vm_6502/vm_6502.cpp:799-904 | the byte is read, incremented or decremented modulo 256, Z and N set, written back |
| Emulator.CPU.ExecModify | vm_6502/vm_6502.cpp:799-904 | the new state is `Semantics.ExecModify`, or a fault when the address is past the end |
| Emulator.CPU.ExecCount | vm_6502/vm_6502.cpp:847-916 | the new state is `Semantics.ExecCount`: `X++`, `Y++`, `X--` or `Y--` modulo 256, flags only on the decrements |
| Emulator.CPU.ExecJmp | vm_6502/vm_6502.cpp:657-661 | PC becomes the fetched word |
| Emulator.CPU.ExecJsr | vm_6502/vm_6502.cpp:663-671 | the new state is `Semantics.ExecJsr`: `SP += 2`, `PC - 1` written there, jump, one cycle |
| Emulator.CPU.ExecRts | vm_6502/vm_6502.cpp:673-680 | the new state is `Semantics.ExecRts`: PC = word at SP, `SP += 2`, three cycles |
| Emulator.CPU.ExecPha | vm_6502/vm_6502.cpp:918-922 | the new state is `Semantics.ExecPha`: `SP -= 2`, A written as a word |
| Emulator.CPU.ExecPhp | vm_6502/vm_6502.cpp:924-927 | the new state is `Semantics.ExecPhp` |
| Emulator.CPU.ExecPla | vm_6502/vm_6502.cpp:929-936 | the new state is `Semantics.ExecPla`: A = low byte of the word at SP, Z, N, `SP += 2` |
| Emulator.CPU.ExecPlp | vm_6502/vm_6502.cpp:938-941 | the new state is `Semantics.ExecPlp` |
| Emulator.CPU.ExecSetFlag | vm_6502/vm_6502.cpp:323-339 | one flag is set or cleared and one cycle is debited (CLC, CLD, CLV; CLI and SEI at 1011-1021) |
| Emulator.CPU.PushFrame | vm_6502/vm_6502.cpp:1030-1033 | pushes the return word, then the flags; faults if either slot is past the end |
| Emulator.CPU.ExecBrk | vm_6502/vm_6502.cpp:1028-1038 | the new state is `Semantics.ExecBrk`: frame, `B = 1`, PC from vector entry A |
| Emulator.CPU.ExecRti | vm_6502/vm_6502.cpp:1040-1047 | the new state is `Semantics.ExecRti`: flags pulled, PC = word at SP plus one, `SP += 2`, one cycle |
| Emulator.CPU.Trap | vm_6502/vm_6502.cpp:1049-1058 | the new state is `Semantics.Trap`: frame with PC, A = 6, X = opcode, PC from 0xFE06 |
| Emulator.CPU.Exec | vm_6502/vm_6502.cpp:249-1059 | runs the switch case of a decoded instruction as `Semantics.Exec` says |
| Emulator.CPU.Step | vm_6502/vm_6502.cpp:248-1059 | one pass of the loop body equals `Semantics.Step` |
| Emulator.CPU.Execute | vm_6502/vm_6502.cpp:244-1061 | the loop ends exactly as `Semantics.Run` does, in the state it stops at, or reports the abort |
| Opcodes.DecodeShape | vm_6502/vm_6502.cpp:249-1059 | over every opcode the switch decodes: of all the instructions, only LDX zero page,Y (0xB6) adds its index in byte arithmetic; a load sets Z and N (from A) exactly in its immediate form; a store echoes to the console exactly in its absolute forms; DEX and DEY set flags while INX and INY do not; no DEC form adds X to an absolute address |
| Opcodes.DecodeNamed | vm_6502/vm_6502.cpp:249-1059 | BRK, RTI, JSR, RTS, PHA, PLA, PHP, PLP, LDA immediate and SDA absolute are reached only from the opcodes their constants name |
| Semantics.EffectiveAddress | vm_6502/vm_6502.cpp:264-314 | every operand address is non-negative; the plain and byte-wrapped zero-page forms stay below 0x100, the word-indexed zero-page forms below 0x1FF; only the absolute indexed forms can pass the end of memory, and by at most 0xFF |
| Semantics.AddWithCarry | vm_6502/vm_6502.cpp:255-260 | A becomes `(A + data + C) mod 256`; C is set exactly when that sum overflows a byte while `data + C` does not; V cleared; Z and N from the sum; I, D, B kept |
| Semantics.CompareFlags | vm_6502/vm_6502.cpp:685-688 | C iff reg >= data; Z iff equal, so Z implies C; N iff bit 7 of `(data - reg) mod 256`; every other flag kept |
| Semantics.VectorAddress | vm_6502/vm_6502.cpp:1036 | `0xFDFC + 2 * A` is a word address in range at or above the vector table's base |
| Semantics.Trace | vm_6502/vm_6502.cpp:246-248 | the machines a run visits: the first is the start, at most one per unit of fuel more |
| Semantics.TraceNext | vm_6502/vm_6502.cpp:246-248 | from a traced machine with budget left, a successful step reaches the next traced machine; a fault aborts the run |
| Semantics.TraceStop | vm_6502/vm_6502.cpp:246 | the run stops at the traced machine whose budget is zero or where the fuel ends |
| Bits.BitwiseBound | vm_6502/vm_6502.cpp:344 | the result of a bitwise operation on `width` bits is below 2^width, so it fits in `width` bits |
| Bits.JoinHiLo | vm_6502/vm_6502.cpp:76-101 | joining a high and a low byte into a word and splitting it with `>> 8` and `& 0xFF` are inverse |
| Bits.XorTwice | vm_6502/vm_6502.cpp:344 | `a ^ b ^ b` gives back the low bits of `a` |
| Bits.AndOrIdempotent | vm_6502/vm_6502.cpp:397-589 | AND or OR with the same operand a second time changes nothing |
| Bits.XorSelf | vm_6502/vm_6502.cpp:344 | `a ^ a == 0` |
| Bits.AndMask | vm_6502/vm_6502.cpp:100-101 | `a & (2^w - 1)` keeps the low `w` bits |
| Bits.OrZero | vm_6502/vm_6502.cpp:397-451 | OR with zero keeps the low `w` bits |
| StatusFlags.Pack | vm_6502/vm_6502.cpp:108 | the packed flag word is below 0x80 (seven bits) |
| StatusFlags.PackFrom | vm_6502/vm_6502.cpp:108 | a packing of `n` flags is below 2^n |
| StatusFlags.StateBitPack | vm_6502/vm_6502.cpp:108-122 | shifting the packed word right by k and keeping the lowest bit reads flag k |
| StatusFlags.PackUnpack | vm_6502/vm_6502.cpp:114-123 | packing the flags unpacked from a word gives back bits 0 to 6 of the word: flag k is bit k, higher bits are dropped |
| StatusFlags.UnpackPack | vm_6502/vm_6502.cpp:106-124 | unpacking a packed flag set restores all seven flags (bit 0 = C ... bit 6 = N) |
| Properties.ReadAfterWriteWord | vm_6502/vm_6502.cpp:85-105 | a written word reads back unchanged, high byte at `address`, low at `address + 1`, four cycles in all |
| Properties.WriteByteFrame | vm_6502/vm_6502.cpp:93-97 | a byte write changes only the addressed byte and debits one cycle |
| Properties.WriteWordFrame | vm_6502/vm_6502.cpp:98-105 | a word write leaves every other byte alone |
| Properties.FetchWordIsReadWord | vm_6502/vm_6502.cpp:71-92 | FetchWord reads the bytes at PC in the same order as ReadWord, PC + 2, two cycles |
| Properties.WrapTwice | vm_6502/vm_6502.cpp:68 | two wrapped debits of the `u32` budget equal one debit of their sum |
| Properties.PushPullProgramState | vm_6502/vm_6502.cpp:106-124 | push lowers SP by two and stores the packed flags with a zero high byte; the following pull restores every flag and SP |
| Properties.WordBack | vm_6502/vm_6502.cpp:109-123 | `SP -= n` then `SP += n` on a 16-bit word gives SP back |
| Properties.EorTwice | vm_6502/vm_6502.cpp:349-395 | EOR with the same byte twice restores A |
| Properties.AndOraIdempotent | vm_6502/vm_6502.cpp:397-589 | AND or ORA with the same byte a second time changes nothing |
| Properties.LogicIdentities | vm_6502/vm_6502.cpp:349-589 | EOR of A with itself gives A = 0 and Z = 1; AND 0xFF and ORA 0 keep A |
| Properties.AdcCarry | vm_6502/vm_6502.cpp:251-260 | with data 0xFF and C set the sum wraps back to A and the carry is lost |
| Properties.EorImmediateClears | vm_6502/vm_6502.cpp:341-347 | EOR immediate always leaves A = 0 and Z, N clear; C and memory are untouched |
| Properties.CompareEffect | vm_6502/vm_6502.cpp:682-797 | registers, SP and memory unchanged; C iff reg >= data; Z iff equal; N = bit 7 of `data - reg`; other flags kept |
| StackProperties.ReadWordIsWordAt | vm_6502/vm_6502.cpp:85-92 | a word read returns the stored high/low pair and costs two cycles |
| StackProperties.PhaPla | vm_6502/vm_6502.cpp:918-936 | PHA stores A in a two-byte slot with high byte 0; PLA after it restores A and SP, Z and N from A |
| StackProperties.JsrRts | vm_6502/vm_6502.cpp:663-680 | JSR stores the JSR opcode's own address at SP + 2; RTS returns to that address, not past it, and SP ends 4 higher |
| StackProperties.FrameLayout | vm_6502/vm_6502.cpp:1030-1033 | the interrupt frame: return word in the slot below SP, flag word below it; nothing else changes |
| StackProperties.BrkEffect | vm_6502/vm_6502.cpp:1028-1038 | BRK pushes `PC - 1` and the flags, sets B, jumps to the word at `0xFDFC + 2 * A` |
| StackProperties.BrkRti | vm_6502/vm_6502.cpp:1028-1047 | RTI right after BRK restores the pre-BRK flags (B included) and SP, resumes one past the BRK opcode |
| StackProperties.TrapEffect | vm_6502/vm_6502.cpp:1049-1058 | an opcode with no case pushes PC and the flags, sets A = 6 and X = opcode, keeps B, jumps to the word at 0xFE06 |
| InstructionProperties.UndeclaredOpcodesTrap | vm_6502/vm_6502.cpp:161 | 0x30 (BMI), 0xAA (TAX) and 0xA8 (TAY/TSX, lines 233-235) have no case and trap |
| InstructionProperties.LoadImmediateFlagsFromA | vm_6502/vm_6502.cpp:613-641 | LDX/LDY immediate load the byte but set Z and N from A |
| InstructionProperties.LoadZeroPageKeepsFlags | vm_6502/vm_6502.cpp:599-647 | LDA/LDX/LDY zero page read the byte at the fetched address and leave all flags |
| InstructionProperties.IncrementDecrementRegister | vm_6502/vm_6502.cpp:847-916 | INX/INY set no flag; the matching decrement restores the register, with Z and N |
| InstructionProperties.IncrementDecrementMemory | vm_6502/vm_6502.cpp:799-904 | INC then DEC (or DEC then INC) on a byte restores memory |
| InstructionProperties.StoreThenRead | vm_6502/vm_6502.cpp:943-1009 | a store writes the register at the address and nowhere else, echoing exactly at 0xFFFF in the absolute forms |
| InstructionProperties.BranchEffect | vm_6502/vm_6502.cpp:453-536 | taken: PC = PC + 1 + unsigned offset modulo 2^16, three cycles; not taken: PC + 1, two cycles; nothing else changes |
| InstructionProperties.AddressRange | vm_6502/vm_6502.cpp:264-314 | a memory read operand faults exactly when its address is past the end of memory, and only an absolute indexed form can fault |
| InstructionProperties.ZeroPageIndexWidths | vm_6502/vm_6502.cpp:605-655 | operand 0xFF with index 1: the zero page,X forms (word sum) address 0x100, LDX zero page,Y (byte sum) addresses 0x00; LDA and LDY zero page,X index by X, LDX zero page,Y by Y |
| InstructionProperties.AbsoluteIndexedPastEnd | vm_6502/vm_6502.cpp:299-302 | absolute 0xFFFF indexed by X = 1 addresses 0x10000 and faults |
| InstructionProperties.OverdrawnBudgetWraps | vm_6502/vm_6502.cpp:244-248 | one cycle left and a two-cycle LDA leaves 0xFFFFFFFF and the loop goes on |
| LoopProperties.StopReason | vm_6502/vm_6502.cpp:246 | the loop reports `CyclesSpent` exactly when it stops with a zero budget |
| LoopProperties.MoreFuel | vm_6502/vm_6502.cpp:246 | a run that ran out of cycles or aborted ends the same with any more fuel |
| LoopProperties.NoPass | vm_6502/vm_6502.cpp:246 | with no budget or no fuel the loop does not step |

## Left out

- `main` and its demo program image are not modelled.
- The console stream is modelled as the `output`/`out` byte sequence that stores to 0xFFFF
  append to. Nothing is printed.
- The source's `assert` aborts the process. Here the memory primitives require the index
  below 65536, and an instruction whose address passes the end yields `Fault(address)`,
  which ends `Execute` with `Abort`.
- Emulator.CPU.Execute: the source loop `while (cycles > 0)` may never end, because the
  budget wraps. The model bounds it by a `fuel` count and reports `FuelSpent` when the
  bound is reached. Runs longer than the fuel are not described.
- The seven one-bit fields are one `Flags` value `P`. Bit-field storage is modelled only
  through `Pack` and the low-bit read of `Unpack`.
- No instruction computes signed overflow: ADC and CLV clear V; PLP and RTI restore it
  from bit 5 of the pulled word.
- Cycle counts are those the code debits, not a real 6502's timing.
