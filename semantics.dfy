/** The CPU and its memory as one value, and what each case of the opcode switch does to
    it. The primitives mirror the CPU struct's helpers (FetchByte, ReadWord, ...); each
    `Exec...` function is one family of switch cases, parameterised by its `Instr` entry.
    A memory index at or beyond 65536 trips the source's `assert`, which aborts the
    process: the instruction then yields `Fault(index)`. */
module Semantics {
  import opened Bits
  import opened StatusFlags
  import opened Opcodes

  type Ram = s: seq<byte> | |s| == MEM_SIZE witness seq(MEM_SIZE, _ => 0)

  /** Registers, flags, the 64 KiB memory, the remaining cycle budget (`u32`) and the
      bytes written to the console so far. */
  datatype Machine = Machine(
    pc: word, sp: word, a: byte, x: byte, y: byte, flags: Flags,
    mem: Ram, cycles: u32, out: seq<byte>)

  datatype Result<T> = Ok(value: T) | Fault(address: int)
  {
    predicate IsFailure() { Fault? }
    function PropagateFailure<U>(): Result<U>
      requires Fault?
    {
      Fault(address)
    }
    function Extract(): T
      requires Ok?
    {
      value
    }
  }

  /** Base of the interrupt vector table; entry k is the word at BASE + 2k. */
  const VECTOR_BASE: int := 0xFDFC
  /** Interrupt 5, the invalid-opcode handler: 0xFDFC + 5 * 2. */
  const INVALID_OPCODE_VECTOR: int := VECTOR_BASE + 5 * 2

  /** Both bytes of a word access at `address` are inside memory. */
  predicate WordInRange(address: int)
  {
    0 <= address < MEM_SIZE - 1
  }

  // ---------------------------------------------------------------- Reset

  /** The state `Reset` leaves: PC at the startup code, SP at 0x00FF, registers and flags
      zero, memory zero-filled. The cycle budget and the console are not part of it. */
  function ResetState(cycles: u32, out: seq<byte>): Machine
  {
    Machine(0xFFFC, 0x00FF, 0, 0, 0, Cleared, seq(MEM_SIZE, _ => 0), cycles, out)
  }

  // ---------------------------------------------------------------- primitives

  /** `cycles -= n` on the unsigned budget: an overdrawn budget wraps around. */
  function Debit(m: Machine, n: nat): Machine
  {
    m.(cycles := WrapU32(m.cycles - n))
  }

  function FetchByte(m: Machine): (Machine, byte)
  {
    (m.(pc := WrapWord(m.pc + 1), cycles := WrapU32(m.cycles - 1)), m.mem[m.pc])
  }

  function FetchWord(m: Machine): (Machine, word)
  {
    var (m1, high) := FetchByte(m);
    var (m2, low) := FetchByte(m1);
    (m2, Join(high, low))
  }

  function ReadByte(m: Machine, address: int): (Machine, byte)
    requires 0 <= address < MEM_SIZE
  {
    (Debit(m, 1), m.mem[address])
  }

  function ReadWord(m: Machine, address: int): (Machine, word)
    requires WordInRange(address)
  {
    var (m1, high) := ReadByte(m, address);
    var (m2, low) := ReadByte(m1, address + 1);
    (m2, Join(high, low))
  }

  function WriteByte(m: Machine, address: int, data: byte): Machine
    requires 0 <= address < MEM_SIZE
  {
    m.(mem := m.mem[address := data], cycles := WrapU32(m.cycles - 1))
  }

  function WriteWord(m: Machine, address: int, data: word): Machine
    requires WordInRange(address)
  {
    WriteByte(WriteByte(m, address, Hi(data)), address + 1, Lo(data))
  }

  /** `SP -= 2; WriteWord(cycles, ram, SP, value);`, the way every push is written. */
  function PushWord(m: Machine, value: word): Machine
    requires WordInRange(WrapWord(m.sp - 2))
  {
    var sp := WrapWord(m.sp - 2);
    WriteWord(m.(sp := sp), sp, value)
  }

  /** The packed flags are pushed. */
  function PushProgramState(m: Machine): Machine
    requires WordInRange(WrapWord(m.sp - 2))
  {
    PushWord(m, Pack(m.flags))
  }

  /** The word at SP is unpacked into the flags, then SP is raised by 2. */
  function PullProgramState(m: Machine): Machine
    requires WordInRange(m.sp)
  {
    var (m1, state) := ReadWord(m, m.sp);
    m1.(flags := Unpack(state), sp := WrapWord(m1.sp + 2))
  }

  // ---------------------------------------------------------------- registers and flags

  function RegValue(m: Machine, r: Reg): byte
  {
    match r
    case RegA => m.a
    case RegX => m.x
    case RegY => m.y
  }

  function SetReg(m: Machine, r: Reg, v: byte): Machine
  {
    match r
    case RegA => m.(a := v)
    case RegX => m.(x := v)
    case RegY => m.(y := v)
  }

  function FlagValue(f: Flags, name: FlagName): bool
  {
    match name
    case Carry => f.c
    case Zero => f.z
    case Interrupt => f.i
    case Decimal => f.d
    case Break => f.b
    case Overflow => f.v
    case Negative => f.n
  }

  function SetFlagValue(f: Flags, name: FlagName, value: bool): Flags
  {
    match name
    case Carry => f.(c := value)
    case Zero => f.(z := value)
    case Interrupt => f.(i := value)
    case Decimal => f.(d := value)
    case Break => f.(b := value)
    case Overflow => f.(v := value)
    case Negative => f.(n := value)
  }

  /** `Z = (v == 0); N = (v & 0b10000000) > 0;` */
  function WithZN(f: Flags, v: byte): Flags
  {
    f.(z := v == 0, n := Bit7(v))
  }

  // ---------------------------------------------------------------- operands

  /** Fetches the address bytes of a memory operand and forms its address. */
  function EffectiveAddress(m: Machine, mode: Addressing): (r: (Machine, int))
    ensures 0 <= r.1
    // the plain and byte-wrapped zero-page forms stay in the first page
    ensures mode == ZeroPage || mode.ZeroPageIndexedWrap? ==> r.1 < 0x100
    // an index added to a zero-page byte in word arithmetic reaches at most 0x1FE
    ensures mode.ZeroPageIndexed? ==> r.1 < 0x1FF
    // only the absolute indexed forms can pass the end of memory, by at most 0xFF
    ensures !mode.AbsoluteIndexed? ==> r.1 < MEM_SIZE
    ensures r.1 < MEM_SIZE + 0xFF
  {
    match mode
    case ZeroPage =>
      var (m1, b) := FetchByte(m); (m1, b)
    case ZeroPageIndexed(r) =>
      var (m1, b) := FetchByte(m); (m1, b + RegValue(m1, r))
    case ZeroPageIndexedWrap(r) =>
      var (m1, b) := FetchByte(m); (m1, WrapByte(b + RegValue(m1, r)))
    case Absolute =>
      var (m1, w) := FetchWord(m); (m1, w)
    case AbsoluteIndexed(r) =>
      var (m1, w) := FetchWord(m); (m1, w + RegValue(m1, r))
  }

  /** The data byte of a read operand: fetched inline, or read from its address. */
  function ReadOperand(m: Machine, src: Source): Result<(Machine, byte)>
  {
    match src
    case Immediate => Ok(FetchByte(m))
    case Memory(mode) =>
      var (m1, address) := EffectiveAddress(m, mode);
      if address < MEM_SIZE then Ok(ReadByte(m1, address)) else Fault(address)
  }

  // ---------------------------------------------------------------- ALU

  /** `A += data + C; C = (A < oldA); Z = (A == 0); V = 0; N = bit 7 of A`. */
  function AddWithCarry(a: byte, data: byte, f: Flags): (r: (byte, Flags))
    ensures r.0 == (a + data + Bit(f.c)) % 0x100
    // the carry is set exactly when the sum overflows a byte while `data + C` alone does not
    ensures r.1.c <==> a + data + Bit(f.c) >= 0x100 && data + Bit(f.c) < 0x100
    ensures !r.1.v && (r.1.z <==> r.0 == 0) && (r.1.n <==> r.0 >= 0x80)
    ensures r.1.i == f.i && r.1.d == f.d && r.1.b == f.b
  {
    WrapByteMod(a + data + Bit(f.c));
    var sum := WrapByte(a + data + Bit(f.c));
    (sum, f.(c := sum < a, z := sum == 0, v := false, n := Bit7(sum)))
  }

  /** `result = data - reg` (a byte); `C = (reg >= data); Z = (reg == data); N = bit 7 of result`. */
  function CompareFlags(reg: byte, data: byte, f: Flags): (r: Flags)
    ensures (r.c <==> reg >= data) && (r.z <==> reg == data) && (r.z ==> r.c)
    ensures r.n <==> (data - reg) % 0x100 >= 0x80
    ensures r.(c := f.c, z := f.z, n := f.n) == f
  {
    f.(c := reg >= data, z := reg == data, n := Bit7(WrapByte(data - reg)))
  }

  // ---------------------------------------------------------------- instruction families

  function ExecAdc(m: Machine, src: Source, extra: nat): Result<Machine>
  {
    var operand :- ReadOperand(m, src);
    var (m1, data) := operand;
    var (a, f) := AddWithCarry(m1.a, data, m1.flags);
    Ok(Debit(m1.(a := a, flags := f), extra))
  }

  /** `A = A op data`, then Z and N from A. */
  function ApplyLogic(m: Machine, op: BitOp, data: byte): Machine
  {
    var a := ByteOp(op, m.a, data);
    m.(a := a, flags := WithZN(m.flags, a))
  }

  function ExecLogic(m: Machine, op: BitOp, src: Source, extra: nat): Result<Machine>
  {
    var operand :- ReadOperand(m, src);
    var (m1, data) := operand;
    Ok(Debit(ApplyLogic(m1, op, data), extra))
  }

  /** EOR immediate writes `Z = (A = 0)`: an assignment, not a comparison. A is set to 0,
      the value of that assignment (0) goes to Z, and N is then read from A = 0. The
      operand byte is fetched and the exclusive-or result is overwritten. */
  function ExecEorImmediate(m: Machine): Result<Machine>
  {
    var (m1, data) := FetchByte(m);
    Ok(m1.(a := 0, flags := m1.flags.(z := false, n := Bit7(0))))
  }

  /** One cycle, the offset byte, and when taken: `PC += offset` (unsigned) and one cycle. */
  function ExecBranch(m: Machine, flag: FlagName, when: bool): Result<Machine>
  {
    var (m1, offset) := FetchByte(Debit(m, 1));
    if FlagValue(m1.flags, flag) == when then
      Ok(Debit(m1.(pc := WrapWord(m1.pc + offset)), 1))
    else
      Ok(m1)
  }

  /** The register gets the data; the forms that set flags read Z and N from A. */
  function LoadRegister(m: Machine, dst: Reg, data: byte, flagsFromA: bool): Machine
  {
    var m1 := SetReg(m, dst, data);
    if flagsFromA then m1.(flags := WithZN(m1.flags, m1.a)) else m1
  }

  function ExecLoad(m: Machine, dst: Reg, src: Source, extra: nat, flagsFromA: bool): Result<Machine>
  {
    var operand :- ReadOperand(m, src);
    var (m1, data) := operand;
    Ok(Debit(LoadRegister(m1, dst, data, flagsFromA), extra))
  }

  /** Writes the register; the absolute forms also send the byte to the console when the
      address is 0xFFFF (`std::cout << ram[0xFFFF]`). */
  function StoreAt(m: Machine, from: Reg, address: int, echo: bool): Machine
    requires 0 <= address < MEM_SIZE
  {
    var m1 := WriteByte(m, address, RegValue(m, from));
    if echo && address == 0xFFFF then m1.(out := m1.out + [m1.mem[0xFFFF]]) else m1
  }

  function ExecStore(m: Machine, from: Reg, dst: Addressing, extra: nat, echo: bool): Result<Machine>
  {
    var (m1, address) := EffectiveAddress(m, dst);
    if address >= MEM_SIZE then Fault(address)
    else Ok(Debit(StoreAt(m1, from, address, echo), extra))
  }

  function ExecCompare(m: Machine, reg: Reg, src: Source): Result<Machine>
  {
    var operand :- ReadOperand(m, src);
    var (m1, data) := operand;
    Ok(m1.(flags := CompareFlags(RegValue(m1, reg), data, m1.flags)))
  }

  /** INC/DEC on memory: read, add or subtract one, set Z and N, write back. */
  function ModifyAt(m: Machine, address: int, increment: bool): Machine
    requires 0 <= address < MEM_SIZE
  {
    var (m1, data) := ReadByte(m, address);
    var d := WrapByte(if increment then data + 1 else data - 1);
    WriteByte(m1.(flags := WithZN(m1.flags, d)), address, d)
  }

  function ExecModify(m: Machine, dst: Addressing, increment: bool, extra: nat): Result<Machine>
  {
    var (m1, address) := EffectiveAddress(m, dst);
    if address >= MEM_SIZE then Fault(address)
    else Ok(Debit(ModifyAt(m1, address, increment), extra))
  }

  /** INX, INY, DEX, DEY: one cycle; only the decrements set Z and N. */
  function ExecCount(m: Machine, reg: Reg, increment: bool, setsFlags: bool): Result<Machine>
  {
    var v := WrapByte(if increment then RegValue(m, reg) + 1 else RegValue(m, reg) - 1);
    var m1 := SetReg(m, reg, v);
    Ok(Debit(if setsFlags then m1.(flags := WithZN(m1.flags, v)) else m1, 1))
  }

  function ExecJmp(m: Machine): Result<Machine>
  {
    var (m1, target) := FetchWord(m);
    Ok(m1.(pc := target))
  }

  /** `SP += 2`, write `PC - 1` there, then fetch the target word and jump. */
  function ExecJsr(m: Machine): Result<Machine>
  {
    var sp := WrapWord(m.sp + 2);
    if !WordInRange(sp) then Fault(sp + 1)
    else
      var m1 := WriteWord(m.(sp := sp), sp, WrapWord(m.pc - 1));
      var (m2, target) := FetchWord(m1);
      Ok(Debit(m2.(pc := target), 1))
  }

  /** Read the word at SP, `SP += 2`, jump to that word, three more cycles. */
  function ExecRts(m: Machine): Result<Machine>
  {
    if !WordInRange(m.sp) then Fault(m.sp + 1)
    else
      var (m1, ret) := ReadWord(m, m.sp);
      Ok(Debit(m1.(sp := WrapWord(m1.sp + 2), pc := ret), 3))
  }

  /** `SP -= 2`, then A written there as a word (high byte 0). */
  function ExecPha(m: Machine): Result<Machine>
  {
    var sp := WrapWord(m.sp - 2);
    if !WordInRange(sp) then Fault(sp + 1)
    else Ok(PushWord(m, m.a))
  }

  function ExecPhp(m: Machine): Result<Machine>
  {
    var sp := WrapWord(m.sp - 2);
    if !WordInRange(sp) then Fault(sp + 1)
    else Ok(PushProgramState(m))
  }

  /** The word at SP is assigned to A (its low byte stays), Z and N from A, `SP += 2`. */
  function ExecPla(m: Machine): Result<Machine>
  {
    if !WordInRange(m.sp) then Fault(m.sp + 1)
    else
      var (m1, value) := ReadWord(m, m.sp);
      var a := Lo(value);
      Ok(m1.(a := a, flags := WithZN(m1.flags, a), sp := WrapWord(m1.sp + 2)))
  }

  function ExecPlp(m: Machine): Result<Machine>
  {
    if !WordInRange(m.sp) then Fault(m.sp + 1)
    else Ok(PullProgramState(m))
  }

  /** CLC, CLD, CLV, CLI, SEI: one flag and one cycle. */
  function ExecSetFlag(m: Machine, flag: FlagName, value: bool): Result<Machine>
  {
    Ok(Debit(m.(flags := SetFlagValue(m.flags, flag, value)), 1))
  }

  function ExecNop(m: Machine): Result<Machine>
  {
    Ok(Debit(m, 1))
  }

  /** Address of interrupt entry `a` of the vector table, `0xFDFC + A * 2`. */
  function VectorAddress(a: byte): (address: int)
    ensures WordInRange(address) && address >= VECTOR_BASE
  {
    VECTOR_BASE + a * 2
  }

  /** `PC = ReadWord(cycles, ram, address)`: a jump through a vector entry. */
  function JumpVia(m: Machine, address: int): Machine
    requires WordInRange(address)
  {
    var (m1, handler) := ReadWord(m, address);
    m1.(pc := handler)
  }

  /** The interrupt frame of BRK and of the default case: a return address, then the flags. */
  function PushFrame(m: Machine, ret: word): Result<Machine>
  {
    var sp := WrapWord(m.sp - 2);
    if !WordInRange(sp) then Fault(sp + 1)
    else
      var m1 := PushWord(m, ret);
      if !WordInRange(WrapWord(m1.sp - 2)) then Fault(WrapWord(m1.sp - 2) + 1)
      else Ok(PushProgramState(m1))
  }

  /** Push `PC - 1` and the flags, set B, and jump through vector entry A. */
  function ExecBrk(m: Machine): Result<Machine>
  {
    var m1 :- PushFrame(m, WrapWord(m.pc - 1));
    Ok(JumpVia(m1.(flags := m1.flags.(b := true)), VectorAddress(m1.a)))
  }

  /** Once the frame is pushed, BRK sets B and jumps through vector entry A. */
  lemma BrkAfterFrame(m: Machine, m1: Machine)
    requires PushFrame(m, WrapWord(m.pc - 1)) == Ok(m1)
    ensures ExecBrk(m) == Ok(JumpVia(m1.(flags := m1.flags.(b := true)), VectorAddress(m1.a)))
  {
  }

  /** Pull the flags, then the return word; resume one past it; `SP += 2`; one cycle. */
  function ExecRti(m: Machine): Result<Machine>
  {
    if !WordInRange(m.sp) then Fault(m.sp + 1)
    else
      var m1 := PullProgramState(m);
      if !WordInRange(m1.sp) then Fault(m1.sp + 1)
      else
        var (m2, caller) := ReadWord(m1, m1.sp);
        Ok(Debit(m2.(pc := WrapWord(caller + 1), sp := WrapWord(m2.sp + 2)), 1))
  }

  /** The default case: push PC (just past the bad byte) and the flags, `A = 0x06`,
      `X = opcode`, and jump through the invalid-opcode vector. B is not set. */
  function Trap(m: Machine, op: byte): Result<Machine>
  {
    var m1 :- PushFrame(m, m.pc);
    Ok(JumpVia(m1.(a := 0x06, x := op), INVALID_OPCODE_VECTOR))
  }

  /** Once the frame is pushed, the default case loads A and X and jumps through the
      invalid-opcode vector. */
  lemma TrapAfterFrame(m: Machine, op: byte, m1: Machine)
    requires PushFrame(m, m.pc) == Ok(m1)
    ensures Trap(m, op) == Ok(JumpVia(m1.(a := 0x06, x := op), INVALID_OPCODE_VECTOR))
  {
  }

  function Exec(m: Machine, ins: Instr): Result<Machine>
  {
    match ins
    case Adc(src, extra) => ExecAdc(m, src, extra)
    case Logic(op, src, extra) => ExecLogic(m, op, src, extra)
    case EorImmediate => ExecEorImmediate(m)
    case Branch(flag, when) => ExecBranch(m, flag, when)
    case Load(dst, src, extra, flagsFromA) => ExecLoad(m, dst, src, extra, flagsFromA)
    case Store(from, dst, extra, echo) => ExecStore(m, from, dst, extra, echo)
    case Compare(reg, src) => ExecCompare(m, reg, src)
    case Modify(dst, increment, extra) => ExecModify(m, dst, increment, extra)
    case Count(reg, increment, setsFlags) => ExecCount(m, reg, increment, setsFlags)
    case Jmp => ExecJmp(m)
    case Jsr => ExecJsr(m)
    case Rts => ExecRts(m)
    case Pha => ExecPha(m)
    case Php => ExecPhp(m)
    case Pla => ExecPla(m)
    case Plp => ExecPlp(m)
    case SetFlag(flag, value) => ExecSetFlag(m, flag, value)
    case Nop => ExecNop(m)
    case Brk => ExecBrk(m)
    case Rti => ExecRti(m)
  }

  /** One pass of the `Execute` loop body: fetch the opcode and run its case. */
  function Step(m: Machine): Result<Machine>
  {
    var (m1, op) := FetchByte(m);
    match Decode(op)
    case None => Trap(m1, op)
    case Some(ins) => Exec(m1, ins)
  }

  /** A step on an opcode that has a case runs that case on the machine past the opcode. */
  lemma StepDecoded(m: Machine, op: byte, ins: Instr)
    requires m.mem[m.pc] == op && Decode(op) == Some(ins)
    ensures Step(m) == Exec(FetchByte(m).0, ins)
  {
  }

  /** A step on an opcode without a case runs the default case. */
  lemma StepUndecoded(m: Machine, op: byte)
    requires m.mem[m.pc] == op && Decode(op) == None
    ensures Step(m) == Trap(FetchByte(m).0, op)
  {
  }

  // ---------------------------------------------------------------- the Execute loop

  datatype Stop = CyclesSpent | FuelSpent

  /** How `Execute` ends: the `while (cycles > 0)` test fails, the fuel bound that stands
      for "the loop is still running" is reached, or an instruction aborts. */
  datatype RunResult = Stopped(why: Stop, final: Machine) | Aborted(address: int)

  /** At most `fuel` passes of `while (cycles > 0) { ... }` starting from `m`, each pass
      taking one `step`. */
  function Loop(step: Machine -> Result<Machine>, m: Machine, fuel: nat): RunResult
    decreases fuel
  {
    if m.cycles == 0 then Stopped(CyclesSpent, m)
    else if fuel == 0 then Stopped(FuelSpent, m)
    else
      match step(m)
      case Fault(address) => Aborted(address)
      case Ok(m') => Loop(step, m', fuel - 1)
  }

  /** At most `fuel` passes of the `Execute` loop, each executing one instruction. */
  function Run(m: Machine, fuel: nat): RunResult
  {
    Loop(Step, m, fuel)
  }

  /** The machines a loop visits: `m`, then each machine that a successful step leads to,
      up to the one at which `Loop` stops or aborts. */
  function Trace(step: Machine -> Result<Machine>, m: Machine, fuel: nat): (t: seq<Machine>)
    ensures 1 <= |t| <= fuel + 1 && t[0] == m
    decreases fuel
  {
    if m.cycles == 0 || fuel == 0 then [m]
    else
      match step(m)
      case Fault(_) => [m]
      case Ok(m') => [m] + Trace(step, m', fuel - 1)
  }

  /** A trace longer than one machine continues with the trace of the machine the first
      step leads to, and so does the loop. */
  lemma TraceTail(step: Machine -> Result<Machine>, m: Machine, fuel: nat)
    requires |Trace(step, m, fuel)| > 1
    ensures m.cycles != 0 && fuel != 0 && step(m).Ok?
    ensures Trace(step, m, fuel)[1..] == Trace(step, step(m).value, fuel - 1)
    ensures Loop(step, m, fuel) == Loop(step, step(m).value, fuel - 1)
  {
  }

  /** From the `k`-th machine of a trace that still has cycles and fuel, a successful
      step leads to the next machine of the trace, and a faulting step aborts the loop. */
  lemma {:induction false} TraceNext(step: Machine -> Result<Machine>, m: Machine, fuel: nat, k: nat)
    requires k < |Trace(step, m, fuel)| && k < fuel && Trace(step, m, fuel)[k].cycles != 0
    ensures step(Trace(step, m, fuel)[k]).Ok? ==>
              k + 1 < |Trace(step, m, fuel)| && step(Trace(step, m, fuel)[k]).value == Trace(step, m, fuel)[k + 1]
    ensures step(Trace(step, m, fuel)[k]).Fault? ==>
              Loop(step, m, fuel) == Aborted(step(Trace(step, m, fuel)[k]).address)
    decreases k
  {
    if k > 0 {
      TraceTail(step, m, fuel);
      TraceNext(step, step(m).value, fuel - 1, k - 1);
    }
  }

  /** A loop stops at the `k`-th machine of its trace when that machine has no cycles
      left or the fuel is used up there. */
  lemma {:induction false} TraceStop(step: Machine -> Result<Machine>, m: Machine, fuel: nat, k: nat)
    requires k < |Trace(step, m, fuel)| && (Trace(step, m, fuel)[k].cycles == 0 || k == fuel)
    ensures Loop(step, m, fuel) ==
            Stopped(if Trace(step, m, fuel)[k].cycles == 0 then CyclesSpent else FuelSpent,
                    Trace(step, m, fuel)[k])
    decreases k
  {
    if k > 0 {
      TraceTail(step, m, fuel);
      TraceStop(step, step(m).value, fuel - 1, k - 1);
    }
  }
}
