/** The `Memory` and `CPU` structs as classes. Every method that changes the CPU or the
    memory is proved against the function of module Semantics that describes it, through
    `Snapshot`, the value of the registers, flags and memory; the methods that only read
    state its result outright. */
module Emulator {
  import opened Bits
  import opened StatusFlags
  import opened Opcodes
  import S = Semantics

  /** 64 KiB of byte memory. Indexing beyond it is the source's assertion failure; here it
      is a precondition of every access. */
  class Memory {
    const data: array<byte>

    ghost predicate Valid()
    {
      data.Length == MEM_SIZE
    }

    constructor ()
      ensures Valid() && fresh(data)
    {
      data := new byte[MEM_SIZE];
    }

    /** Sets every byte to zero. */
    method Init()
      requires Valid()
      modifies data
      ensures data[..] == seq(MEM_SIZE, _ => 0)
    {
      for i := 0 to MEM_SIZE
        invariant forall j :: 0 <= j < i ==> data[j] == 0
      {
        data[i] := 0;
      }
    }
  }

  /** How a call of `Execute` ends; on `Finished`, `cycles` is the budget left. */
  datatype Outcome = Finished(why: S.Stop, cycles: u32) | Abort(address: int)

  class CPU {
    var PC: word
    var SP: word
    var A: byte
    var X: byte
    var Y: byte
    /** The one-bit fields C, Z, I, D, B, V, N of the struct, as one status value. */
    var P: Flags
    /** Bytes sent to the console by stores to 0xFFFF. */
    var output: seq<byte>

    ghost function Snapshot(ram: Memory, cycles: u32): S.Machine
      requires ram.Valid()
      reads this, ram.data
    {
      S.Machine(PC, SP, A, X, Y, P, ram.data[..], cycles, output)
    }

    /** The object now holds what `spec` computed, and `r` reports its cycles or its fault. */
    ghost predicate Reflects(ram: Memory, r: S.Result<u32>, spec: S.Result<S.Machine>)
      requires ram.Valid()
      reads this, ram.data
    {
      match spec
      case Ok(m) => r == S.Ok(m.cycles) && Snapshot(ram, m.cycles) == m
      case Fault(address) => r == S.Fault(address)
    }

    /** Debiting the budget of a snapshot is taking the snapshot with the smaller budget. */
    lemma DebitSnapshot(ram: Memory, cycles: u32, extra: nat)
      requires ram.Valid()
      ensures Snapshot(ram, WrapU32(cycles - extra)) == S.Debit(Snapshot(ram, cycles), extra)
    {
    }

    function RegisterValue(r: Reg): byte
      reads this
    {
      match r
      case RegA => A
      case RegX => X
      case RegY => Y
    }

    // ------------------------------------------------------------ Reset and primitives

    method Reset(ram: Memory)
      requires ram.Valid()
      modifies this, ram.data
      ensures PC == 0xFFFC && SP == 0x00FF
      ensures A == 0 && X == 0 && Y == 0
      ensures P == Cleared
      ensures forall i :: 0 <= i < MEM_SIZE ==> ram.data[i] == 0
      ensures output == old(output)
      ensures forall cycles :: Snapshot(ram, cycles) == S.ResetState(cycles, output)
    {
      PC := 0xFFFC;
      SP := 0x00FF;
      P := Cleared;
      A, X, Y := 0, 0, 0;
      ram.Init();
    }

    method FetchByte(ram: Memory, cycles: u32) returns (data: byte, cycles': u32)
      requires ram.Valid()
      modifies this`PC
      ensures data == ram.data[old(PC)] && PC == WrapWord(old(PC) + 1) && cycles' == WrapU32(cycles - 1)
      ensures (Snapshot(ram, cycles'), data) == S.FetchByte(old(Snapshot(ram, cycles)))
    {
      data := ram.data[PC];
      PC := WrapWord(PC + 1);
      cycles' := WrapU32(cycles - 1);
    }

    /** High byte first, then low byte. */
    method FetchWord(ram: Memory, cycles: u32) returns (data: word, cycles': u32)
      requires ram.Valid()
      modifies this`PC
      ensures data == Join(ram.data[old(PC)], ram.data[WrapWord(old(PC) + 1)])
      ensures PC == WrapWord(old(PC) + 2) && cycles' == WrapU32(cycles - 2)
      ensures (Snapshot(ram, cycles'), data) == S.FetchWord(old(Snapshot(ram, cycles)))
    {
      var high, low;
      high, cycles' := FetchByte(ram, cycles);
      low, cycles' := FetchByte(ram, cycles');
      data := Join(high, low);
    }

    method ReadByte(ram: Memory, cycles: u32, address: int) returns (data: byte, cycles': u32)
      requires ram.Valid() && 0 <= address < MEM_SIZE
      ensures data == ram.data[address] && cycles' == WrapU32(cycles - 1)
      ensures (Snapshot(ram, cycles'), data) == S.ReadByte(Snapshot(ram, cycles), address)
    {
      data := ram.data[address];
      cycles' := WrapU32(cycles - 1);
    }

    method ReadWord(ram: Memory, cycles: u32, address: int) returns (data: word, cycles': u32)
      requires ram.Valid() && S.WordInRange(address)
      ensures data == Join(ram.data[address], ram.data[address + 1]) && cycles' == WrapU32(cycles - 2)
      ensures (Snapshot(ram, cycles'), data) == S.ReadWord(Snapshot(ram, cycles), address)
    {
      var high, low;
      high, cycles' := ReadByte(ram, cycles, address);
      low, cycles' := ReadByte(ram, cycles', address + 1);
      data := Join(high, low);
    }

    method WriteByte(ram: Memory, cycles: u32, address: int, data: byte) returns (cycles': u32)
      requires ram.Valid() && 0 <= address < MEM_SIZE
      modifies ram.data
      ensures ram.data[..] == old(ram.data[..])[address := data] && cycles' == WrapU32(cycles - 1)
      ensures Snapshot(ram, cycles') == S.WriteByte(old(Snapshot(ram, cycles)), address, data)
    {
      ram.data[address] := data;
      cycles' := WrapU32(cycles - 1);
    }

    /** High byte at `address`, low byte at `address + 1`. */
    method WriteWord(ram: Memory, cycles: u32, address: int, data: word) returns (cycles': u32)
      requires ram.Valid() && S.WordInRange(address)
      modifies ram.data
      ensures ram.data[..] == old(ram.data[..])[address := Hi(data)][address + 1 := Lo(data)]
      ensures cycles' == WrapU32(cycles - 2)
      ensures Snapshot(ram, cycles') == S.WriteWord(old(Snapshot(ram, cycles)), address, data)
    {
      cycles' := WriteByte(ram, cycles, address, Hi(data));
      cycles' := WriteByte(ram, cycles', address + 1, Lo(data));
    }

    method PushWord(ram: Memory, cycles: u32, value: word) returns (cycles': u32)
      requires ram.Valid() && S.WordInRange(WrapWord(SP - 2))
      modifies this`SP, ram.data
      ensures SP == WrapWord(old(SP) - 2)
      ensures Snapshot(ram, cycles') == S.PushWord(old(Snapshot(ram, cycles)), value)
    {
      SP := WrapWord(SP - 2);
      cycles' := WriteWord(ram, cycles, SP, value);
    }

    method PushProgramState(ram: Memory, cycles: u32) returns (cycles': u32)
      requires ram.Valid() && S.WordInRange(WrapWord(SP - 2))
      modifies this`SP, ram.data
      ensures SP == WrapWord(old(SP) - 2)
      ensures Snapshot(ram, cycles') == S.PushProgramState(old(Snapshot(ram, cycles)))
    {
      var state := Pack(P);
      cycles' := PushWord(ram, cycles, state);
    }

    method PullProgramState(ram: Memory, cycles: u32) returns (cycles': u32)
      requires ram.Valid() && S.WordInRange(SP)
      modifies this`SP, this`P
      ensures Snapshot(ram, cycles') == S.PullProgramState(old(Snapshot(ram, cycles)))
    {
      ghost var m0 := Snapshot(ram, cycles);
      var state;
      state, cycles' := ReadWord(ram, cycles, SP);
      ghost var m1 := Snapshot(ram, cycles');
      var f := Unpack(state);
      assert S.PullProgramState(m0) == m1.(flags := f, sp := WrapWord(m1.sp + 2));
      P := f;
      SP := WrapWord(SP + 2);
    }

    method JumpVia(ram: Memory, cycles: u32, address: int) returns (cycles': u32)
      requires ram.Valid() && S.WordInRange(address)
      modifies this`PC
      ensures Snapshot(ram, cycles') == S.JumpVia(old(Snapshot(ram, cycles)), address)
    {
      var handler;
      handler, cycles' := ReadWord(ram, cycles, address);
      PC := handler;
    }

    // ------------------------------------------------------------ operands

    method EffectiveAddress(ram: Memory, cycles: u32, mode: Addressing) returns (address: int, cycles': u32)
      requires ram.Valid()
      modifies this`PC
      ensures (Snapshot(ram, cycles'), address) == S.EffectiveAddress(old(Snapshot(ram, cycles)), mode)
    {
      match mode {
        case ZeroPage =>
          address, cycles' := FetchByte(ram, cycles);
        case ZeroPageIndexed(r) =>
          var b;
          b, cycles' := FetchByte(ram, cycles);
          address := b + RegisterValue(r);
        case ZeroPageIndexedWrap(r) =>
          var b;
          b, cycles' := FetchByte(ram, cycles);
          address := WrapByte(b + RegisterValue(r));
        case Absolute =>
          address, cycles' := FetchWord(ram, cycles);
        case AbsoluteIndexed(r) =>
          var w;
          w, cycles' := FetchWord(ram, cycles);
          address := w + RegisterValue(r);
      }
    }

    method ReadOperand(ram: Memory, cycles: u32, src: Source) returns (r: S.Result<(byte, u32)>)
      requires ram.Valid()
      modifies this`PC
      ensures r.Ok? ==> S.ReadOperand(old(Snapshot(ram, cycles)), src) == S.Ok((Snapshot(ram, r.value.1), r.value.0))
      ensures r.Fault? ==> S.ReadOperand(old(Snapshot(ram, cycles)), src) == S.Fault(r.address)
    {
      match src
      case Immediate =>
        var data, c := FetchByte(ram, cycles);
        r := S.Ok((data, c));
      case Memory(mode) =>
        var address, c := EffectiveAddress(ram, cycles, mode);
        if address >= MEM_SIZE {
          r := S.Fault(address);
        } else {
          var data;
          data, c := ReadByte(ram, c, address);
          r := S.Ok((data, c));
        }
    }

    // ------------------------------------------------------------ the switch cases

    method ExecAdc(ram: Memory, cycles: u32, src: Source, extra: nat) returns (r: S.Result<u32>)
      requires ram.Valid()
      modifies this
      ensures Reflects(ram, r, S.ExecAdc(old(Snapshot(ram, cycles)), src, extra))
    {
      ghost var m0 := Snapshot(ram, cycles);
      var operand := ReadOperand(ram, cycles, src);
      if operand.Fault? {
        return S.Fault(operand.address);
      }
      var (data, c) := operand.value;
      ghost var m1 := Snapshot(ram, c);
      assert S.ReadOperand(m0, src) == S.Ok((m1, data));
      var oldA := A;
      A := WrapByte(A + data + Bit(P.c));
      P := P.(c := A < oldA, z := A == 0, v := false, n := Bit7(A));
      r := S.Ok(WrapU32(c - extra));
    }

    method ApplyLogic(ram: Memory, cycles: u32, op: BitOp, data: byte)
      requires ram.Valid()
      modifies this`A, this`P
      ensures Snapshot(ram, cycles) == S.ApplyLogic(old(Snapshot(ram, cycles)), op, data)
    {
      A := ByteOp(op, A, data);
      P := P.(z := A == 0, n := Bit7(A));
    }

    method ExecLogic(ram: Memory, cycles: u32, op: BitOp, src: Source, extra: nat) returns (r: S.Result<u32>)
      requires ram.Valid()
      modifies this
      ensures Reflects(ram, r, S.ExecLogic(old(Snapshot(ram, cycles)), op, src, extra))
    {
      ghost var m0 := Snapshot(ram, cycles);
      var operand := ReadOperand(ram, cycles, src);
      if operand.Fault? {
        return S.Fault(operand.address);
      }
      var (data, c) := operand.value;
      ghost var m1 := Snapshot(ram, c);
      assert S.ReadOperand(m0, src) == S.Ok((m1, data));
      ApplyLogic(ram, c, op, data);
      DebitSnapshot(ram, c, extra);
      r := S.Ok(WrapU32(c - extra));
    }

    method ExecEorImmediate(ram: Memory, cycles: u32) returns (r: S.Result<u32>)
      requires ram.Valid()
      modifies this
      ensures Reflects(ram, r, S.ExecEorImmediate(old(Snapshot(ram, cycles))))
    {
      var data, c := FetchByte(ram, cycles);
      A := ByteOp(XorBits, A, data);
      A := 0;                          // the assignment inside `Z = (A = 0)`
      P := P.(z := false, n := Bit7(A)); // Z gets its value, 0
      r := S.Ok(c);
    }

    method ExecBranch(ram: Memory, cycles: u32, flag: FlagName, when: bool) returns (r: S.Result<u32>)
      requires ram.Valid()
      modifies this
      ensures Reflects(ram, r, S.ExecBranch(old(Snapshot(ram, cycles)), flag, when))
    {
      var c := WrapU32(cycles - 1);
      var offset;
      offset, c := FetchByte(ram, c);
      if S.FlagValue(P, flag) == when {
        PC := WrapWord(PC + offset);
        c := WrapU32(c as int - 1);
      }
      r := S.Ok(c);
    }

    method LoadRegister(ram: Memory, cycles: u32, into: Reg, data: byte, flagsFromA: bool)
      requires ram.Valid()
      modifies this`A, this`X, this`Y, this`P
      ensures Snapshot(ram, cycles) == S.LoadRegister(old(Snapshot(ram, cycles)), into, data, flagsFromA)
    {
      match into {
        case RegA => A := data;
        case RegX => X := data;
        case RegY => Y := data;
      }
      if flagsFromA {
        P := P.(z := A == 0, n := Bit7(A));
      }
    }

    method ExecLoad(ram: Memory, cycles: u32, into: Reg, src: Source, extra: nat, flagsFromA: bool)
      returns (r: S.Result<u32>)
      requires ram.Valid()
      modifies this
      ensures Reflects(ram, r, S.ExecLoad(old(Snapshot(ram, cycles)), into, src, extra, flagsFromA))
    {
      ghost var m0 := Snapshot(ram, cycles);
      var operand := ReadOperand(ram, cycles, src);
      if operand.Fault? {
        return S.Fault(operand.address);
      }
      var (data, c) := operand.value;
      ghost var m1 := Snapshot(ram, c);
      assert S.ReadOperand(m0, src) == S.Ok((m1, data));
      LoadRegister(ram, c, into, data, flagsFromA);
      DebitSnapshot(ram, c, extra);
      r := S.Ok(WrapU32(c - extra));
    }

    method StoreAt(ram: Memory, cycles: u32, from: Reg, address: int, echo: bool) returns (cycles': u32)
      requires ram.Valid() && 0 <= address < MEM_SIZE
      modifies this`output, ram.data
      ensures Snapshot(ram, cycles') == S.StoreAt(old(Snapshot(ram, cycles)), from, address, echo)
    {
      cycles' := WriteByte(ram, cycles, address, RegisterValue(from));
      if echo && address == 0xFFFF {
        output := output + [ram.data[0xFFFF]];
      }
    }

    method ExecStore(ram: Memory, cycles: u32, from: Reg, dst: Addressing, extra: nat, echo: bool)
      returns (r: S.Result<u32>)
      requires ram.Valid()
      modifies this, ram.data
      ensures Reflects(ram, r, S.ExecStore(old(Snapshot(ram, cycles)), from, dst, extra, echo))
    {
      var address, c := EffectiveAddress(ram, cycles, dst);
      if address >= MEM_SIZE {
        return S.Fault(address);
      }
      c := StoreAt(ram, c, from, address, echo);
      DebitSnapshot(ram, c, extra);
      r := S.Ok(WrapU32(c - extra));
    }

    method ExecCompare(ram: Memory, cycles: u32, reg: Reg, src: Source) returns (r: S.Result<u32>)
      requires ram.Valid()
      modifies this
      ensures Reflects(ram, r, S.ExecCompare(old(Snapshot(ram, cycles)), reg, src))
    {
      ghost var m0 := Snapshot(ram, cycles);
      var operand := ReadOperand(ram, cycles, src);
      if operand.Fault? {
        return S.Fault(operand.address);
      }
      var (data, c) := operand.value;
      ghost var m1 := Snapshot(ram, c);
      assert S.ReadOperand(m0, src) == S.Ok((m1, data));
      var value := RegisterValue(reg);
      var result := WrapByte(data - value);
      P := P.(c := value >= data, z := value == data, n := Bit7(result));
      r := S.Ok(c);
    }

    method ModifyAt(ram: Memory, cycles: u32, address: int, increment: bool) returns (cycles': u32)
      requires ram.Valid() && 0 <= address < MEM_SIZE
      modifies this`P, ram.data
      ensures Snapshot(ram, cycles') == S.ModifyAt(old(Snapshot(ram, cycles)), address, increment)
    {
      var data;
      data, cycles' := ReadByte(ram, cycles, address);
      data := WrapByte(if increment then data as int + 1 else data as int - 1);
      P := P.(z := data == 0, n := Bit7(data));
      cycles' := WriteByte(ram, cycles', address, data);
    }

    method ExecModify(ram: Memory, cycles: u32, dst: Addressing, increment: bool, extra: nat)
      returns (r: S.Result<u32>)
      requires ram.Valid()
      modifies this, ram.data
      ensures Reflects(ram, r, S.ExecModify(old(Snapshot(ram, cycles)), dst, increment, extra))
    {
      var address, c := EffectiveAddress(ram, cycles, dst);
      if address >= MEM_SIZE {
        return S.Fault(address);
      }
      c := ModifyAt(ram, c, address, increment);
      DebitSnapshot(ram, c, extra);
      r := S.Ok(WrapU32(c - extra));
    }

    method ExecCount(ram: Memory, cycles: u32, reg: Reg, increment: bool, setsFlags: bool)
      returns (r: S.Result<u32>)
      requires ram.Valid()
      modifies this
      ensures Reflects(ram, r, S.ExecCount(old(Snapshot(ram, cycles)), reg, increment, setsFlags))
    {
      var v := WrapByte(if increment then RegisterValue(reg) + 1 else RegisterValue(reg) - 1);
      match reg {
        case RegA => A := v;
        case RegX => X := v;
        case RegY => Y := v;
      }
      if setsFlags {
        P := P.(z := v == 0, n := Bit7(v));
      }
      r := S.Ok(WrapU32(cycles - 1));
    }

    method ExecJmp(ram: Memory, cycles: u32) returns (r: S.Result<u32>)
      requires ram.Valid()
      modifies this
      ensures Reflects(ram, r, S.ExecJmp(old(Snapshot(ram, cycles))))
    {
      var address, c := FetchWord(ram, cycles);
      PC := address;
      r := S.Ok(c);
    }

    method ExecJsr(ram: Memory, cycles: u32) returns (r: S.Result<u32>)
      requires ram.Valid()
      modifies this, ram.data
      ensures Reflects(ram, r, S.ExecJsr(old(Snapshot(ram, cycles))))
    {
      ghost var m0 := Snapshot(ram, cycles);
      SP := WrapWord(SP + 2);
      if !S.WordInRange(SP) {
        return S.Fault(SP + 1);
      }
      var c := WriteWord(ram, cycles, SP, WrapWord(PC - 1));
      ghost var m1 := Snapshot(ram, c);
      assert m1 == S.WriteWord(m0.(sp := SP), SP, WrapWord(m0.pc - 1));
      var target;
      target, c := FetchWord(ram, c);
      assert (Snapshot(ram, c), target) == S.FetchWord(m1);
      PC := target;
      r := S.Ok(WrapU32(c as int - 1));
    }

    method ExecRts(ram: Memory, cycles: u32) returns (r: S.Result<u32>)
      requires ram.Valid()
      modifies this
      ensures Reflects(ram, r, S.ExecRts(old(Snapshot(ram, cycles))))
    {
      if !S.WordInRange(SP) {
        return S.Fault(SP + 1);
      }
      var ret, c := ReadWord(ram, cycles, SP);
      SP := WrapWord(SP + 2);
      PC := ret;
      r := S.Ok(WrapU32(c as int - 3));
    }

    method ExecPha(ram: Memory, cycles: u32) returns (r: S.Result<u32>)
      requires ram.Valid()
      modifies this, ram.data
      ensures Reflects(ram, r, S.ExecPha(old(Snapshot(ram, cycles))))
    {
      if !S.WordInRange(WrapWord(SP - 2)) {
        return S.Fault(WrapWord(SP - 2) + 1);
      }
      var c := PushWord(ram, cycles, A);
      r := S.Ok(c);
    }

    method ExecPhp(ram: Memory, cycles: u32) returns (r: S.Result<u32>)
      requires ram.Valid()
      modifies this, ram.data
      ensures Reflects(ram, r, S.ExecPhp(old(Snapshot(ram, cycles))))
    {
      if !S.WordInRange(WrapWord(SP - 2)) {
        return S.Fault(WrapWord(SP - 2) + 1);
      }
      var c := PushProgramState(ram, cycles);
      r := S.Ok(c);
    }

    method ExecPla(ram: Memory, cycles: u32) returns (r: S.Result<u32>)
      requires ram.Valid()
      modifies this
      ensures Reflects(ram, r, S.ExecPla(old(Snapshot(ram, cycles))))
    {
      if !S.WordInRange(SP) {
        return S.Fault(SP + 1);
      }
      var value, c := ReadWord(ram, cycles, SP);
      A := Lo(value);
      P := P.(z := A == 0, n := Bit7(A));
      SP := WrapWord(SP + 2);
      r := S.Ok(c);
    }

    method ExecPlp(ram: Memory, cycles: u32) returns (r: S.Result<u32>)
      requires ram.Valid()
      modifies this
      ensures Reflects(ram, r, S.ExecPlp(old(Snapshot(ram, cycles))))
    {
      if !S.WordInRange(SP) {
        return S.Fault(SP + 1);
      }
      var c := PullProgramState(ram, cycles);
      r := S.Ok(c);
    }

    method ExecSetFlag(ram: Memory, cycles: u32, flag: FlagName, value: bool) returns (r: S.Result<u32>)
      requires ram.Valid()
      modifies this
      ensures Reflects(ram, r, S.ExecSetFlag(old(Snapshot(ram, cycles)), flag, value))
    {
      P := S.SetFlagValue(P, flag, value);
      r := S.Ok(WrapU32(cycles - 1));
    }

    method PushFrame(ram: Memory, cycles: u32, ret: word) returns (r: S.Result<u32>)
      requires ram.Valid()
      modifies this`SP, ram.data
      ensures Reflects(ram, r, S.PushFrame(old(Snapshot(ram, cycles)), ret))
    {
      if !S.WordInRange(WrapWord(SP - 2)) {
        return S.Fault(WrapWord(SP - 2) + 1);
      }
      var c := PushWord(ram, cycles, ret);
      if !S.WordInRange(WrapWord(SP - 2)) {
        return S.Fault(WrapWord(SP - 2) + 1);
      }
      c := PushProgramState(ram, c);
      r := S.Ok(c);
    }

    method ExecBrk(ram: Memory, cycles: u32) returns (r: S.Result<u32>)
      requires ram.Valid()
      modifies this, ram.data
      ensures Reflects(ram, r, S.ExecBrk(old(Snapshot(ram, cycles))))
    {
      ghost var m0 := Snapshot(ram, cycles);
      r := PushFrame(ram, cycles, WrapWord(PC - 1));
      if r.Fault? {
        return;
      }
      ghost var m := Snapshot(ram, r.value);
      assert S.PushFrame(m0, WrapWord(m0.pc - 1)) == S.Ok(m);
      var f := P.(b := true);
      P := f;
      assert Snapshot(ram, r.value) == m.(flags := f);
      var c := JumpVia(ram, r.value, S.VectorAddress(A));
      S.BrkAfterFrame(m0, m);
      r := S.Ok(c);
    }

    method ExecRti(ram: Memory, cycles: u32) returns (r: S.Result<u32>)
      requires ram.Valid()
      modifies this
      ensures Reflects(ram, r, S.ExecRti(old(Snapshot(ram, cycles))))
    {
      ghost var m0 := Snapshot(ram, cycles);
      if !S.WordInRange(SP) {
        return S.Fault(SP + 1);
      }
      var c := PullProgramState(ram, cycles);
      ghost var m1 := Snapshot(ram, c);
      if !S.WordInRange(SP) {
        return S.Fault(SP + 1);
      }
      var caller;
      caller, c := ReadWord(ram, c, SP);
      ghost var m2 := Snapshot(ram, c);
      assert (m2, caller) == S.ReadWord(m1, m1.sp);
      assert S.ExecRti(m0) == S.Ok(S.Debit(m2.(pc := WrapWord(caller as int + 1), sp := WrapWord(m2.sp + 2)), 1));
      PC := WrapWord(caller as int + 1);
      SP := WrapWord(SP + 2);
      r := S.Ok(WrapU32(c as int - 1));
    }

    /** The default case of the switch. */
    method Trap(ram: Memory, cycles: u32, op: byte) returns (r: S.Result<u32>)
      requires ram.Valid()
      modifies this, ram.data
      ensures Reflects(ram, r, S.Trap(old(Snapshot(ram, cycles)), op))
    {
      ghost var m0 := Snapshot(ram, cycles);
      r := PushFrame(ram, cycles, PC);
      if r.Fault? {
        return;
      }
      ghost var m := Snapshot(ram, r.value);
      S.TrapAfterFrame(m0, op, m);
      A := 0x06;
      X := op;
      assert Snapshot(ram, r.value) == m.(a := 0x06, x := op);
      var c := JumpVia(ram, r.value, S.INVALID_OPCODE_VECTOR);
      r := S.Ok(c);
    }

    /** Runs the switch case of one decoded instruction. */
    method Exec(ram: Memory, cycles: u32, ins: Instr) returns (r: S.Result<u32>)
      requires ram.Valid()
      modifies this, ram.data
      ensures Reflects(ram, r, S.Exec(old(Snapshot(ram, cycles)), ins))
    {
      match ins
      case Adc(src, extra) => r := ExecAdc(ram, cycles, src, extra);
      case Logic(op, src, extra) => r := ExecLogic(ram, cycles, op, src, extra);
      case EorImmediate => r := ExecEorImmediate(ram, cycles);
      case Branch(flag, when) => r := ExecBranch(ram, cycles, flag, when);
      case Load(into, src, extra, flagsFromA) => r := ExecLoad(ram, cycles, into, src, extra, flagsFromA);
      case Store(from, dst, extra, echo) => r := ExecStore(ram, cycles, from, dst, extra, echo);
      case Compare(reg, src) => r := ExecCompare(ram, cycles, reg, src);
      case Modify(dst, increment, extra) => r := ExecModify(ram, cycles, dst, increment, extra);
      case Count(reg, increment, setsFlags) => r := ExecCount(ram, cycles, reg, increment, setsFlags);
      case Jmp => r := ExecJmp(ram, cycles);
      case Jsr => r := ExecJsr(ram, cycles);
      case Rts => r := ExecRts(ram, cycles);
      case Pha => r := ExecPha(ram, cycles);
      case Php => r := ExecPhp(ram, cycles);
      case Pla => r := ExecPla(ram, cycles);
      case Plp => r := ExecPlp(ram, cycles);
      case SetFlag(flag, value) => r := ExecSetFlag(ram, cycles, flag, value);
      case Nop => r := S.Ok(WrapU32(cycles - 1));
      case Brk => r := ExecBrk(ram, cycles);
      case Rti => r := ExecRti(ram, cycles);
    }

    /** One pass of the `Execute` loop: fetch the opcode byte and run its case. */
    method Step(ram: Memory, cycles: u32) returns (r: S.Result<u32>)
      requires ram.Valid()
      modifies this, ram.data
      ensures Reflects(ram, r, S.Step(old(Snapshot(ram, cycles))))
    {
      var op, c := FetchByte(ram, cycles);
      match Decode(op)
      case None => r := Trap(ram, c, op);
      case Some(ins) => r := Exec(ram, c, ins);
    }

    /** `while (cycles > 0) { ... }`, for at most `fuel` passes: the loop ends as `Run`
        says, with the machine in the state `Run` stops at. */
    method Execute(ram: Memory, cycles: u32, fuel: nat) returns (outcome: Outcome)
      requires ram.Valid()
      modifies this, ram.data
      ensures match S.Run(old(Snapshot(ram, cycles)), fuel)
              case Stopped(why, m) => outcome == Finished(why, m.cycles) && Snapshot(ram, m.cycles) == m
              case Aborted(address) => outcome == Abort(address)
    {
      ghost var m := Snapshot(ram, cycles);
      ghost var trace := S.Trace(S.Step, m, fuel);
      ghost var k := 0;
      var c, f := cycles, fuel;
      while c != 0 && f != 0
        invariant k < |trace| && Snapshot(ram, c) == trace[k] && f == fuel - k
        decreases f
      {
        S.TraceNext(S.Step, m, fuel, k);
        var r := Step(ram, c);
        if r.Fault? {
          return Abort(r.address);
        }
        c, f, k := r.value, f - 1, k + 1;
      }
      S.TraceStop(S.Step, m, fuel, k);
      outcome := Finished(if c == 0 then S.CyclesSpent else S.FuelSpent, c);
    }
  }
}
