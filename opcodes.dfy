/** The opcode bytes the CPU's switch recognises, and what each case does, as data.
    Every case of the source switch is one entry of `Decode`; the cycles a case debits
    beyond its fetches, reads and writes (its `cycles--` and `cycles -= n` lines) are
    the `extra` field, so that cases that share a body differ only in their entry. */
module Opcodes {
  import opened Bits

  datatype Option<T> = None | Some(value: T)

  datatype Reg = RegA | RegX | RegY

  datatype FlagName = Carry | Zero | Interrupt | Decimal | Break | Overflow | Negative

  /** How a memory operand's address is formed after the opcode. */
  datatype Addressing =
    | ZeroPage              // a fetched byte
    | ZeroPageIndexed(r: Reg)     // a fetched byte held in a word, plus the register (not masked)
    | ZeroPageIndexedWrap(r: Reg) // a fetched byte plus the register, in byte arithmetic
    | Absolute              // a fetched word, high byte first
    | AbsoluteIndexed(r: Reg)     // a fetched word plus the register, in 32-bit arithmetic

  /** Where a read operand comes from. */
  datatype Source = Immediate | Memory(mode: Addressing)

  datatype Instr =
    | Adc(src: Source, extra: nat)
    | Logic(op: BitOp, src: Source, extra: nat)   // AND, ORA, EOR: `A = A op data`
    | EorImmediate                         // `Z = (A = 0)`: see Semantics.ExecEorImmediate
    | Branch(flag: FlagName, when: bool)   // taken when the flag equals `when`
    | Load(into: Reg, src: Source, extra: nat, flagsFromA: bool)
    | Store(from: Reg, dst: Addressing, extra: nat, echo: bool)
    | Compare(reg: Reg, src: Source)
    | Modify(dst: Addressing, increment: bool, extra: nat)
    | Count(reg: Reg, increment: bool, setsFlags: bool)
    | Jmp
    | Jsr
    | Rts
    | Pha
    | Php
    | Pla
    | Plp
    | SetFlag(flag: FlagName, value: bool)
    | Nop
    | Brk
    | Rti

  const INS_BRK: byte := 0x00
  const INS_RTI: byte := 0x40
  const INS_JSR: byte := 0x20
  const INS_RTS: byte := 0x60
  const INS_PHA: byte := 0x48
  const INS_PLA: byte := 0x68
  const INS_PHP: byte := 0x08
  const INS_PLP: byte := 0x28
  const INS_LDA_IM: byte := 0xA9
  const INS_SDA_ABS: byte := 0x8D

  /** The addressing mode of an instruction's memory operand, if it has one. */
  function OperandMode(ins: Instr): Option<Addressing>
  {
    match ins
    case Adc(src, _) => if src.Memory? then Some(src.mode) else None
    case Logic(_, src, _) => if src.Memory? then Some(src.mode) else None
    case Load(_, src, _, _) => if src.Memory? then Some(src.mode) else None
    case Compare(_, src) => if src.Memory? then Some(src.mode) else None
    case Store(_, dst, _, _) => Some(dst)
    case Modify(dst, _, _) => Some(dst)
    case _ => None
  }

  /** What the decoded cases have in common: of all the instructions, only LDX zero page,Y
      adds its index in byte arithmetic; a load sets Z and N (from A) exactly in its
      immediate form; a store echoes to the console exactly in its absolute forms; DEX and
      DEY set flags, INX and INY do not; and no DEC form adds X to an absolute address. */
  predicate CaseShape(op: byte, ins: Instr)
  {
    (OperandMode(ins).Some? && OperandMode(ins).value.ZeroPageIndexedWrap? ==> op == 0xB6) &&
    match ins
    case Load(_, src, _, flagsFromA) => flagsFromA <==> src == Immediate
    case Store(_, dst, _, echo) => echo <==> dst.Absolute? || dst.AbsoluteIndexed?
    case Count(_, increment, setsFlags) => setsFlags <==> !increment
    case Modify(dst, increment, _) => !increment ==> !dst.AbsoluteIndexed?
    case _ => true
  }

  /** The instructions the source names by a constant each have that one opcode: the stack
      and interrupt instructions, LDA immediate and SDA absolute. */
  predicate NamedOpcode(op: byte, ins: Instr)
  {
    match ins
    case Brk => op == INS_BRK
    case Rti => op == INS_RTI
    case Jsr => op == INS_JSR
    case Rts => op == INS_RTS
    case Pha => op == INS_PHA
    case Pla => op == INS_PLA
    case Php => op == INS_PHP
    case Plp => op == INS_PLP
    case Load(into, src, _, _) => into == RegA && src == Immediate ==> op == INS_LDA_IM
    case Store(from, dst, _, _) => from == RegA && dst == Absolute ==> op == INS_SDA_ABS
    case _ => true
  }

  /** The case of the switch that handles `op`, or `None` for the default (invalid opcode) case. */
  function Decode(op: byte): Option<Instr>
  {
    match op
    // ADC
    case 0x69 => Some(Adc(Immediate, 0))
    case 0x65 => Some(Adc(Memory(ZeroPage), 0))
    case 0x75 => Some(Adc(Memory(ZeroPageIndexed(RegX)), 1))
    case 0x6D => Some(Adc(Memory(Absolute), 0))
    case 0x7D => Some(Adc(Memory(AbsoluteIndexed(RegX)), 0))
    case 0x79 => Some(Adc(Memory(AbsoluteIndexed(RegY)), 0))
    // CLC, CLD, CLV
    case 0x18 => Some(SetFlag(Carry, false))
    case 0xD8 => Some(SetFlag(Decimal, false))
    case 0xB8 => Some(SetFlag(Overflow, false))
    // EOR
    case 0x49 => Some(EorImmediate)
    case 0x45 => Some(Logic(XorBits, Memory(ZeroPage), 0))
    case 0x55 => Some(Logic(XorBits, Memory(ZeroPageIndexed(RegX)), 1))
    case 0x4D => Some(Logic(XorBits, Memory(Absolute), 0))
    case 0x5D => Some(Logic(XorBits, Memory(AbsoluteIndexed(RegX)), 1))
    case 0x59 => Some(Logic(XorBits, Memory(AbsoluteIndexed(RegY)), 1))
    // ORA
    case 0x09 => Some(Logic(OrBits, Immediate, 0))
    case 0x05 => Some(Logic(OrBits, Memory(ZeroPage), 0))
    case 0x15 => Some(Logic(OrBits, Memory(ZeroPageIndexed(RegX)), 1))
    case 0x0D => Some(Logic(OrBits, Memory(Absolute), 0))
    case 0x1D => Some(Logic(OrBits, Memory(AbsoluteIndexed(RegX)), 1))
    case 0x19 => Some(Logic(OrBits, Memory(AbsoluteIndexed(RegY)), 1))
    // BCC, BCS, BEQ, BNE, BPL, BVC, BVS (BMI 0x30 has no case)
    case 0x90 => Some(Branch(Carry, false))
    case 0xB0 => Some(Branch(Carry, true))
    case 0xF0 => Some(Branch(Zero, true))
    case 0xD0 => Some(Branch(Zero, false))
    case 0x10 => Some(Branch(Negative, false))
    case 0x50 => Some(Branch(Overflow, false))
    case 0x70 => Some(Branch(Overflow, true))
    // AND
    case 0x29 => Some(Logic(AndBits, Immediate, 0))
    case 0x25 => Some(Logic(AndBits, Memory(ZeroPage), 0))
    case 0x35 => Some(Logic(AndBits, Memory(ZeroPageIndexed(RegX)), 0))
    case 0x2D => Some(Logic(AndBits, Memory(Absolute), 0))
    case 0x3D => Some(Logic(AndBits, Memory(AbsoluteIndexed(RegX)), 0))
    case 0x39 => Some(Logic(AndBits, Memory(AbsoluteIndexed(RegY)), 0))
    // LDA, LDX, LDY: immediate forms set Z and N from A; zero-page forms set no flag
    case 0xA9 => Some(Load(RegA, Immediate, 0, true))
    case 0xA5 => Some(Load(RegA, Memory(ZeroPage), 0, false))
    case 0xB5 => Some(Load(RegA, Memory(ZeroPageIndexed(RegX)), 1, false))
    case 0xA2 => Some(Load(RegX, Immediate, 0, true))
    case 0xA6 => Some(Load(RegX, Memory(ZeroPage), 0, false))
    case 0xB6 => Some(Load(RegX, Memory(ZeroPageIndexedWrap(RegY)), 1, false))
    case 0xA0 => Some(Load(RegY, Immediate, 0, true))
    case 0xA4 => Some(Load(RegY, Memory(ZeroPage), 0, false))
    case 0xB4 => Some(Load(RegY, Memory(ZeroPageIndexed(RegX)), 1, false))
    // JMP, JSR, RTS
    case 0x4C => Some(Jmp)
    case 0x20 => Some(Jsr)
    case 0x60 => Some(Rts)
    // CMP, CPX, CPY
    case 0xC9 => Some(Compare(RegA, Immediate))
    case 0xC5 => Some(Compare(RegA, Memory(ZeroPage)))
    case 0xD5 => Some(Compare(RegA, Memory(ZeroPageIndexed(RegX))))
    case 0xCD => Some(Compare(RegA, Memory(Absolute)))
    case 0xDD => Some(Compare(RegA, Memory(AbsoluteIndexed(RegX))))
    case 0xD9 => Some(Compare(RegA, Memory(AbsoluteIndexed(RegY))))
    case 0xE0 => Some(Compare(RegX, Immediate))
    case 0xE4 => Some(Compare(RegX, Memory(ZeroPage)))
    case 0xEC => Some(Compare(RegX, Memory(Absolute)))
    case 0xC0 => Some(Compare(RegY, Immediate))
    case 0xC4 => Some(Compare(RegY, Memory(ZeroPage)))
    case 0xCC => Some(Compare(RegY, Memory(Absolute)))
    // DEC, INC (DEC_ABSX reads and writes the fetched address, without X)
    case 0xC6 => Some(Modify(ZeroPage, false, 1))
    case 0xD6 => Some(Modify(ZeroPageIndexed(RegX), false, 2))
    case 0xCE => Some(Modify(Absolute, false, 1))
    case 0xDE => Some(Modify(Absolute, false, 2))
    case 0xE6 => Some(Modify(ZeroPage, true, 1))
    case 0xF6 => Some(Modify(ZeroPageIndexed(RegX), true, 2))
    case 0xEE => Some(Modify(Absolute, true, 1))
    case 0xFE => Some(Modify(AbsoluteIndexed(RegX), true, 0))
    // DEX, DEY set Z and N; INX, INY set no flag
    case 0xCA => Some(Count(RegX, false, true))
    case 0x88 => Some(Count(RegY, false, true))
    case 0xE8 => Some(Count(RegX, true, false))
    case 0xC8 => Some(Count(RegY, true, false))
    // PHA, PHP, PLA, PLP
    case 0x48 => Some(Pha)
    case 0x08 => Some(Php)
    case 0x68 => Some(Pla)
    case 0x28 => Some(Plp)
    // SDA (store A), SDX (store X): the absolute forms echo a store to 0xFFFF
    case 0x85 => Some(Store(RegA, ZeroPage, 0, false))
    case 0x95 => Some(Store(RegA, ZeroPageIndexed(RegX), 1, false))
    case 0x8D => Some(Store(RegA, Absolute, 0, true))
    case 0x9D => Some(Store(RegA, AbsoluteIndexed(RegX), 1, true))
    case 0x99 => Some(Store(RegA, AbsoluteIndexed(RegY), 1, true))
    case 0x86 => Some(Store(RegX, ZeroPage, 0, false))
    case 0x96 => Some(Store(RegX, ZeroPageIndexed(RegY), 1, false))
    case 0x8E => Some(Store(RegX, Absolute, 0, true))
    // CLI, SEI, NOP, BRK, RTI
    case 0x58 => Some(SetFlag(Interrupt, false))
    case 0x78 => Some(SetFlag(Interrupt, true))
    case 0xEA => Some(Nop)
    case 0x00 => Some(Brk)
    case 0x40 => Some(Rti)
    case _ => None
  }

  /** Every case of the switch has the shape `CaseShape` describes. */
  lemma DecodeShape(op: byte)
    ensures Decode(op).Some? ==> CaseShape(op, Decode(op).value)
  {
  }

  /** Each instruction named by a constant is reached from that opcode only. */
  lemma DecodeNamed(op: byte)
    ensures Decode(op).Some? ==> NamedOpcode(op, Decode(op).value)
  {
  }
}
