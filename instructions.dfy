/** Single instructions and the pairs that undo each other, stated over the value model:
    the switch cases that have no entry, the quirks of the load, count and modify cases,
    branches, stores, the range of the addressing modes, and the unsigned cycle budget. */
module InstructionProperties {
  import opened Bits
  import opened Opcodes
  import opened Semantics
  import opened Properties

  // ------------------------------------------------------------ the switch

  /** BMI (0x30), TAX (0xAA) and TAY/TSX (0xA8) are declared but have no case: a step on
      any of them takes the default case. */
  lemma UndeclaredOpcodesTrap(m: Machine)
    requires m.mem[m.pc] == 0x30 || m.mem[m.pc] == 0xAA || m.mem[m.pc] == 0xA8
    ensures Decode(m.mem[m.pc]) == None
    ensures Step(m) == Trap(FetchByte(m).0, m.mem[m.pc])
  {
    if m.mem[m.pc] == 0x30 {
      StepUndecoded(m, 0x30);
    } else if m.mem[m.pc] == 0xAA {
      StepUndecoded(m, 0xAA);
    } else {
      StepUndecoded(m, 0xA8);
    }
  }

  // ------------------------------------------------------------ loads

  /** LDX and LDY immediate load the fetched byte but set Z and N from A, not from the
      register they load. */
  lemma LoadImmediateFlagsFromA(m: Machine, into: Reg)
    ensures Decode(0xA2) == Some(Load(RegX, Immediate, 0, true))
    ensures Decode(0xA0) == Some(Load(RegY, Immediate, 0, true))
    ensures ExecLoad(m, into, Immediate, 0, true).Ok?
    ensures var m1 := ExecLoad(m, into, Immediate, 0, true).value;
            RegValue(m1, into) == m.mem[m.pc] &&
            m1.flags == WithZN(m.flags, m1.a) &&
            (into != RegA ==> m1.a == m.a && m1.flags == WithZN(m.flags, m.a))
  {
  }

  /** The zero-page loads read the byte at the fetched address and leave every flag as
      it was. */
  lemma LoadZeroPageKeepsFlags(m: Machine, into: Reg)
    ensures Decode(0xA5) == Some(Load(RegA, Memory(ZeroPage), 0, false))
    ensures Decode(0xA6) == Some(Load(RegX, Memory(ZeroPage), 0, false))
    ensures Decode(0xA4) == Some(Load(RegY, Memory(ZeroPage), 0, false))
    ensures ExecLoad(m, into, Memory(ZeroPage), 0, false).Ok?
    ensures var m1 := ExecLoad(m, into, Memory(ZeroPage), 0, false).value;
            RegValue(m1, into) == m.mem[m.mem[m.pc]] && m1.flags == m.flags
  {
  }

  // ------------------------------------------------------------ counts and modifies

  /** INX and INY set no flag; DEX and DEY set Z and N from the new value. An INX or INY
      followed by the matching decrement gives the register back. */
  lemma IncrementDecrementRegister(m: Machine, reg: Reg)
    ensures ExecCount(m, reg, true, false).Ok? && ExecCount(m, reg, true, false).value.flags == m.flags
    ensures var m1 := ExecCount(m, reg, true, false).value;
            ExecCount(m1, reg, false, true).Ok? &&
            var m2 := ExecCount(m1, reg, false, true).value;
            RegValue(m2, reg) == RegValue(m, reg) &&
            m2.flags == WithZN(m.flags, RegValue(m, reg)) &&
            m2.cycles == WrapU32(m.cycles - 2)
  {
    var v := RegValue(m, reg);
    ByteBack(v, 1);
    WrapTwice(m.cycles, 1, 1);
  }

  /** Adding one to a byte and taking one away again, or the other way round, gives the
      byte back. */
  lemma ByteBack(b: byte, n: nat)
    requires n < 0x100
    ensures WrapByte(WrapByte(b + n) - n) == b
    ensures WrapByte(WrapByte(b - n) + n) == b
  {
    if b + n >= 0x100 {
      DivModUnique(b + n, 0x100, 1, b + n - 0x100);
    }
  }

  /** INC on a memory byte followed by DEC on the same byte leaves memory as it was, with
      Z and N describing the byte; DEC then INC likewise. Each costs two cycles. */
  lemma IncrementDecrementMemory(m: Machine, address: int, first: bool)
    requires 0 <= address < MEM_SIZE
    ensures var m2 := ModifyAt(ModifyAt(m, address, first), address, !first);
            m2.mem == m.mem && m2.flags == WithZN(m.flags, m.mem[address]) &&
            m2.cycles == WrapU32(m.cycles - 4)
  {
    var d := m.mem[address];
    ByteBack(d, 1);
    var m1 := ModifyAt(m, address, first);
    var d1 := WrapByte(if first then d as int + 1 else d as int - 1);
    assert m1.mem == m.mem[address := d1];
    var m2 := ModifyAt(m1, address, !first);
    assert m2.mem == m.mem[address := d1][address := d];
    assert m.mem[address := d1][address := d] == m.mem;
    WrapTwice(m.cycles, 1, 1);
    WrapTwice(m1.cycles, 1, 1);
    WrapTwice(m.cycles, 2, 2);
  }

  // ------------------------------------------------------------ stores

  /** A store writes the register's byte at the address and nowhere else; the absolute
      forms also send it to the console when the address is 0xFFFF, and only then. */
  lemma StoreThenRead(m: Machine, from: Reg, address: int, echo: bool)
    requires 0 <= address < MEM_SIZE
    ensures var m1 := StoreAt(m, from, address, echo);
            ReadByte(m1, address).1 == RegValue(m, from) &&
            (forall other :: 0 <= other < MEM_SIZE && other != address ==> m1.mem[other] == m.mem[other]) &&
            m1.out == (if echo && address == 0xFFFF then m.out + [RegValue(m, from)] else m.out) &&
            m1.cycles == WrapU32(m.cycles - 1)
  {
  }

  // ------------------------------------------------------------ branches

  /** A branch fetches an offset byte and costs two cycles; when the flag has the value
      the case tests, the unsigned offset is added to PC (already past the offset byte),
      wrapping at 64 KiB, for one more cycle. Nothing else changes. */
  lemma BranchEffect(m: Machine, flag: FlagName, when: bool)
    ensures ExecBranch(m, flag, when).Ok?
    ensures var m1 := ExecBranch(m, flag, when).value;
            var offset := m.mem[m.pc];
            m1 == m.(pc := m1.pc, cycles := m1.cycles) &&
            (FlagValue(m.flags, flag) == when ==>
               m1.pc == WrapWord(m.pc + 1 + offset) && m1.cycles == WrapU32(m.cycles - 3)) &&
            (FlagValue(m.flags, flag) != when ==>
               m1.pc == WrapWord(m.pc + 1) && m1.cycles == WrapU32(m.cycles - 2))
  {
    WrapTwice(m.cycles, 1, 1);
    WrapTwice(m.cycles, 2, 1);
    WordShift(m.pc, 1, m.mem[m.pc]);
  }

  /** Two successive additions to a word, each wrapped, are one wrapped addition. */
  lemma WordShift(w: word, n1: nat, n2: nat)
    ensures WrapWord(WrapWord(w + n1) + n2) == WrapWord(w + n1 + n2)
  {
    var q := (w + n1) / 0x1_0000;
    var r := (w + n1 + n2) % 0x1_0000;
    var k := (w + n1 + n2) / 0x1_0000;
    assert WrapWord(w + n1) + n2 == (k - q) * 0x1_0000 + r;
    DivModUnique(WrapWord(w + n1) + n2, 0x1_0000, k - q, r);
  }

  // ------------------------------------------------------------ addressing

  /** A read operand faults exactly when its address is past the end of memory, which
      only the absolute indexed forms can reach. */
  lemma AddressRange(m: Machine, mode: Addressing)
    ensures ReadOperand(m, Memory(mode)).Fault? <==> EffectiveAddress(m, mode).1 >= MEM_SIZE
    ensures ReadOperand(m, Memory(mode)).Fault? ==> mode.AbsoluteIndexed?
  {
  }

  /** The zero page,X forms add the index to the fetched byte in word arithmetic, so the
      sum is not kept in the first page; LDX zero page,Y adds it in byte arithmetic. */
  lemma ZeroPageIndexWidths(m: Machine)
    requires m.mem[m.pc] == 0xFF && m.x == 1 && m.y == 1
    ensures EffectiveAddress(m, ZeroPageIndexed(RegX)).1 == 0x100
    ensures EffectiveAddress(m, ZeroPageIndexedWrap(RegY)).1 == 0x00
    // LDA and LDY zero page,X (0xB5, 0xB4) index by X in a word; LDX zero page,Y (0xB6) by Y in a byte
    ensures Decode(0xB5) == Some(Load(RegA, Memory(ZeroPageIndexed(RegX)), 1, false))
    ensures Decode(0xB4) == Some(Load(RegY, Memory(ZeroPageIndexed(RegX)), 1, false))
    ensures Decode(0xB6) == Some(Load(RegX, Memory(ZeroPageIndexedWrap(RegY)), 1, false))
  {
  }

  /** An absolute indexed operand at 0xFFFF with X = 1 addresses 0x10000, one past the
      end of memory: the source's bounds assertion fails. */
  lemma AbsoluteIndexedPastEnd(m: Machine)
    requires m.pc < 0xFFFF && m.mem[m.pc] == 0xFF && m.mem[m.pc + 1] == 0xFF && m.x == 1
    ensures ReadOperand(m, Memory(AbsoluteIndexed(RegX))) == Fault(0x1_0000)
  {
  }

  // ------------------------------------------------------------ the cycle budget

  /** The budget is unsigned and decremented without a check: with one cycle left, an
      LDA immediate (an opcode fetch and an operand fetch) leaves 0xFFFFFFFF, and the
      loop goes on. */
  lemma OverdrawnBudgetWraps(m: Machine)
    requires m.cycles == 1 && m.mem[m.pc] == INS_LDA_IM
    ensures Step(m).Ok? && Step(m).value.cycles == 0xFFFF_FFFF
    ensures Run(m, 2) == Run(Step(m).value, 1)
  {
    StepDecoded(m, INS_LDA_IM, Load(RegA, Immediate, 0, true));
  }
}
