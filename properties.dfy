/** What the emulator's operations promise, stated over the value model of module
    Semantics: round trips between the memory primitives, the stack pushes and pulls,
    the arithmetic and logic results, the instruction pairs that undo each other, and
    the quirks of the switch cases. */
module Properties {
  import opened Bits
  import opened StatusFlags
  import opened Opcodes
  import opened Semantics

  // ------------------------------------------------------------ memory primitives

  /** A word written at `address` reads back unchanged, high byte at `address` and low
      byte at `address + 1`; the write and the read cost two cycles each. */
  lemma ReadAfterWriteWord(m: Machine, address: int, data: word)
    requires WordInRange(address)
    ensures var m1 := WriteWord(m, address, data);
            m1.mem[address] == Hi(data) && m1.mem[address + 1] == Lo(data) &&
            ReadWord(m1, address).1 == data &&
            ReadWord(m1, address).0.cycles == WrapU32(m.cycles - 4)
  {
    var m1 := WriteWord(m, address, data);
    assert m1.mem[address] == Hi(data) && m1.mem[address + 1] == Lo(data);
    assert m1.cycles == WrapU32(WrapU32(m.cycles - 1) - 1);
    WrapTwice(m.cycles, 1, 1);
    var (m2, w) := ReadWord(m1, address);
    assert w == Join(Hi(data), Lo(data));
    JoinHiLo(data, 0, 0);
    assert m2.cycles == WrapU32(WrapU32(m1.cycles - 1) - 1);
    WrapTwice(m1.cycles, 1, 1);
    WrapTwice(m.cycles, 2, 2);
  }

  /** A byte write changes the addressed byte and no other, and costs one cycle. */
  lemma WriteByteFrame(m: Machine, address: int, data: byte, other: int)
    requires 0 <= address < MEM_SIZE && 0 <= other < MEM_SIZE
    ensures WriteByte(m, address, data).mem[other] == if other == address then data else m.mem[other]
    ensures WriteByte(m, address, data).cycles == WrapU32(m.cycles - 1)
  {
  }

  /** A word write leaves every byte outside its two bytes alone. */
  lemma WriteWordFrame(m: Machine, address: int, data: word, other: int)
    requires WordInRange(address) && 0 <= other < MEM_SIZE
    requires other != address && other != address + 1
    ensures WriteWord(m, address, data).mem[other] == m.mem[other]
  {
  }

  /** The two instruction bytes after the opcode are read in the order a word read uses,
      high byte first, and both advance PC by two. */
  lemma FetchWordIsReadWord(m: Machine)
    requires WordInRange(m.pc)
    ensures FetchWord(m).1 == ReadWord(m, m.pc).1
    ensures FetchWord(m).0.pc == WrapWord(m.pc + 2)
    ensures FetchWord(m).0.cycles == ReadWord(m, m.pc).0.cycles == WrapU32(m.cycles - 2)
  {
    WrapTwice(m.cycles, 1, 1);
  }

  /** Two successive debits of the unsigned budget are one debit of their sum. */
  lemma WrapTwice(c: int, n1: nat, n2: nat)
    ensures WrapU32(WrapU32(c - n1) - n2) == WrapU32(c - (n1 + n2))
  {
    var q := (c - n1) / 0x1_0000_0000;
    assert WrapU32(c - n1) == c - n1 - q * 0x1_0000_0000;
    ModShift(c - (n1 + n2), q);
  }

  lemma ModShift(x: int, q: int)
    ensures (x - q * 0x1_0000_0000) % 0x1_0000_0000 == x % 0x1_0000_0000
  {
    var r := x % 0x1_0000_0000;
    var k := x / 0x1_0000_0000;
    assert x - q * 0x1_0000_0000 == (k - q) * 0x1_0000_0000 + r;
    DivModUnique(x - q * 0x1_0000_0000, 0x1_0000_0000, k - q, r);
  }

  // ------------------------------------------------------------ the status word

  /** Pushing the flags lowers SP by two and stores them with high byte zero; pulling
      them right after restores all seven flags and SP, leaving memory as the push left it. */
  lemma PushPullProgramState(m: Machine)
    requires WordInRange(WrapWord(m.sp - 2))
    ensures var m1 := PushProgramState(m);
            m1.sp == WrapWord(m.sp - 2) && m1.mem[m1.sp] == 0 && m1.mem[m1.sp + 1] == Pack(m.flags)
    ensures var m2 := PullProgramState(PushProgramState(m));
            m2.flags == m.flags && m2.sp == m.sp && m2.mem == PushProgramState(m).mem &&
            m2.cycles == WrapU32(m.cycles - 4)
  {
    PushedState(m);
    PulledFlags(m);
    PulledStack(m);
  }

  lemma PushedState(m: Machine)
    requires WordInRange(WrapWord(m.sp - 2))
    ensures var m1 := PushProgramState(m);
            m1.sp == WrapWord(m.sp - 2) && m1.mem[m1.sp] == 0 && m1.mem[m1.sp + 1] == Pack(m.flags)
  {
    var sp := WrapWord(m.sp - 2);
    ReadAfterWriteWord(m.(sp := sp), sp, Pack(m.flags));
  }

  lemma PulledFlags(m: Machine)
    requires WordInRange(WrapWord(m.sp - 2))
    ensures PullProgramState(PushProgramState(m)).flags == m.flags
  {
    var sp := WrapWord(m.sp - 2);
    ReadAfterWriteWord(m.(sp := sp), sp, Pack(m.flags));
    UnpackPack(m.flags);
  }

  lemma PulledStack(m: Machine)
    requires WordInRange(WrapWord(m.sp - 2))
    ensures var m2 := PullProgramState(PushProgramState(m));
            m2.sp == m.sp && m2.mem == PushProgramState(m).mem && m2.cycles == WrapU32(m.cycles - 4)
  {
    var sp := WrapWord(m.sp - 2);
    var m1 := PushProgramState(m);
    assert m1.cycles == WriteWord(m.(sp := sp), sp, Pack(m.flags)).cycles;
    ReadAfterWriteWord(m.(sp := sp), sp, Pack(m.flags));
    var m2 := ReadWord(m1, sp).0;
    assert m2.cycles == WrapU32(m.cycles - 4) && m2.mem == m1.mem;
    assert PullProgramState(m1).sp == WrapWord(WrapWord(m.sp - 2) + 2);
    WordBack(m.sp, 2);
  }

  /** Lowering a word by `n` and raising it by `n` again gives it back. */
  lemma WordBack(w: word, n: nat)
    ensures WrapWord(WrapWord(w - n) + n) == w
  {
    var q := (w - n) / 0x1_0000;
    assert WrapWord(w - n) + n == w - q * 0x1_0000;
    DivModUnique(w - q * 0x1_0000, 0x1_0000, -q, w);
  }

  // ------------------------------------------------------------ arithmetic and logic

  /** EOR with the same byte twice gives A back. */
  lemma EorTwice(m: Machine, data: byte)
    ensures ApplyLogic(ApplyLogic(m, XorBits, data), XorBits, data).a == m.a
  {
    var once := ByteOp(XorBits, m.a, data);
    assert ApplyLogic(m, XorBits, data).a == once;
    assert ApplyLogic(ApplyLogic(m, XorBits, data), XorBits, data).a == ByteOp(XorBits, once, data);
    XorTwice(m.a, data, BYTE_BITS);
    assert Pow2(BYTE_BITS) == 0x100;
    DivModUnique(m.a, 0x100, 0, m.a);
  }

  /** AND and ORA with the same byte a second time change nothing. */
  lemma AndOraIdempotent(m: Machine, op: BitOp, data: byte)
    requires op != XorBits
    ensures ApplyLogic(ApplyLogic(m, op, data), op, data) == ApplyLogic(m, op, data)
  {
    AndOrIdempotent(op, m.a, data, BYTE_BITS);
  }

  /** EOR of A with itself clears A and sets Z; AND with 0xFF and ORA with 0 keep A. */
  lemma LogicIdentities(m: Machine)
    ensures ApplyLogic(m, XorBits, m.a).a == 0 && ApplyLogic(m, XorBits, m.a).flags.z
    ensures ApplyLogic(m, AndBits, 0xFF).a == m.a
    ensures ApplyLogic(m, OrBits, 0).a == m.a
  {
    XorSelf(m.a, BYTE_BITS);
    assert Pow2(BYTE_BITS) == 0x100;
    AndMask(m.a, 0xFF, BYTE_BITS);
    OrZero(m.a, BYTE_BITS);
    DivModUnique(m.a, 0x100, 0, m.a);
  }

  /** With `data = 0xFF` and C set, ADC's sum wraps back to A and its carry is lost,
      because C is computed as `A < oldA` in byte width. */
  lemma AdcCarry(a: byte, data: byte, f: Flags)
    ensures data == 0xFF && f.c ==> AddWithCarry(a, data, f).0 == a && !AddWithCarry(a, data, f).1.c
  {
    if data == 0xFF && f.c {
      DivModUnique(a + 0x100, 0x100, 1, a);
    }
  }

  /** EOR immediate fetches its operand but always leaves A = 0 and Z and N clear: the
      source assigns where it means to compare. */
  lemma EorImmediateClears(m: Machine)
    ensures ExecEorImmediate(m).Ok?
    ensures var m1 := ExecEorImmediate(m).value;
            m1.a == 0 && !m1.flags.z && !m1.flags.n && m1.pc == WrapWord(m.pc + 1) &&
            m1.flags.c == m.flags.c && m1.mem == m.mem && m1.cycles == WrapU32(m.cycles - 1)
  {
  }

  /** CMP, CPX and CPY change only the flags C, Z and N: C when the register is at least
      the operand, Z when they are equal (so Z implies C), N from bit 7 of
      `data - register`. */
  lemma CompareEffect(m: Machine, reg: Reg, src: Source)
    requires ReadOperand(m, src).Ok?
    ensures var (m1, data) := ReadOperand(m, src).value;
            var r := RegValue(m, reg);
            ExecCompare(m, reg, src).Ok? &&
            var m2 := ExecCompare(m, reg, src).value;
            m2.a == m.a && m2.x == m.x && m2.y == m.y && m2.sp == m.sp && m2.mem == m.mem &&
            (m2.flags.c <==> r >= data) && (m2.flags.z <==> r == data) &&
            (m2.flags.z ==> m2.flags.c) && (m2.flags.n <==> (data - r) % 0x100 >= 0x80) &&
            m2.flags.(c := m.flags.c, z := m.flags.z, n := m.flags.n) == m.flags
  {
  }
}
