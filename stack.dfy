/** The stack instructions as pairs: what a push leaves in memory, and what the matching
    pull or return then restores. Stack slots are two bytes wide and every word is stored
    high byte first, so a pushed byte occupies a whole slot with a zero high byte. */
module StackProperties {
  import opened Bits
  import opened StatusFlags
  import opened Semantics
  import opened Properties

  /** The word stored at `address`, high byte first, as `ReadWord` assembles it. */
  function WordAt(m: Machine, address: int): word
    requires WordInRange(address)
  {
    Join(m.mem[address], m.mem[address + 1])
  }

  /** A word read returns the word stored at the address and costs two cycles. */
  lemma ReadWordIsWordAt(m: Machine, address: int)
    requires WordInRange(address)
    ensures ReadWord(m, address).1 == WordAt(m, address)
    ensures ReadWord(m, address).0 == Debit(m, 2)
  {
    WrapTwice(m.cycles, 1, 1);
  }

  // ------------------------------------------------------------ PHA and PLA

  /** PHA stores A as a word in a new slot below SP, high byte zero; PLA right after it
      gives A back and returns SP to where it was. Z and N then describe A, and the four
      byte accesses cost four cycles. */
  lemma PhaPla(m: Machine)
    requires WordInRange(WrapWord(m.sp - 2))
    ensures ExecPha(m).Ok?
    ensures var m1 := ExecPha(m).value;
            m1.sp == WrapWord(m.sp - 2) && WordAt(m1, m1.sp) == m.a && m1.mem[m1.sp] == 0
    ensures ExecPla(ExecPha(m).value).Ok?
    ensures var m2 := ExecPla(ExecPha(m).value).value;
            m2.a == m.a && m2.sp == m.sp && m2.flags == WithZN(m.flags, m.a) &&
            m2.mem == ExecPha(m).value.mem && m2.pc == m.pc && m2.cycles == WrapU32(m.cycles - 4)
  {
    var sp := WrapWord(m.sp - 2);
    ReadAfterWriteWord(m.(sp := sp), sp, m.a);
    var m1 := ExecPha(m).value;
    assert m1 == WriteWord(m.(sp := sp), sp, m.a);
    ReadWordIsWordAt(m1, sp);
    JoinHiLo(m.a, 0, 0);
    DivModUnique(m.a, 0x100, 0, m.a);
    assert Lo(m.a) == m.a;
    WordBack(m.sp, 2);
    WrapTwice(m.cycles, 2, 2);
  }

  // ------------------------------------------------------------ JSR and RTS

  /** JSR raises SP by two and stores `PC - 1` there, PC being the address of its operand,
      that is, the address of the JSR opcode itself. An RTS that finds SP where JSR left
      it jumps back to that opcode, not past it, and raises SP by two more: the call
      and the return do not cancel out. */
  lemma JsrRts(m: Machine)
    requires WordInRange(WrapWord(m.sp + 2))
    ensures ExecJsr(m).Ok?
    ensures var m1 := ExecJsr(m).value;
            m1.sp == WrapWord(m.sp + 2) && WordAt(m1, m1.sp) == WrapWord(m.pc - 1)
    ensures ExecRts(ExecJsr(m).value).Ok?
    ensures var m2 := ExecRts(ExecJsr(m).value).value;
            m2.pc == WrapWord(m.pc - 1) && m2.sp == WrapWord(m.sp + 4)
  {
    var sp := WrapWord(m.sp + 2);
    var ret := WrapWord(m.pc - 1);
    ReadAfterWriteWord(m.(sp := sp), sp, ret);
    var w := WriteWord(m.(sp := sp), sp, ret);
    var m1 := ExecJsr(m).value;
    assert m1.mem == w.mem && m1.sp == sp;
    ReadWordIsWordAt(w, sp);
    ReadWordIsWordAt(m1, sp);
    SpTwice(m.sp);
  }

  /** Raising SP by two twice raises it by four. */
  lemma SpTwice(sp: word)
    ensures WrapWord(WrapWord(sp + 2) + 2) == WrapWord(sp + 4)
  {
    if sp + 2 >= 0x1_0000 {
      DivModUnique(sp + 2, 0x1_0000, 1, sp + 2 - 0x1_0000);
      DivModUnique(sp + 4, 0x1_0000, 1, sp + 4 - 0x1_0000);
    } else if sp + 4 >= 0x1_0000 {
      DivModUnique(sp + 4, 0x1_0000, 1, sp + 4 - 0x1_0000);
    }
  }

  // ------------------------------------------------------------ the interrupt frame

  /** The frame BRK and the default case push: the return word in the slot below SP, the
      packed flags (high byte zero) in the slot below that, SP at the flags. Nothing but
      SP, memory and the budget changes, and the two slots never overlap. */
  lemma FrameLayout(m: Machine, ret: word, m1: Machine)
    requires PushFrame(m, ret) == Ok(m1)
    ensures var s1 := WrapWord(m.sp - 2);
            WordInRange(s1) && WordInRange(m1.sp) && m1.sp == WrapWord(s1 - 2) &&
            WordAt(m1, s1) == ret && WordAt(m1, m1.sp) == Pack(m.flags) && m1.mem[m1.sp] == 0 &&
            WrapWord(m1.sp + 2) == s1 && WrapWord(s1 + 2) == m.sp
    ensures m1 == m.(sp := m1.sp, mem := m1.mem, cycles := WrapU32(m.cycles - 4))
  {
    var s1 := WrapWord(m.sp - 2);
    var p := PushWord(m, ret);
    ReadAfterWriteWord(m.(sp := s1), s1, ret);
    var s2 := WrapWord(s1 as int - 2);
    ReadAfterWriteWord(p.(sp := s2), s2, Pack(m.flags));
    assert m1 == WriteWord(p.(sp := s2), s2, Pack(m.flags));
    WriteWordFrame(p.(sp := s2), s2, Pack(m.flags), s1);
    WriteWordFrame(p.(sp := s2), s2, Pack(m.flags), s1 + 1);
    WordBack(s1, 2);
    WordBack(m.sp, 2);
    WrapTwice(m.cycles, 2, 2);
  }

  /** BRK pushes `PC - 1` (the address of the BRK opcode, PC being just past it) and then
      the flags, sets B and jumps to the word at `0xFDFC + 2 * A`. */
  lemma BrkEffect(m: Machine)
    requires WordInRange(WrapWord(m.sp - 2)) && WordInRange(WrapWord(WrapWord(m.sp - 2) - 2))
    ensures ExecBrk(m).Ok?
    ensures var m1 := ExecBrk(m).value;
            m1.sp == WrapWord(WrapWord(m.sp - 2) - 2) &&
            WordAt(m1, WrapWord(m.sp - 2)) == WrapWord(m.pc - 1) &&
            WordAt(m1, m1.sp) == Pack(m.flags) &&
            m1.flags == m.flags.(b := true) &&
            m1.pc == WordAt(m1, 0xFDFC + 2 * m.a) &&
            m1.a == m.a && m1.x == m.x && m1.y == m.y
  {
    var m1 := PushFrame(m, WrapWord(m.pc - 1)).value;
    FrameLayout(m, WrapWord(m.pc - 1), m1);
    BrkAfterFrame(m, m1);
    ReadWordIsWordAt(m1.(flags := m1.flags.(b := true)), VectorAddress(m1.a));
  }

  /** An RTI right after BRK (the handler having left SP and the frame alone) restores the
      flags BRK found, B included, returns SP to where it was, and resumes one past the
      BRK opcode: at the byte after it. */
  lemma BrkRti(m: Machine)
    requires WordInRange(WrapWord(m.sp - 2)) && WordInRange(WrapWord(WrapWord(m.sp - 2) - 2))
    ensures ExecBrk(m).Ok? && ExecRti(ExecBrk(m).value).Ok?
    ensures var m2 := ExecRti(ExecBrk(m).value).value;
            m2.flags == m.flags && m2.sp == m.sp && m2.pc == m.pc &&
            m2.a == m.a && m2.x == m.x && m2.y == m.y
  {
    var s1 := WrapWord(m.sp - 2);
    var m0 := PushFrame(m, WrapWord(m.pc - 1)).value;
    FrameLayout(m, WrapWord(m.pc - 1), m0);
    BrkAfterFrame(m, m0);
    var m1 := ExecBrk(m).value;
    assert m1.mem == m0.mem && m1.sp == m0.sp;
    ReadWordIsWordAt(m1, m1.sp);
    UnpackPack(m.flags);
    var p := PullProgramState(m1);
    assert p.flags == m.flags && p.sp == s1 && p.mem == m1.mem;
    ReadWordIsWordAt(p, s1);
    WordBack(m.pc, 1);
  }

  /** An opcode the switch has no case for pushes PC (the address after the bad byte) and
      the flags, sets A to 6 and X to the opcode, leaves B alone, and jumps to the word at
      0xFE06, the sixth entry of the vector table. */
  lemma TrapEffect(m: Machine, op: byte)
    requires WordInRange(WrapWord(m.sp - 2)) && WordInRange(WrapWord(WrapWord(m.sp - 2) - 2))
    ensures Trap(m, op).Ok?
    ensures var m1 := Trap(m, op).value;
            m1.sp == WrapWord(WrapWord(m.sp - 2) - 2) &&
            WordAt(m1, WrapWord(m.sp - 2)) == m.pc &&
            WordAt(m1, m1.sp) == Pack(m.flags) &&
            m1.a == 0x06 && m1.x == op && m1.y == m.y && m1.flags == m.flags &&
            m1.pc == WordAt(m1, 0xFE06)
  {
    var m0 := PushFrame(m, m.pc).value;
    FrameLayout(m, m.pc, m0);
    TrapAfterFrame(m, op, m0);
    ReadWordIsWordAt(m0.(a := 0x06, x := op), INVALID_OPCODE_VECTOR);
  }
}
