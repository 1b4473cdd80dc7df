/** Machine integer types of the emulator. `byte` is `unsigned char`, `word` is
    `unsigned short` and `u32` is `unsigned int`: each is an integer range, and every
    arithmetic result stored into one is reduced modulo its size explicitly (`WrapByte`,
    `WrapWord`, `WrapU32`), which is what C's conversion to an unsigned type does. */
module Bits {

  type byte = b: int | 0 <= b < 0x100
  type word = w: int | 0 <= w < 0x1_0000
  type u32 = c: int | 0 <= c < 0x1_0000_0000

  /** Capacity of the address space: 1024 * 64 bytes. */
  const MEM_SIZE: int := 0x1_0000

  function WrapByte(x: int): byte
  {
    if 0 <= x < 0x100 then x
    else if -0x100 <= x < 0 then x + 0x100
    else x % 0x100
  }

  function WrapWord(x: int): word
  {
    if 0 <= x < 0x1_0000 then x
    else if -0x1_0000 <= x < 0 then x + 0x1_0000
    else x % 0x1_0000
  }

  function WrapU32(x: int): u32
  {
    if 0 <= x < 0x1_0000_0000 then x
    else if -0x1_0000_0000 <= x < 0 then x + 0x1_0000_0000
    else x % 0x1_0000_0000
  }

  /** The high byte of a word, `(data >> 8) & 0x00FF`. */
  function Hi(w: word): byte
  {
    (w / 0x100) % 0x100
  }

  /** The low byte of a word, `data & 0x00FF`; also what assigning a word to a byte keeps. */
  function Lo(w: word): byte
  {
    w % 0x100
  }

  /** `(high << 8) | low`: the shifted high byte and the low byte have no bit in common,
      so the bitwise or is their sum. */
  function Join(high: byte, low: byte): word
  {
    high * 0x100 + low
  }

  /** `(v & 0b10000000) > 0`: the sign bit of a byte, used for the N flag. */
  predicate Bit7(v: byte)
  {
    v >= 0x80
  }

  // ------------------------------------------------------------ bitwise operators

  datatype BitOp = AndBits | OrBits | XorBits

  function Pow2(n: nat): (p: nat)
    ensures p >= 1
  {
    if n == 0 then 1 else 2 * Pow2(n - 1)
  }

  function BitOf(op: BitOp, x: bool, y: bool): bool
  {
    match op
    case AndBits => x && y
    case OrBits => x || y
    case XorBits => x != y
  }

  /** `op` applied to the low `width` bits of `a` and `b`, bit by bit from bit 0 up. */
  function Bitwise(op: BitOp, a: nat, b: nat, width: nat): nat
    decreases width
  {
    if width == 0 then 0
    else
      (if BitOf(op, a % 2 == 1, b % 2 == 1) then 1 else 0) + 2 * Bitwise(op, a / 2, b / 2, width - 1)
  }

  /** Bits in a byte. */
  const BYTE_BITS: nat := 8

  /** `a & b`, `a | b` and `a ^ b` on bytes. */
  function ByteOp(op: BitOp, a: byte, b: byte): byte
  {
    BitwiseBound(op, a, b, BYTE_BITS);
    assert Pow2(BYTE_BITS) == 0x100;
    Bitwise(op, a, b, BYTE_BITS)
  }

  // ------------------------------------------------------------ lemmas

  /** The result of a `width`-bit operation has no bit at or above `width`. */
  lemma {:induction false} BitwiseBound(op: BitOp, a: nat, b: nat, width: nat)
    ensures Bitwise(op, a, b, width) < Pow2(width)
  {
    if width > 0 {
      BitwiseBound(op, a / 2, b / 2, width - 1);
    }
  }

  /** Splitting a word and joining its halves gives the word back, and the halves of a
      joined word are the bytes it was joined from. */
  lemma JoinHiLo(w: word, high: byte, low: byte)
    ensures Join(Hi(w), Lo(w)) == w
    ensures Hi(Join(high, low)) == high && Lo(Join(high, low)) == low
  {
  }

  /** Exclusive-or with the same operand twice gives back the low `width` bits. */
  lemma {:induction false} XorTwice(a: nat, b: nat, width: nat)
    ensures Bitwise(XorBits, Bitwise(XorBits, a, b, width), b, width) == a % Pow2(width)
  {
    if width > 0 {
      var r := Bitwise(XorBits, a, b, width);
      var rest := Bitwise(XorBits, a / 2, b / 2, width - 1);
      assert r % 2 == (if (a % 2 == 1) != (b % 2 == 1) then 1 else 0) && r / 2 == rest;
      XorTwice(a / 2, b / 2, width - 1);
      ModPow2Step(a, width);
    }
  }

  /** `x & b & b == x & b` and `x | b | b == x | b`. */
  lemma {:induction false} AndOrIdempotent(op: BitOp, a: nat, b: nat, width: nat)
    requires op != XorBits
    ensures Bitwise(op, Bitwise(op, a, b, width), b, width) == Bitwise(op, a, b, width)
  {
    if width > 0 {
      var r := Bitwise(op, a, b, width);
      var rest := Bitwise(op, a / 2, b / 2, width - 1);
      assert r % 2 == (if BitOf(op, a % 2 == 1, b % 2 == 1) then 1 else 0) && r / 2 == rest;
      AndOrIdempotent(op, a / 2, b / 2, width - 1);
    }
  }

  /** `a ^ a == 0`. */
  lemma {:induction false} XorSelf(a: nat, width: nat)
    ensures Bitwise(XorBits, a, a, width) == 0
  {
    if width > 0 {
      XorSelf(a / 2, width - 1);
    }
  }

  /** `a & mask`, with `mask` the `width` low bits all set, keeps the low `width` bits of `a`. */
  lemma {:induction false} AndMask(a: nat, mask: nat, width: nat)
    requires mask + 1 == Pow2(width)
    ensures Bitwise(AndBits, a, mask, width) == a % Pow2(width)
  {
    if width > 0 {
      var p := Pow2(width - 1);
      assert mask == 2 * (p - 1) + 1;
      assert mask % 2 == 1 && mask / 2 == p - 1;
      AndMask(a / 2, mask / 2, width - 1);
      ModPow2Step(a, width);
    }
  }

  /** `a | 0` keeps the low `width` bits of `a`. */
  lemma {:induction false} OrZero(a: nat, width: nat)
    ensures Bitwise(OrBits, a, 0, width) == a % Pow2(width)
  {
    if width > 0 {
      OrZero(a / 2, width - 1);
      assert Bitwise(OrBits, a, 0, width) == a % 2 + 2 * Bitwise(OrBits, a / 2, 0, width - 1);
      ModPow2Step(a, width);
    }
  }

  /** Reducing modulo 2^width peels off bit 0 and reduces the rest modulo 2^(width-1). */
  lemma ModPow2Step(a: nat, width: nat)
    requires width > 0
    ensures a % Pow2(width) == a % 2 + 2 * ((a / 2) % Pow2(width - 1))
  {
    var p := Pow2(width - 1);
    var q := (a / 2) / p;
    var r := a % 2 + 2 * ((a / 2) % p);
    assert a / 2 == q * p + (a / 2) % p;
    assert q * (2 * p) == 2 * (q * p);
    DivModUnique(a, 2 * p, q, r);
  }

  /** On a sum of two bytes and a carry, `WrapByte` is reduction modulo 256. */
  lemma WrapByteMod(x: int)
    requires 0 <= x < 0x200
    ensures WrapByte(x) == x % 0x100
  {
    if x >= 0x100 {
      DivModUnique(x, 0x100, 1, x - 0x100);
    } else {
      DivModUnique(x, 0x100, 0, x);
    }
  }

  lemma DivModUnique(a: int, d: int, q: int, r: int)
    requires d > 0 && 0 <= r < d && a == q * d + r
    ensures a % d == r
  {
    var q', r' := a / d, a % d;
    assert a == q' * d + r';
    Distribute(q, q', d);
    Distribute(q', q, d);
    if q > q' {
      MulAtLeast(q - q', d);
    } else if q < q' {
      MulAtLeast(q' - q, d);
    }
  }

  lemma MulAtLeast(k: int, d: int)
    requires k >= 1 && d > 0
    ensures k * d >= d
  {
  }

  lemma Distribute(x: int, y: int, d: int)
    ensures (x - y) * d == x * d - y * d
  {
  }
}
