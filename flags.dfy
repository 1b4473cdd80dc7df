/** The seven one-bit status flags and their packing into a stack word
    (bit 0 = C, bit 1 = Z, bit 2 = I, bit 3 = D, bit 4 = B, bit 5 = V, bit 6 = N). */
module StatusFlags {
  import opened Bits

  /** `byte C : 1; ... byte N : 1;` of the CPU struct; a set bit is `true`. */
  datatype Flags = Flags(c: bool, z: bool, i: bool, d: bool, b: bool, v: bool, n: bool)

  const Cleared: Flags := Flags(false, false, false, false, false, false, false)

  /** The value a one-bit field reads as. */
  function Bit(f: bool): byte
  {
    if f then 1 else 0
  }

  /** Storing a wider value into a one-bit field keeps only its lowest bit. */
  predicate LowBit(v: int)
  {
    v % 2 == 1
  }

  /** `C & 0x0F | (Z & 0x0F) << 1 | ... | (N & 0x0F) << 6`. Each field holds 0 or 1, so
      `& 0x0F` leaves it alone and `<< k` moves it to bit k; the seven terms occupy seven
      different bits, so bit k of the word is flag k of the order C, Z, I, D, B, V, N. */
  function Pack(f: Flags): (w: word)
    ensures w < 0x80
  {
    assert Pow2(7) == 0x80;
    PackFrom([f.c, f.z, f.i, f.d, f.b, f.v, f.n], 0)
  }

  /** The number whose binary digits, from bit 0 up, are `bits[k..]`. */
  function PackFrom(bits: seq<bool>, k: nat): (w: nat)
    requires k <= |bits|
    ensures w < Pow2(|bits| - k)
    decreases |bits| - k
  {
    if k == |bits| then 0 else Bit(bits[k]) + 2 * PackFrom(bits, k + 1)
  }

  /** `(w >> k) & 0x000F` stored into a one-bit field: the lowest bit of `w` shifted
      right by `k`, where a shift right by one is a halving. */
  predicate StateBit(w: nat, k: nat)
    decreases k
  {
    if k == 0 then LowBit(w % 16) else StateBit(w / 2, k - 1)
  }

  /** `C = pState & 0x000F; Z = (pState >> 1) & 0x000F; ...; N = (pState >> 6) & 0x000F`. */
  function Unpack(w: word): Flags
  {
    Flags(StateBit(w, 0), StateBit(w, 1), StateBit(w, 2), StateBit(w, 3),
          StateBit(w, 4), StateBit(w, 5), StateBit(w, 6))
  }

  /** The binary digits of `w`, `n` of them, from bit 0 up. */
  function Digits(w: nat, n: nat): (s: seq<bool>)
    ensures |s| == n
  {
    if n == 0 then [] else [w % 2 == 1] + Digits(w / 2, n - 1)
  }

  /** Digit `k` of `w` is what the shift-and-mask read of bit `k` returns. */
  lemma {:induction false} DigitsStateBit(w: nat, n: nat, k: nat)
    requires k < n
    ensures Digits(w, n)[k] == StateBit(w, k)
  {
    assert Digits(w, n) == [w % 2 == 1] + Digits(w / 2, n - 1);
    if k == 0 {
      Halve(w, w % 2 == 1, w / 2);
    } else {
      DigitsStateBit(w / 2, n - 1, k - 1);
    }
  }

  /** Packing behind one more leading digit reads from one position further on. */
  lemma {:induction false} PackFromShift(b: bool, t: seq<bool>, k: nat)
    requires k <= |t|
    ensures PackFrom([b] + t, k + 1) == PackFrom(t, k)
    decreases |t| - k
  {
    if k < |t| {
      assert ([b] + t)[k + 1] == t[k];
      PackFromShift(b, t, k + 1);
    }
  }

  /** Packing the low `n` digits of `w` gives `w` modulo 2^n. */
  lemma {:induction false} PackDigits(w: nat, n: nat)
    ensures PackFrom(Digits(w, n), 0) == w % Pow2(n)
  {
    if n > 0 {
      var t := Digits(w / 2, n - 1);
      assert Digits(w, n) == [w % 2 == 1] + t;
      PackFromShift(w % 2 == 1, t, 0);
      assert PackFrom(Digits(w, n), 0) == w % 2 + 2 * PackFrom(t, 0);
      PackDigits(w / 2, n - 1);
      ModPow2Step(w, n);
    }
  }

  /** The seven state bits of `w` are its seven lowest binary digits. The count is a
      parameter fixed to 7 rather than the literal 7, so that the verifier does not unroll
      `Digits` on a literal argument. */
  lemma StateBitsAreDigits(w: word, n: nat)
    requires n == 7
    ensures Digits(w, n) == [StateBit(w, 0), StateBit(w, 1), StateBit(w, 2), StateBit(w, 3),
                             StateBit(w, 4), StateBit(w, 5), StateBit(w, 6)]
  {
    DigitsStateBit(w, n, 0);
    DigitsStateBit(w, n, 1);
    DigitsStateBit(w, n, 2);
    DigitsStateBit(w, n, 3);
    DigitsStateBit(w, n, 4);
    DigitsStateBit(w, n, 5);
    DigitsStateBit(w, n, 6);
  }

  /** Reading the seven state bits of `w` and packing them again keeps bits 0 to 6 of `w`. */
  lemma PackStateBits(w: word)
    ensures PackFrom([StateBit(w, 0), StateBit(w, 1), StateBit(w, 2), StateBit(w, 3),
                      StateBit(w, 4), StateBit(w, 5), StateBit(w, 6)], 0) == w % 0x80
  {
    StateBitsAreDigits(w, 7);
    PackDigits(w, 7);
    assert Pow2(7) == 0x80;
  }

  /** Shifting the packed digits right by `k` and keeping the lowest bit reads digit `j + k`. */
  lemma {:induction false} StateBitPack(bits: seq<bool>, j: nat, k: nat)
    requires j + k < |bits|
    ensures StateBit(PackFrom(bits, j), k) == bits[j + k]
    decreases k
  {
    StateBitShift(PackFrom(bits, j), bits[j], PackFrom(bits, j + 1), k);
    if k > 0 {
      StateBitPack(bits, j + 1, k - 1);
    }
  }

  /** Shifting `w = b + 2r` right by `k` reads bit 0 `b` when `k` is 0, else bit `k - 1` of `r`. */
  lemma StateBitShift(w: nat, b: bool, r: nat, k: nat)
    requires w == Bit(b) + 2 * r
    ensures StateBit(w, k) == if k == 0 then b else StateBit(r, k - 1)
  {
    Halve(w, b, r);
  }

  /** Bit 0 of `w = b + 2r`, read through the mask `& 0x000F`, is `b`; the rest is `r`. */
  lemma Halve(w: nat, b: bool, r: nat)
    requires w == Bit(b) + 2 * r
    ensures w / 2 == r && LowBit(w % 16) == b
  {
    assert w % 16 % 2 == w % 2;
  }

  /** Packing an unpacked word gives back its bits 0 to 6: the seven flags read bit k
      of the word, not its low nibble, and every higher bit is dropped. */
  lemma PackUnpack(w: word)
    ensures Pack(Unpack(w)) == w % 0x80
  {
    PackStateBits(w);
  }

  /** Unpacking a packed flag set restores every flag exactly. */
  lemma UnpackPack(f: Flags)
    ensures Unpack(Pack(f)) == f
  {
    var bits := [f.c, f.z, f.i, f.d, f.b, f.v, f.n];
    StateBitPack(bits, 0, 0);
    StateBitPack(bits, 0, 1);
    StateBitPack(bits, 0, 2);
    StateBitPack(bits, 0, 3);
    StateBitPack(bits, 0, 4);
    StateBitPack(bits, 0, 5);
    StateBitPack(bits, 0, 6);
  }
}
