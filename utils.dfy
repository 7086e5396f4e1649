/** The bit utilities of `src/vm/utils.rs`: assembling a word from a
    big-endian byte pair, and sign-extending a field to 16 bits. */
module Utils {
  import opened Bits

  /** Rust `[u8; 2]`. */
  type BytePair = s: seq<Byte> | |s| == 2 witness [0, 0]

  /** `swap_endian`: the first byte of the pair is the high byte. */
  function SwapEndian(original: BytePair): (r: Word)
    ensures r == original[0] as int * 256 + original[1] as int
  {
    SwapEndianNoOverflow(original);
    original[1] + Shl(original[0], 8)
  }

  /** The `u16` addition in `swap_endian` cannot overflow: the shifted high
      byte is at most 0xFF00 and the low byte at most 0xFF, and the shift
      loses no bits. */
  lemma SwapEndianNoOverflow(original: BytePair)
    ensures Shl(original[0], 8) == original[0] as int * 256 <= 0xFF00
    ensures original[1] + Shl(original[0], 8) <= 0xFFFF
  {
    Pow2Facts();
  }

  /** The inverse of SwapEndian: high byte first, then low byte. */
  function SplitWord(w: Word): (p: BytePair)
  {
    Pow2Facts();
    HiBelow(w, 8, 8);
    [Shr(w, 8), And(w, Ones(8))]
  }

  /** `swap_endian` keeps both bytes: `r >> 8` gives back the first byte and
      `r & 0xFF` the second. */
  lemma SwapEndianRoundTrip(original: BytePair)
    ensures SplitWord(SwapEndian(original)) == original
    ensures Shr(SwapEndian(original), 8) == original[0]
    ensures And(SwapEndian(original), 0xFF) == original[1]
  {
    var r := SwapEndian(original);
    Pow2Facts();
    HiLoUnique(r, 8, original[0], original[1]);
    AndOnes(r, 8);
  }

  /** Every word is `swap_endian` of exactly one byte pair. */
  lemma SplitWordRoundTrip(w: Word)
    ensures SwapEndian(SplitWord(w)) == w
  {
    Pow2Facts();
    HiLo(w, 8);
    AndOnes(w, 8);
  }

  lemma SwapEndianInjective(a: BytePair, b: BytePair)
    requires SwapEndian(a) == SwapEndian(b)
    ensures a == b
  {
    SwapEndianRoundTrip(a);
    SwapEndianRoundTrip(b);
  }

  // ---------------------------------------------------------------------
  // Sign extension

  /** `sign_extend(x, bit_count)`: if bit `bit_count - 1` of `x` is set, all
      bits from `bit_count` up are set.

      The caller must keep `bit_count` in 1..=16: at 0, `bit_count - 1`
      underflows, and above 16 the shift `y >> (bit_count - 1)` overflows.
      At 16 the fill `0xFFFF << 16` overflows, which the source reaches only
      when bit 15 of `x` is set. */
  function SignExtend(x: Word, bitCount: Word): (r: Word)
    requires 1 <= bitCount <= 16
    requires bitCount == 16 ==> x < 0x8000
    ensures Lo(r, bitCount) == Lo(x, bitCount)
    ensures Bit(x, bitCount - 1) == 0 ==> r == x
    ensures Bit(x, bitCount - 1) == 1 ==> Hi(r, bitCount) == Ones(16 - bitCount)
    ensures bitCount == 16 ==> r == x
  {
    SignBitTest(x, bitCount);
    if And(Shr(x, bitCount - 1), 1) > 0 then
      FillHighBits(x, bitCount);
      Or(x, Shl(0xFFFF, bitCount))
    else
      x
  }

  /** The test `((x >> (bit_count - 1)) & 1) > 0` reads bit `bit_count - 1`,
      and that bit is clear when `bit_count` is 16 and `x < 0x8000`. */
  lemma SignBitTest(x: Word, bitCount: Word)
    requires 1 <= bitCount <= 16
    requires bitCount == 16 ==> x < 0x8000
    ensures (And(Shr(x, bitCount - 1), 1) > 0) == (Bit(x, bitCount - 1) == 1)
    ensures Bit(x, bitCount - 1) == 1 ==> bitCount <= 15
  {
    AndOne(Shr(x, bitCount - 1));
    HiHi(x, bitCount - 1, 0);
    if bitCount == 16 {
      Pow2Facts();
      HiLoBelow(x, 15);
    }
  }

  /** `x | (0xFFFF << n)` for `n` in 1..=15: the `n` low bits of `x` under
      `16 - n` set bits. */
  lemma FillHighBits(x: Word, n: nat)
    requires 1 <= n <= 15
    ensures Or(x, Shl(0xFFFF, n)) == Ones(16 - n) * Pow2(n) + Lo(x, n) < WordModulus
    ensures Hi(Or(x, Shl(0xFFFF, n)), n) == Ones(16 - n)
    ensures Lo(Or(x, Shl(0xFFFF, n)), n) == Lo(x, n)
  {
    var p, o := Pow2(n), Ones(16 - n);
    ShlAllOnes(n);
    var m := Shl(0xFFFF, n);
    HiLoUnique(m, n, o, 0);
    Pow2Facts();
    HiBelow(x, 16 - n, n);
    OrSplit(x, m, n);
    OrOnes(Hi(x, n), 16 - n);
    OrZero(Lo(x, n));
    HiLoUnique(Or(x, m), n, o, Lo(x, n));
  }

  /** `0xFFFF << n` on a `u16` keeps the `16 - n` high bits set. */
  lemma ShlAllOnes(n: nat)
    requires 1 <= n <= 15
    ensures Shl(0xFFFF, n) == Ones(16 - n) * Pow2(n) == WordModulus - Pow2(n)
  {
    var p := Pow2(n);
    Pow2Add(16 - n, n);
    Pow2Facts();
    Pow2Monotone(n, 15);
    ShlArith(p);
    MulPred(Pow2(16 - n), p);
  }

  /** The arithmetic of `0xFFFF << n`, with `p` standing for `2^n`. */
  lemma ShlArith(p: int)
    requires 1 <= p <= 0x8000
    ensures (0xFFFF * p) % WordModulus == WordModulus - p
  {
    DivModUnique(0xFFFF * p, WordModulus, p - 1, WordModulus - p);
  }

  lemma MulPred(a: int, p: int)
    ensures (a - 1) * p == a * p - p
  {
  }

  /** Bits `bit_count..15` of a sign-extended negative field are all set. */
  lemma {:induction false} SignExtendFillsHighBits(x: Word, bitCount: Word, i: nat)
    requires 1 <= bitCount <= 16
    requires bitCount == 16 ==> x < 0x8000
    requires Bit(x, bitCount - 1) == 1 && bitCount <= i < 16
    ensures Bit(SignExtend(x, bitCount), i) == 1
  {
    var r := SignExtend(x, bitCount);
    HiHi(r, bitCount, i - bitCount);
    OnesBit(16 - bitCount, i - bitCount);
  }

  /** Sign extension never clears a bit: `sign_extend(x, n) & x == x`. */
  lemma SignExtendKeepsBits(x: Word, bitCount: Word)
    requires 1 <= bitCount <= 16
    requires bitCount == 16 ==> x < 0x8000
    ensures And(SignExtend(x, bitCount), x) == x
  {
    if Bit(x, bitCount - 1) == 0 {
      AndSelf(x);
    } else {
      SignBitTest(x, bitCount);
      FilledKeepsBits(x, bitCount, SignExtend(x, bitCount));
    }
  }

  /** A word whose `n` low bits are those of `x` and whose higher bits are
      all set has every bit of `x`. */
  lemma FilledKeepsBits(x: Word, n: nat, r: nat)
    requires 1 <= n <= 15
    requires Hi(r, n) == Ones(16 - n) && Lo(r, n) == Lo(x, n)
    ensures And(r, x) == x
  {
    var h, l := Hi(x, n), Lo(x, n);
    Pow2Facts();
    HiBelow(x, 16 - n, n);
    MaskKeepsNarrowValue(h, 16 - n);
    AndSelf(l);
    AndSplit(r, x, n);
    assert And(r, x) == h * Pow2(n) + l;
    HiLo(x, n);
  }

  /** A value of at most `k` bits survives masking with `k` set bits. */
  lemma MaskKeepsNarrowValue(h: nat, k: nat)
    requires h < Pow2(k)
    ensures And(Ones(k), h) == h
  {
    AndComm(Ones(k), h);
    AndOnes(h, k);
    HiLoBelow(h, k);
  }

  /** Sign-extending twice at the same width changes nothing more. */
  lemma SignExtendIdempotent(x: Word, bitCount: Word)
    requires 1 <= bitCount <= 16
    requires bitCount == 16 ==> x < 0x8000
    ensures SignExtend(SignExtend(x, bitCount), bitCount) == SignExtend(x, bitCount)
  {
    var r := SignExtend(x, bitCount);
    BitOfLowBits(x, bitCount);
    BitOfLowBits(r, bitCount);
    if Bit(x, bitCount - 1) == 1 {
      var rr := SignExtend(r, bitCount);
      HiLo(r, bitCount);
      HiLo(rr, bitCount);
    }
  }

  /** A word read as 16-bit two's complement. */
  function ToSigned(w: Word): (v: int)
    ensures -0x8000 <= v < 0x8000
  {
    if w < 0x8000 then w else w - WordModulus
  }

  /** An `n`-bit field read as `n`-bit two's complement. */
  function FieldValue(x: nat, n: nat): (v: int)
    requires 1 <= n && x < Pow2(n)
    ensures -(Pow2(n - 1) as int) <= v < Pow2(n - 1)
  {
    assert Pow2(n) == 2 * Pow2(n - 1);
    if x < Pow2(n - 1) then x else x - Pow2(n)
  }

  /** Sign extension preserves the value: an `n`-bit field and its 16-bit
      extension denote the same signed integer. */
  lemma SignExtendPreservesValue(x: Word, bitCount: Word)
    requires 1 <= bitCount <= 16
    requires x < Pow2(bitCount)
    requires bitCount == 16 ==> x < 0x8000
    ensures ToSigned(SignExtend(x, bitCount)) == FieldValue(x, bitCount)
  {
    var n := bitCount;
    TopBit(x, n);
    Pow2Monotone(n - 1, 15);
    Pow2Facts();
    if Bit(x, n - 1) == 1 {
      SignBitTest(x, n);
      NegativeFieldValue(x, n, SignExtend(x, n));
    }
  }

  /** The negative case of SignExtendPreservesValue: `r` carries the `n`-bit
      field `x` under `16 - n` set bits. */
  lemma NegativeFieldValue(x: Word, n: nat, r: Word)
    requires 1 <= n <= 15 && Pow2(n - 1) <= x < Pow2(n)
    requires Hi(r, n) == Ones(16 - n) && Lo(r, n) == Lo(x, n)
    ensures r == WordModulus - Pow2(n) + x
    ensures ToSigned(r) == FieldValue(x, n)
  {
    HiLoBelow(x, n);
    HiLo(r, n);
    ShlAllOnes(n);
    Pow2Monotone(n - 1, 14);
    Pow2Facts();
    assert Pow2(n) == 2 * Pow2(n - 1);
  }
}
