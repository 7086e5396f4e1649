/** Unsigned 8- and 16-bit machine values and the Rust operators the VM
    applies to them (`<<`, `>>`, `&`, `|` on `u16`), stated on integers.

    Shifts follow Rust's debug-build semantics: a shift by 16 or more on a
    `u16` panics, so both shift functions require an amount below 16, and
    `<<` discards the bits pushed past bit 15. */
module Bits {

  /** Rust `u8`. */
  type Byte = x: int | 0 <= x < 0x100

  /** Rust `u16`, the VM's word. */
  type Word = x: int | 0 <= x < 0x1_0000

  const WordModulus: nat := 0x1_0000

  function Pow2(n: nat): (r: nat)
    ensures r >= 1
  {
    if n == 0 then 1 else 2 * Pow2(n - 1)
  }

  /** The bits of `x` from bit `n` upwards, moved down to bit 0: `x` halved
      `n` times, which is `x / 2^n` (see HiLo). */
  function Hi(x: nat, n: nat): (r: nat)
    ensures r <= x
  {
    if n == 0 then x else Hi(x / 2, n - 1)
  }

  /** The `n` low bits of `x`, which is `x % 2^n` (see HiLo). */
  function Lo(x: nat, n: nat): (r: nat)
    ensures r < Pow2(n) && r <= x
  {
    if n == 0 then 0 else 2 * Lo(x / 2, n - 1) + x % 2
  }

  /** Bit `i` of `x`, counting from the least significant bit. */
  function Bit(x: nat, i: nat): (b: nat)
    ensures b <= 1
  {
    Hi(x, i) % 2
  }

  /** `Pow2(k) - 1`: the mask of the `k` low bits. */
  function Ones(k: nat): (r: nat)
    ensures r < Pow2(k)
  {
    Pow2(k) - 1
  }

  /** `x << n` on a `u16`: bits shifted past bit 15 are lost, and a value
      of at most `16 - n` bits is multiplied by `2^n`. A shift by 16 or more
      panics in a debug build, hence `n < 16`. */
  function Shl(x: Word, n: nat): (r: Word)
    requires n < 16
    ensures x < Pow2(16 - n) ==> r == x * Pow2(n)
  {
    ShlFits(x, n);
    (x * Pow2(n)) % WordModulus
  }

  /** A value of at most `16 - n` bits, shifted left by `n`, fits a word. */
  lemma ShlFits(x: Word, n: nat)
    requires n < 16
    ensures x < Pow2(16 - n) ==> x * Pow2(n) < WordModulus
  {
    if x < Pow2(16 - n) {
      Pow2Add(16 - n, n);
      Pow2Facts();
      MulMonotone(x + 1, Pow2(16 - n), Pow2(n));
    }
  }

  /** `x >> n` on a `u16` (a logical shift): `x` divided by `2^n`, rounded
      down. */
  function Shr(x: Word, n: nat): (r: Word)
    requires n < 16
    ensures r * Pow2(n) <= x < (r + 1) * Pow2(n)
  {
    HiLo(x, n);
    Hi(x, n)
  }

  /** Bitwise AND, one bit per halving. */
  function And(x: nat, y: nat): (r: nat)
    ensures r <= x && r <= y
    decreases x + y
  {
    if x == 0 && y == 0 then 0
    else 2 * And(x / 2, y / 2) + (x % 2) * (y % 2)
  }

  /** Bitwise OR, one bit per halving. */
  function Or(x: nat, y: nat): (r: nat)
    ensures x <= r && y <= r
    decreases x + y
  {
    if x == 0 && y == 0 then 0
    else 2 * Or(x / 2, y / 2) + (if x % 2 == 1 || y % 2 == 1 then 1 else 0)
  }

  // ---------------------------------------------------------------------
  // Arithmetic

  lemma MulMonotone(a: int, b: int, c: nat)
    requires a <= b
    ensures a * c <= b * c
  {
  }

  /** Division with remainder has one answer. */
  lemma DivModUnique(x: int, d: int, q: int, r: int)
    requires 0 < d && 0 <= r < d && x == q * d + r
    ensures x / d == q && x % d == r
  {
    var q', r' := x / d, x % d;
    assert (q - q') * d == r' - r;
    if q - q' >= 1 {
      MulMonotone(1, q - q', d);
      assert false;
    } else if q - q' <= -1 {
      MulMonotone(q - q', -1, d);
      assert false;
    }
  }

  /** Doubling `big * p + small` and adding `c` is the same as scaling `big`
      by `2 * p` above `2 * small + c`. */
  lemma Regroup(big: int, small: int, p: int, c: int)
    ensures 2 * (big * p + small) + c == big * (2 * p) + (2 * small + c)
  {
  }

  /** The step shared by the split lemmas, as plain arithmetic. */
  lemma Combine(a: int, b: int, big: int, small: int, c: int, p: int, pp: int)
    requires a == 2 * (big * p + small) + c && b == 2 * small + c && pp == 2 * p
    ensures a == big * pp + b
  {
    Regroup(big, small, p, c);
  }

  /** The powers of two the 16-bit machine needs. */
  lemma Pow2Facts()
    ensures Pow2(8) == 0x100 && Pow2(12) == 0x1000 && Pow2(14) == 0x4000
    ensures Pow2(15) == 0x8000 && Pow2(16) == WordModulus
    ensures Ones(8) == 0xFF
  {
    assert Pow2(4) == 16;
    assert Pow2(8) == 0x100;
    assert Pow2(12) == 0x1000;
  }

  lemma {:induction false} Pow2Add(a: nat, b: nat)
    ensures Pow2(a + b) == Pow2(a) * Pow2(b)
  {
    if a > 0 {
      Pow2Add(a - 1, b);
    }
  }

  lemma Pow2Monotone(a: nat, b: nat)
    requires a <= b
    ensures Pow2(a) <= Pow2(b)
  {
    Pow2Add(a, b - a);
  }

  // ---------------------------------------------------------------------
  // High and low bits

  /** `Hi` and `Lo` are the quotient and remainder by `2^n`. */
  lemma {:induction false} HiLo(x: nat, n: nat)
    ensures x == Hi(x, n) * Pow2(n) + Lo(x, n)
  {
    if n > 0 {
      HiLo(x / 2, n - 1);
      Regroup(Hi(x / 2, n - 1), Lo(x / 2, n - 1), Pow2(n - 1), x % 2);
    }
  }

  /** Any split of `x` at bit `n` is the split by `Hi` and `Lo`. */
  lemma HiLoUnique(x: nat, n: nat, q: int, r: int)
    requires 0 <= r < Pow2(n) && x == q * Pow2(n) + r
    ensures Hi(x, n) == q && Lo(x, n) == r
  {
    HiLo(x, n);
    DivModUnique(x, Pow2(n), q, r);
    DivModUnique(x, Pow2(n), Hi(x, n), Lo(x, n));
  }

  /** Bit `n-1` of `x` depends only on the `n` low bits of `x`. */
  lemma {:induction false} BitOfLowBits(x: nat, n: nat)
    requires n >= 1
    ensures Bit(x, n - 1) == Bit(Lo(x, n), n - 1)
  {
    if n > 1 {
      BitOfLowBits(x / 2, n - 1);
      assert Lo(x, n) / 2 == Lo(x / 2, n - 1);
    }
  }

  /** Below `2^n`, bit `n-1` is set exactly when the value reaches `2^(n-1)`. */
  lemma TopBit(x: nat, n: nat)
    requires n >= 1 && x < Pow2(n)
    ensures Bit(x, n - 1) == (if x < Pow2(n - 1) then 0 else 1)
  {
    var h := Pow2(n - 1);
    assert Pow2(n) == 2 * h;
    if x < h {
      HiLoUnique(x, n - 1, 0, x);
    } else {
      HiLoUnique(x, n - 1, 1, x - h);
    }
  }

  /** Dropping `a` low bits, then `b` more, drops `a + b` low bits. */
  lemma {:induction false} HiHi(x: nat, a: nat, b: nat)
    ensures Hi(Hi(x, a), b) == Hi(x, a + b)
  {
    if a > 0 {
      HiHi(x / 2, a - 1, b);
    }
  }

  /** The mask of `k` low bits, shifted down by `j <= k`, is the mask of
      `k - j` low bits. */
  lemma {:induction false} HiOnes(k: nat, j: nat)
    requires j <= k
    ensures Hi(Ones(k), j) == Ones(k - j)
  {
    if j > 0 {
      assert Ones(k) / 2 == Ones(k - 1);
      HiOnes(k - 1, j - 1);
    }
  }

  /** A value of at most `k` bits is its own `k` low bits and has nothing
      above them. */
  lemma HiLoBelow(x: nat, k: nat)
    requires x < Pow2(k)
    ensures Hi(x, k) == 0 && Lo(x, k) == x
  {
    HiLoUnique(x, k, 0, x);
  }

  /** Below `Pow2(a) * Pow2(b)`, the bits above `b` fit in `a` bits. */
  lemma {:induction false} HiBelow(x: nat, a: nat, b: nat)
    requires x < Pow2(a + b)
    ensures Hi(x, b) < Pow2(a)
  {
    if b > 0 {
      HiBelow(x / 2, a, b - 1);
    }
  }

  // ---------------------------------------------------------------------
  // AND and OR

  lemma AndUnfold(x: nat, y: nat)
    ensures And(x, y) == 2 * And(x / 2, y / 2) + (x % 2) * (y % 2)
  {
  }

  lemma OrUnfold(x: nat, y: nat)
    ensures Or(x, y) == 2 * Or(x / 2, y / 2) + (if x % 2 == 1 || y % 2 == 1 then 1 else 0)
  {
  }

  lemma {:induction false} AndComm(x: nat, y: nat)
    ensures And(x, y) == And(y, x)
    decreases x + y
  {
    if x != 0 || y != 0 {
      AndComm(x / 2, y / 2);
    }
  }

  lemma {:induction false} AndSelf(x: nat)
    ensures And(x, x) == x
  {
    if x != 0 {
      AndSelf(x / 2);
      assert (x % 2) * (x % 2) == x % 2;
    }
  }

  lemma {:induction false} AndZero(x: nat)
    ensures And(x, 0) == 0
  {
    if x != 0 {
      AndZero(x / 2);
    }
  }

  lemma {:induction false} OrZero(x: nat)
    ensures Or(x, 0) == x
  {
    if x != 0 {
      OrZero(x / 2);
    }
  }

  /** Masking with the `k` low bits keeps exactly those bits. */
  lemma {:induction false} AndOnes(x: nat, k: nat)
    ensures And(x, Ones(k)) == Lo(x, k)
  {
    if k == 0 {
      AndZero(x);
    } else {
      assert Ones(k) / 2 == Ones(k - 1) && Ones(k) % 2 == 1;
      AndOnes(x / 2, k - 1);
    }
  }

  /** OR with the `k` low bits set swallows any value of at most `k` bits. */
  lemma {:induction false} OrOnes(x: nat, k: nat)
    requires x < Pow2(k)
    ensures Or(x, Ones(k)) == Ones(k)
  {
    if k > 0 {
      assert Ones(k) / 2 == Ones(k - 1) && Ones(k) % 2 == 1;
      OrOnes(x / 2, k - 1);
    }
  }

  /** AND works independently above and below bit `n`. */
  lemma {:induction false} AndSplit(x: nat, y: nat, n: nat)
    ensures And(x, y) == And(Hi(x, n), Hi(y, n)) * Pow2(n) + And(Lo(x, n), Lo(y, n))
  {
    if n == 0 {
      AndSplitBase(x, y);
    } else {
      AndSplit(x / 2, y / 2, n - 1);
      AndSplitStep(x, y, n);
    }
  }

  lemma AndSplitBase(x: nat, y: nat)
    ensures And(x, y) == And(Hi(x, 0), Hi(y, 0)) * Pow2(0) + And(Lo(x, 0), Lo(y, 0))
  {
    assert And(0, 0) == 0;
  }

  /** The inductive step of AndSplit: the split of `x / 2` and `y / 2` at
      bit `n - 1` gives the split of `x` and `y` at bit `n`. */
  lemma AndSplitStep(x: nat, y: nat, n: nat)
    requires n > 0
    requires And(x / 2, y / 2) == And(Hi(x / 2, n - 1), Hi(y / 2, n - 1)) * Pow2(n - 1)
                                  + And(Lo(x / 2, n - 1), Lo(y / 2, n - 1))
    ensures And(x, y) == And(Hi(x, n), Hi(y, n)) * Pow2(n) + And(Lo(x, n), Lo(y, n))
  {
    var xm, ym := Lo(x, n), Lo(y, n);
    assert xm / 2 == Lo(x / 2, n - 1) && xm % 2 == x % 2;
    assert ym / 2 == Lo(y / 2, n - 1) && ym % 2 == y % 2;
    AndUnfold(x, y);
    AndUnfold(xm, ym);
    Combine(And(x, y), And(xm, ym), And(Hi(x, n), Hi(y, n)), And(xm / 2, ym / 2),
            (x % 2) * (y % 2), Pow2(n - 1), Pow2(n));
  }

  /** OR works independently above and below bit `n`. */
  lemma {:induction false} OrSplit(x: nat, y: nat, n: nat)
    ensures Or(x, y) == Or(Hi(x, n), Hi(y, n)) * Pow2(n) + Or(Lo(x, n), Lo(y, n))
  {
    if n == 0 {
      OrSplitBase(x, y);
    } else {
      OrSplit(x / 2, y / 2, n - 1);
      OrSplitStep(x, y, n);
    }
  }

  lemma OrSplitBase(x: nat, y: nat)
    ensures Or(x, y) == Or(Hi(x, 0), Hi(y, 0)) * Pow2(0) + Or(Lo(x, 0), Lo(y, 0))
  {
    assert Or(0, 0) == 0;
  }

  /** The inductive step of OrSplit. */
  lemma OrSplitStep(x: nat, y: nat, n: nat)
    requires n > 0
    requires Or(x / 2, y / 2) == Or(Hi(x / 2, n - 1), Hi(y / 2, n - 1)) * Pow2(n - 1)
                                 + Or(Lo(x / 2, n - 1), Lo(y / 2, n - 1))
    ensures Or(x, y) == Or(Hi(x, n), Hi(y, n)) * Pow2(n) + Or(Lo(x, n), Lo(y, n))
  {
    var xm, ym := Lo(x, n), Lo(y, n);
    assert xm / 2 == Lo(x / 2, n - 1) && xm % 2 == x % 2;
    assert ym / 2 == Lo(y / 2, n - 1) && ym % 2 == y % 2;
    OrUnfold(x, y);
    OrUnfold(xm, ym);
    Combine(Or(x, y), Or(xm, ym), Or(Hi(x, n), Hi(y, n)), Or(xm / 2, ym / 2),
            if x % 2 == 1 || y % 2 == 1 then 1 else 0, Pow2(n - 1), Pow2(n));
  }

  /** `x & 1`: bit 0 of `x`. */
  lemma AndOne(x: nat)
    ensures And(x, 1) == Bit(x, 0)
  {
    AndOnes(x, 1);
  }

  /** Bit `i` of the mask of `k` low bits is set for every `i < k`. */
  lemma OnesBit(k: nat, i: nat)
    requires i < k
    ensures Bit(Ones(k), i) == 1
  {
    HiOnes(k, i);
    assert Ones(k - i) == 2 * Ones(k - i - 1) + 1;
  }
}
