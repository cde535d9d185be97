/**
 * Ruby's Integer bit operations on non-negative integers.
 *
 * Ruby integers are unbounded, so a "word" of the bit string is a `nat`,
 * and `&`, `|`, `^`, `<<` and `>>` are defined here one binary digit at a
 * time.  `Bit(x, i)` (digit i of x, i.e. `(x >> i) & 1`) is the reference
 * meaning; every operation comes with a lemma giving each digit of its result
 * in terms of the digits of its operands, and `BitExt` turns agreement on all
 * digits back into equality.
 */
module Words {

  /** `0.size * 8` on a 64-bit machine. */
  const WordBits: nat := 64
  /** `2 ** WordBits` */
  const WordMax: nat := 0x1_0000_0000_0000_0000
  /** `WordMax - 1`: the all-ones word. */
  const XorMask: nat := 0xFFFF_FFFF_FFFF_FFFF

  /** `2 ** n` */
  function Pow2(n: nat): (r: nat)
    ensures r >= 1
  {
    if n == 0 then 1 else 2 * Pow2(n - 1)
  }

  /** Binary digit i of x. */
  function Bit(x: nat, i: nat): (b: nat)
    ensures b <= 1
  {
    if i == 0 then x % 2 else Bit(x / 2, i - 1)
  }

  /** `x & y` */
  function And(x: nat, y: nat): nat
    decreases x
  {
    if x == 0 || y == 0 then 0
    else 2 * And(x / 2, y / 2) + (if x % 2 == 1 && y % 2 == 1 then 1 else 0)
  }

  /** `x | y` */
  function Or(x: nat, y: nat): nat
    decreases x
  {
    if x == 0 then y
    else if y == 0 then x
    else 2 * Or(x / 2, y / 2) + (if x % 2 == 1 || y % 2 == 1 then 1 else 0)
  }

  /** `x ^ y` */
  function Xor(x: nat, y: nat): nat
    decreases x
  {
    if x == 0 then y
    else if y == 0 then x
    else 2 * Xor(x / 2, y / 2) + (if x % 2 != y % 2 then 1 else 0)
  }

  /** `x << s` */
  function Shl(x: nat, s: nat): nat
  {
    if s == 0 then x else 2 * Shl(x, s - 1)
  }

  /** `x >> s` */
  function Shr(x: nat, s: nat): nat
  {
    if s == 0 then x else Shr(x / 2, s - 1)
  }

  // ---------------------------------------------------------------------
  // Digits of the operations

  lemma {:induction false} BitOfZero(i: nat)
    ensures Bit(0, i) == 0
  {
    if i > 0 {
      BitOfZero(i - 1);
    }
  }

  lemma {:induction false} BitAnd(x: nat, y: nat, i: nat)
    ensures Bit(And(x, y), i) == if Bit(x, i) == 1 && Bit(y, i) == 1 then 1 else 0
    decreases i
  {
    if x == 0 || y == 0 {
      BitOfZero(i);
    } else if i > 0 {
      BitAnd(x / 2, y / 2, i - 1);
    }
  }

  lemma {:induction false} BitOr(x: nat, y: nat, i: nat)
    ensures Bit(Or(x, y), i) == if Bit(x, i) == 1 || Bit(y, i) == 1 then 1 else 0
    decreases i
  {
    if x == 0 {
      BitOfZero(i);
    } else if y == 0 {
      BitOfZero(i);
    } else if i > 0 {
      BitOr(x / 2, y / 2, i - 1);
    }
  }

  lemma {:induction false} BitXor(x: nat, y: nat, i: nat)
    ensures Bit(Xor(x, y), i) == if Bit(x, i) != Bit(y, i) then 1 else 0
    decreases i
  {
    if x == 0 {
      BitOfZero(i);
    } else if y == 0 {
      BitOfZero(i);
    } else if i > 0 {
      BitXor(x / 2, y / 2, i - 1);
    }
  }

  lemma {:induction false} BitShl(x: nat, s: nat, i: nat)
    ensures Bit(Shl(x, s), i) == if i < s then 0 else Bit(x, i - s)
    decreases s
  {
    if s > 0 {
      if i > 0 {
        BitShl(x, s - 1, i - 1);
      }
    }
  }

  lemma {:induction false} BitShr(x: nat, s: nat, i: nat)
    ensures Bit(Shr(x, s), i) == Bit(x, i + s)
    decreases s
  {
    if s > 0 {
      BitShr(x / 2, s - 1, i);
    }
  }

  /** The digits of `2 ** n - 1` are n ones. */
  lemma {:induction false} BitLow(n: nat, i: nat)
    ensures Bit(Pow2(n) - 1, i) == if i < n then 1 else 0
    decreases n
  {
    if n == 0 {
      BitOfZero(i);
    } else if i > 0 {
      BitLow(n - 1, i - 1);
    }
  }

  /** The digits of `1 << j` are a single one at position j. */
  lemma BitOne(j: nat, i: nat)
    ensures Bit(Shl(1, j), i) == if i == j then 1 else 0
  {
    BitShl(1, j, i);
    if i > j {
      BitOfZero(i - j - 1);
    }
  }

  /** The all-ones word has ones exactly in its 64 positions. */
  lemma BitXorMask(i: nat)
    ensures Bit(XorMask, i) == if i < WordBits then 1 else 0
  {
    Pow2WordBits();
    BitLow(WordBits, i);
  }

  // ---------------------------------------------------------------------
  // Extensionality and magnitude

  lemma {:induction false} NonZeroHasBit(x: nat)
    requires x > 0
    ensures exists k: nat :: Bit(x, k) == 1
    decreases x
  {
    if x % 2 == 1 {
      assert Bit(x, 0) == 1;
    } else {
      NonZeroHasBit(x / 2);
      var k: nat :| Bit(x / 2, k) == 1;
      assert Bit(x, k + 1) == 1;
    }
  }

  /** Two integers with the same digits are equal. */
  lemma {:induction false} BitExt(x: nat, y: nat)
    requires forall i: nat :: Bit(x, i) == Bit(y, i)
    ensures x == y
    decreases x
  {
    assert Bit(x, 0) == Bit(y, 0);
    if x > 0 && y > 0 {
      forall i: nat
        ensures Bit(x / 2, i) == Bit(y / 2, i)
      {
        assert Bit(x, i + 1) == Bit(y, i + 1);
      }
      BitExt(x / 2, y / 2);
    } else if x > 0 || y > 0 {
      var z := if x > 0 then x else y;
      NonZeroHasBit(z);
      var k: nat :| Bit(z, k) == 1;
      assert Bit(x, k) == Bit(y, k);
      BitOfZero(k);
    }
  }

  /** Every digit of a number below `2 ** n` from position n up is zero. */
  lemma {:induction false} HighBitsZero(x: nat, n: nat, i: nat)
    requires x < Pow2(n) && n <= i
    ensures Bit(x, i) == 0
    decreases n
  {
    if n == 0 {
      BitOfZero(i);
    } else {
      HighBitsZero(x / 2, n - 1, i - 1);
    }
  }

  /** A number whose digits from position n up are zero is below `2 ** n`. */
  lemma {:induction false} BelowFromBits(x: nat, n: nat)
    requires forall i: nat :: n <= i ==> Bit(x, i) == 0
    ensures x < Pow2(n)
    decreases n
  {
    if n == 0 {
      forall i: nat
        ensures Bit(x, i) == Bit(0, i)
      {
        BitOfZero(i);
      }
      BitExt(x, 0);
    } else {
      forall i: nat | n - 1 <= i
        ensures Bit(x / 2, i) == 0
      {
        assert Bit(x, i + 1) == 0;
      }
      BelowFromBits(x / 2, n - 1);
    }
  }

  lemma {:induction false} Pow2Mono(m: nat, n: nat)
    requires m <= n
    ensures Pow2(m) <= Pow2(n)
    decreases n
  {
    if m < n {
      Pow2Mono(m, n - 1);
    }
  }

  lemma {:induction false} Pow2Add(m: nat, n: nat)
    ensures Pow2(m + n) == Pow2(m) * Pow2(n)
    decreases n
  {
    if n > 0 {
      Pow2Add(m, n - 1);
    }
  }

  lemma {:induction false} Pow2Double(n: nat, p: nat)
    requires Pow2(n) == p
    ensures Pow2(n + n) == p * p
  {
    Pow2Add(n, n);
  }

  lemma Pow2Byte(n: nat)
    requires n == 8
    ensures Pow2(n) == 256
  {
  }

  lemma Pow2Word(n: nat)
    requires Pow2(n) == 256
    ensures Pow2(8 * n) == WordMax
  {
    Pow2Double(n, 256);
    Pow2Double(n + n, 65536);
    Pow2Double(n + n + n + n, 0x1_0000_0000);
    assert 8 * n == n + n + n + n + n + n + n + n;
  }

  /** `WordMax` is `2 ** WordBits`. */
  lemma Pow2WordBits()
    ensures Pow2(WordBits) == WordMax
  {
    Pow2Byte(8);
    Pow2Word(8);
  }

  /** `x << s` is zero exactly when x is. */
  lemma {:induction false} ShlZero(x: nat, s: nat)
    ensures Shl(x, s) == 0 <==> x == 0
    decreases s
  {
    if s > 0 {
      ShlZero(x, s - 1);
    }
  }
}
