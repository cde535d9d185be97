/**
 * The bit-vector store of bits.rb: a string of `size` bits packed into an
 * array of 64-bit words, bit i living in word `i / 64` at position `i % 64`.
 *
 * The first part gives the mask arithmetic of each operation on one word and
 * on a sequence of words, with lemmas saying which digits each operation
 * changes.  The class `Bits` then performs the same operations in place on
 * its word array, each method proved to leave exactly the state described by
 * the functions on sequences.
 */
module BitVectors {
  import opened Words

  // ---------------------------------------------------------------------
  // Word arithmetic of bits.rb

  /** `@bitMask[j]`, precomputed as `1 << j` */
  function BitMask(j: nat): nat
  {
    Shl(1, j)
  }

  /** `@words`: how many words hold `size` bits */
  function NumWordsFor(size: nat): (n: nat)
    ensures size <= n * WordBits
    ensures n == 0 || (n - 1) * WordBits < size
  {
    size / WordBits + if size % WordBits < 1 then size % WordBits else 1
  }

  /** `w & bitMask[j] > 0 ? 1 : 0` */
  function TestBit(w: nat, j: nat): nat
  {
    if And(w, BitMask(j)) > 0 then 1 else 0
  }

  /** `w | bitMask[j]` */
  function SetOne(w: nat, j: nat): nat
  {
    Or(w, BitMask(j))
  }

  /** `w & (bitMask[j] ^ xorMask)` */
  function SetZero(w: nat, j: nat): nat
  {
    And(w, Xor(BitMask(j), XorMask))
  }

  /** The word after `flip`: the bit is read, then set or cleared. */
  function FlipWord(w: nat, j: nat): nat
  {
    if TestBit(w, j) == 0 then SetOne(w, j) else SetZero(w, j)
  }

  /** `(2**n - 1) << off` */
  function FieldMask(off: nat, n: nat): nat
  {
    Shl(Pow2(n) - 1, off)
  }

  /** `get`: `(w & ((2**n - 1) << off)) >> off` */
  function GetField(w: nat, off: nat, n: nat): nat
  {
    Shr(And(w, FieldMask(off, n)), off)
  }

  /** `set`: `(w & (((2**n - 1) << off) ^ xorMask)) | (v << off)` */
  function SetField(w: nat, off: nat, n: nat, v: nat): nat
  {
    Or(And(w, Xor(FieldMask(off, n), XorMask)), Shl(v, off))
  }

  // ---------------------------------------------------------------------
  // Digits of the word operations

  lemma BitOfDigit(b: nat, i: nat)
    requires b <= 1
    ensures Bit(b, i) == if i == 0 then b else 0
  {
    if i > 0 {
      BitOfZero(i - 1);
    }
  }

  /** The mask test of `[]` reads digit j. */
  lemma TestBitIsBit(w: nat, j: nat)
    ensures TestBit(w, j) == Bit(w, j)
  {
    var b := Bit(w, j);
    forall i: nat
      ensures Bit(And(w, BitMask(j)), i) == Bit(Shl(b, j), i)
    {
      BitAnd(w, BitMask(j), i);
      BitOne(j, i);
      BitShl(b, j, i);
      if i >= j {
        BitOfDigit(b, i - j);
      }
    }
    BitExt(And(w, BitMask(j)), Shl(b, j));
    ShlZero(b, j);
  }

  lemma SetOneBit(w: nat, j: nat, k: nat)
    ensures Bit(SetOne(w, j), k) == if k == j then 1 else Bit(w, k)
  {
    BitOr(w, BitMask(j), k);
    BitOne(j, k);
  }

  /** Clearing bit j also clears every digit from position 64 up. */
  lemma SetZeroBit(w: nat, j: nat, k: nat)
    requires j < WordBits
    ensures Bit(SetZero(w, j), k) == if k == j || WordBits <= k then 0 else Bit(w, k)
  {
    BitAnd(w, Xor(BitMask(j), XorMask), k);
    BitXor(BitMask(j), XorMask, k);
    BitOne(j, k);
    BitXorMask(k);
  }

  lemma FieldMaskBit(off: nat, n: nat, k: nat)
    ensures Bit(FieldMask(off, n), k) == if off <= k < off + n then 1 else 0
  {
    BitShl(Pow2(n) - 1, off, k);
    if off <= k {
      BitLow(n, k - off);
    }
  }

  lemma GetFieldBit(w: nat, off: nat, n: nat, k: nat)
    ensures Bit(GetField(w, off, n), k) == if k < n then Bit(w, off + k) else 0
  {
    BitShr(And(w, FieldMask(off, n)), off, k);
    BitAnd(w, FieldMask(off, n), k + off);
    FieldMaskBit(off, n, k + off);
  }

  lemma SetFieldBit(w: nat, off: nat, n: nat, v: nat, k: nat)
    requires off + n <= WordBits && v < Pow2(n)
    ensures Bit(SetField(w, off, n, v), k) ==
      if off <= k < off + n then Bit(v, k - off)
      else if k < WordBits then Bit(w, k)
      else 0
  {
    var cleared := And(w, Xor(FieldMask(off, n), XorMask));
    BitOr(cleared, Shl(v, off), k);
    BitAnd(w, Xor(FieldMask(off, n), XorMask), k);
    BitXor(FieldMask(off, n), XorMask, k);
    FieldMaskBit(off, n, k);
    BitXorMask(k);
    BitShl(v, off, k);
    if off + n <= k {
      HighBitsZero(v, n, k - off);
    }
  }

  /** For a word below `2**64`, flipping changes digit j and nothing else. */
  lemma FlipWordBit(w: nat, j: nat, k: nat)
    requires w < WordMax && j < WordBits
    ensures Bit(FlipWord(w, j), k) == if k == j then 1 - Bit(w, k) else Bit(w, k)
  {
    TestBitIsBit(w, j);
    SetOneBit(w, j, k);
    SetZeroBit(w, j, k);
    if WordBits <= k {
      Pow2WordBits();
      HighBitsZero(w, WordBits, k);
    }
  }

  /** A word whose digits from 64 up are zero is below `WordMax`. */
  lemma BelowWordMax(w: nat)
    requires forall k: nat :: WordBits <= k ==> Bit(w, k) == 0
    ensures w < WordMax
  {
    BelowFromBits(w, WordBits);
    Pow2WordBits();
  }

  lemma SetOneBelow(w: nat, j: nat)
    requires w < WordMax && j < WordBits
    ensures SetOne(w, j) < WordMax
  {
    forall k: nat | WordBits <= k
      ensures Bit(SetOne(w, j), k) == 0
    {
      SetOneBit(w, j, k);
      Pow2WordBits();
      HighBitsZero(w, WordBits, k);
    }
    BelowWordMax(SetOne(w, j));
  }

  lemma SetZeroBelow(w: nat, j: nat)
    requires j < WordBits
    ensures SetZero(w, j) < WordMax
  {
    forall k: nat | WordBits <= k
      ensures Bit(SetZero(w, j), k) == 0
    {
      SetZeroBit(w, j, k);
    }
    BelowWordMax(SetZero(w, j));
  }

  lemma SetFieldBelow(w: nat, off: nat, n: nat, v: nat)
    requires off + n <= WordBits && v < Pow2(n)
    ensures SetField(w, off, n, v) < WordMax
  {
    forall k: nat | WordBits <= k
      ensures Bit(SetField(w, off, n, v), k) == 0
    {
      SetFieldBit(w, off, n, v, k);
    }
    BelowWordMax(SetField(w, off, n, v));
  }

  // ---------------------------------------------------------------------
  // The bit string as a sequence of words

  predicate WordsBelow(ws: seq<nat>)
  {
    forall k :: 0 <= k < |ws| ==> ws[k] < WordMax
  }

  function Zeros(n: nat): (ws: seq<nat>)
  {
    seq(n, _ => 0)
  }

  /** Bit i of the string: digit `i % 64` of word `i / 64`. */
  function BitAt(ws: seq<nat>, i: nat): nat
    requires i / WordBits < |ws|
  {
    Bit(ws[i / WordBits], i % WordBits)
  }

  /** The words after `self[i] = v` */
  function WithBit(ws: seq<nat>, i: nat, v: nat): seq<nat>
    requires i / WordBits < |ws|
  {
    var w := i / WordBits;
    ws[w := if v == 1 then SetOne(ws[w], i % WordBits) else SetZero(ws[w], i % WordBits)]
  }

  /** The words after `flip(i)` */
  function Flipped(ws: seq<nat>, i: nat): seq<nat>
    requires i / WordBits < |ws|
  {
    ws[i / WordBits := FlipWord(ws[i / WordBits], i % WordBits)]
  }

  /** The words after `set(i, n, v)` */
  function WithField(ws: seq<nat>, i: nat, n: nat, v: nat): seq<nat>
    requires i / WordBits < |ws|
  {
    ws[i / WordBits := SetField(ws[i / WordBits], i % WordBits, n, v)]
  }

  /** The value of `get(i, n)` */
  function FieldAt(ws: seq<nat>, i: nat, n: nat): nat
    requires i / WordBits < |ws|
  {
    GetField(ws[i / WordBits], i % WordBits, n)
  }

  /** `sum over k < n of bit(i + k) * 2**k` */
  function BitSum(ws: seq<nat>, i: nat, n: nat): nat
    requires n == 0 || (i + n - 1) / WordBits < |ws|
    decreases n
  {
    if n == 0 then 0 else BitAt(ws, i) + 2 * BitSum(ws, i + 1, n - 1)
  }

  /** Every bit of a fresh string is 0. */
  lemma ZerosBits(n: nat, i: nat)
    requires i / WordBits < n
    ensures BitAt(Zeros(n), i) == 0
  {
    BitOfZero(i % WordBits);
  }

  /** After `self[i] = v`, bit i reads 1 iff v == 1; every other bit is unchanged. */
  lemma WithBitAt(ws: seq<nat>, i: nat, v: nat, j: nat)
    requires i / WordBits < |ws| && j / WordBits < |ws|
    ensures BitAt(WithBit(ws, i, v), j) == if j == i then (if v == 1 then 1 else 0) else BitAt(ws, j)
  {
    if j / WordBits == i / WordBits {
      SetOneBit(ws[i / WordBits], i % WordBits, j % WordBits);
      SetZeroBit(ws[i / WordBits], i % WordBits, j % WordBits);
    }
  }

  lemma WithBitBelow(ws: seq<nat>, i: nat, v: nat)
    requires i / WordBits < |ws| && WordsBelow(ws)
    ensures WordsBelow(WithBit(ws, i, v))
  {
    SetOneBelow(ws[i / WordBits], i % WordBits);
    SetZeroBelow(ws[i / WordBits], i % WordBits);
  }

  /** `flip(i)` complements bit i and no other. */
  lemma FlippedAt(ws: seq<nat>, i: nat, j: nat)
    requires i / WordBits < |ws| && j / WordBits < |ws| && WordsBelow(ws)
    ensures BitAt(Flipped(ws, i), j) == if j == i then 1 - BitAt(ws, i) else BitAt(ws, j)
  {
    if j / WordBits == i / WordBits {
      FlipWordBit(ws[i / WordBits], i % WordBits, j % WordBits);
    }
  }

  lemma FlippedBelow(ws: seq<nat>, i: nat)
    requires i / WordBits < |ws| && WordsBelow(ws)
    ensures WordsBelow(Flipped(ws, i))
  {
    SetOneBelow(ws[i / WordBits], i % WordBits);
    SetZeroBelow(ws[i / WordBits], i % WordBits);
  }

  /** `flip(i)` twice restores the words. */
  lemma FlipTwice(ws: seq<nat>, i: nat)
    requires i / WordBits < |ws| && WordsBelow(ws)
    ensures Flipped(Flipped(ws, i), i) == ws
  {
    var w := ws[i / WordBits];
    var j := i % WordBits;
    SetOneBelow(w, j);
    SetZeroBelow(w, j);
    forall k: nat
      ensures Bit(FlipWord(FlipWord(w, j), j), k) == Bit(w, k)
    {
      FlipWordBit(w, j, k);
      FlipWordBit(FlipWord(w, j), j, k);
    }
    BitExt(FlipWord(FlipWord(w, j), j), w);
  }

  /** The bits of `get(i, n)` are bits i .. i+n-1 of the string, and it is below `2**n`. */
  lemma FieldAtBits(ws: seq<nat>, i: nat, n: nat, k: nat)
    requires i / WordBits < |ws| && i % WordBits + n <= WordBits && k < n
    ensures (i + k) / WordBits == i / WordBits
    ensures Bit(FieldAt(ws, i, n), k) == BitAt(ws, i + k)
  {
    GetFieldBit(ws[i / WordBits], i % WordBits, n, k);
  }

  lemma FieldAtBound(ws: seq<nat>, i: nat, n: nat)
    requires i / WordBits < |ws|
    ensures FieldAt(ws, i, n) < Pow2(n)
  {
    forall k: nat | n <= k
      ensures Bit(FieldAt(ws, i, n), k) == 0
    {
      GetFieldBit(ws[i / WordBits], i % WordBits, n, k);
    }
    BelowFromBits(FieldAt(ws, i, n), n);
  }

  /** Digits s .. s+n-1 of x, as a number. */
  function Digits(x: nat, s: nat, n: nat): nat
    decreases n
  {
    if n == 0 then 0 else Bit(x, s) + 2 * Digits(x, s + 1, n - 1)
  }

  lemma {:induction false} DigitsHalf(x: nat, s: nat, n: nat)
    ensures Digits(x, s + 1, n) == Digits(x / 2, s, n)
    decreases n
  {
    if n > 0 {
      DigitsHalf(x, s + 1, n - 1);
    }
  }

  /** A number below `2**n` is the sum of its low n digits. */
  lemma {:induction false} DigitsValue(x: nat, n: nat)
    requires x < Pow2(n)
    ensures Digits(x, 0, n) == x
    decreases n
  {
    if n > 0 {
      DigitsValue(x / 2, n - 1);
      DigitsHalf(x, 0, n - 1);
    }
  }

  lemma {:induction false} DigitsOfField(ws: seq<nat>, i: nat, n: nat, s: nat, m: nat)
    requires i / WordBits < |ws| && i % WordBits + n <= WordBits && s + m <= n
    ensures m == 0 || (i + s + m - 1) / WordBits < |ws|
    ensures Digits(FieldAt(ws, i, n), s, m) == BitSum(ws, i + s, m)
    decreases m
  {
    if m > 0 {
      FieldAtBits(ws, i, n, s);
      FieldAtBits(ws, i, n, s + m - 1);
      DigitsOfField(ws, i, n, s + 1, m - 1);
    }
  }

  /** `get(i, n)` is the sum over k < n of `bit(i + k) * 2**k` when the range stays in one word. */
  lemma FieldAtSum(ws: seq<nat>, i: nat, n: nat)
    requires i / WordBits < |ws| && i % WordBits + n <= WordBits
    ensures n == 0 || (i + n - 1) / WordBits < |ws|
    ensures FieldAt(ws, i, n) == BitSum(ws, i, n)
  {
    FieldAtBound(ws, i, n);
    DigitsValue(FieldAt(ws, i, n), n);
    DigitsOfField(ws, i, n, 0, n);
  }

  lemma FieldAtSumWhenInWord(ws: seq<nat>, i: nat, n: nat)
    requires i / WordBits < |ws|
    ensures i % WordBits + n <= WordBits ==> FieldAt(ws, i, n) == BitSum(ws, i, n)
  {
    if i % WordBits + n <= WordBits {
      FieldAtSum(ws, i, n);
    }
  }

  /** After `set(i, n, v)`, bits i .. i+n-1 are v's digits and every other bit is unchanged. */
  lemma WithFieldAt(ws: seq<nat>, i: nat, n: nat, v: nat, j: nat)
    requires i / WordBits < |ws| && j / WordBits < |ws|
    requires i % WordBits + n <= WordBits && v < Pow2(n)
    ensures BitAt(WithField(ws, i, n, v), j) == if i <= j < i + n then Bit(v, j - i) else BitAt(ws, j)
  {
    if j / WordBits == i / WordBits {
      SetFieldBit(ws[i / WordBits], i % WordBits, n, v, j % WordBits);
    }
  }

  /** After `set(i, n, v)`, `get(i, n)` returns v. */
  lemma FieldRoundTrip(ws: seq<nat>, i: nat, n: nat, v: nat)
    requires i / WordBits < |ws| && i % WordBits + n <= WordBits && v < Pow2(n)
    ensures FieldAt(WithField(ws, i, n, v), i, n) == v
  {
    var w := ws[i / WordBits];
    var off := i % WordBits;
    forall k: nat
      ensures Bit(GetField(SetField(w, off, n, v), off, n), k) == Bit(v, k)
    {
      GetFieldBit(SetField(w, off, n, v), off, n, k);
      SetFieldBit(w, off, n, v, off + k);
      if n <= k {
        HighBitsZero(v, n, k);
      }
    }
    BitExt(GetField(SetField(w, off, n, v), off, n), v);
  }

  lemma WithFieldBelow(ws: seq<nat>, i: nat, n: nat, v: nat)
    requires i / WordBits < |ws| && WordsBelow(ws)
    requires i % WordBits + n <= WordBits && v < Pow2(n)
    ensures WordsBelow(WithField(ws, i, n, v))
  {
    SetFieldBelow(ws[i / WordBits], i % WordBits, n, v);
  }

  // ---------------------------------------------------------------------
  // The self-test of bits.rb: bits 0, 5 and 7 of a 100-bit string set

  function SelfTestWords(): seq<nat>
  {
    WithBit(WithBit(WithBit(Zeros(NumWordsFor(100)), 0, 1), 5, 1), 7, 1)
  }

  lemma SelfTestBits(j: nat)
    requires j < 2 * WordBits
    ensures |SelfTestWords()| == 2 && WordsBelow(SelfTestWords())
    ensures BitAt(SelfTestWords(), j) == if j == 0 || j == 5 || j == 7 then 1 else 0
  {
    var z := Zeros(2);
    assert NumWordsFor(100) == 2;
    var w1 := WithBit(z, 0, 1);
    var w2 := WithBit(w1, 5, 1);
    WithBitAt(z, 0, 1, j);
    WithBitAt(w1, 5, 1, j);
    WithBitAt(w2, 7, 1, j);
    ZerosBits(2, j);
    WithBitBelow(z, 0, 1);
    WithBitBelow(w1, 5, 1);
    WithBitBelow(w2, 7, 1);
  }

  lemma SelfTestFlippedBits(j: nat)
    requires j < 2 * WordBits
    ensures BitAt(Flipped(SelfTestWords(), 7), j) == if j == 0 || j == 5 then 1 else 0
  {
    SelfTestBits(j);
    SelfTestBits(7);
    FlippedAt(SelfTestWords(), 7, j);
  }

  /** A word whose only ones among its 64 digits are digits 0 and 5 is 33. */
  lemma WordIs33(x: nat)
    requires x < WordMax
    requires forall k: nat :: k < WordBits ==> Bit(x, k) == if k == 0 || k == 5 then 1 else 0
    ensures x == 33
  {
    assert Pow2(6) == 64;
    Pow2WordBits();
    Pow2Mono(6, WordBits);
    forall k: nat
      ensures Bit(x, k) == Bit(33, k)
    {
      if k < 6 {
        assert Bit(33, 0) == 1 && Bit(33, 1) == 0 && Bit(33, 2) == 0;
        assert Bit(33, 3) == 0 && Bit(33, 4) == 0 && Bit(33, 5) == 1;
      } else {
        HighBitsZero(33, 6, k);
        if WordBits <= k {
          HighBitsZero(x, WordBits, k);
        }
      }
    }
    BitExt(x, 33);
  }

  /** The fields read by the self-test, from the bits they cover. */
  lemma FieldsOfBits(ws: seq<nat>)
    requires 0 < |ws|
    requires forall j: nat :: j < 8 ==> BitAt(ws, j) == if j == 0 || j == 5 || j == 7 then 1 else 0
    ensures FieldAt(ws, 0, 8) == 161 && FieldAt(ws, 5, 3) == 5
  {
    FieldAtSum(ws, 0, 8);
    FieldAtSum(ws, 5, 3);
    assert BitSum(ws, 7, 1) == 1;
    assert BitSum(ws, 6, 2) == 2;
    assert BitSum(ws, 5, 3) == 5;
    assert BitSum(ws, 4, 4) == 10;
    assert BitSum(ws, 3, 5) == 20;
    assert BitSum(ws, 2, 6) == 40;
    assert BitSum(ws, 1, 7) == 80;
  }

  lemma FlippedFieldOfBits(ws: seq<nat>)
    requires 0 < |ws|
    requires forall j: nat :: 5 <= j < 8 ==> BitAt(ws, j) == if j == 5 then 1 else 0
    ensures FieldAt(ws, 5, 3) == 1
  {
    FieldAtSum(ws, 5, 3);
    assert BitSum(ws, 7, 1) == 0;
    assert BitSum(ws, 6, 2) == 0;
  }

  /** `get(0, 8) == 161` and `get(5, 3) == 5` on the self-test vector. */
  lemma SelfTestGet()
    ensures |SelfTestWords()| == 2 && BitAt(SelfTestWords(), 5) == 1
    ensures FieldAt(SelfTestWords(), 0, 8) == 161 && FieldAt(SelfTestWords(), 5, 3) == 5
  {
    forall j: nat | j < 8
      ensures BitAt(SelfTestWords(), j) == if j == 0 || j == 5 || j == 7 then 1 else 0
    {
      SelfTestBits(j);
    }
    SelfTestBits(5);
    FieldsOfBits(SelfTestWords());
  }

  lemma SelfTestFlippedWord()
    ensures |Flipped(SelfTestWords(), 7)| == 2 && Flipped(SelfTestWords(), 7)[0] == 33
  {
    var ws := Flipped(SelfTestWords(), 7);
    SelfTestBits(7);
    FlippedBelow(SelfTestWords(), 7);
    forall j: nat | j < WordBits
      ensures Bit(ws[0], j) == if j == 0 || j == 5 then 1 else 0
    {
      SelfTestFlippedBits(j);
    }
    WordIs33(ws[0]);
  }

  lemma SelfTestFlippedField()
    ensures |Flipped(SelfTestWords(), 7)| == 2 && FieldAt(Flipped(SelfTestWords(), 7), 5, 3) == 1
  {
    var ws := Flipped(SelfTestWords(), 7);
    SelfTestBits(7);
    forall j: nat | 5 <= j < 8
      ensures BitAt(ws, j) == if j == 5 then 1 else 0
    {
      SelfTestFlippedBits(j);
    }
    FlippedFieldOfBits(ws);
  }

  /** After `flip(7)`: `get(5, 3) == 1` and `getWord(0) == 33`. */
  lemma SelfTestFlip()
    ensures |Flipped(SelfTestWords(), 7)| == 2
    ensures FieldAt(Flipped(SelfTestWords(), 7), 5, 3) == 1
    ensures Flipped(SelfTestWords(), 7)[0] == 33
  {
    SelfTestFlippedWord();
    SelfTestFlippedField();
  }

  // ---------------------------------------------------------------------
  // The store

  /** `Bits`: a string of `size` bits kept in the word array `bits` (`@bits`). */
  class Bits {
    const size: nat
    const bits: array<nat>

    /** The array holds `ceil(size / 64)` words, each below `2**64`. */
    ghost predicate Valid()
      reads bits
    {
      bits.Length == NumWordsFor(size) && WordsBelow(bits[..])
    }

    /** `Bits.new(size)`: every word 0. */
    constructor(size: nat)
      ensures Valid() && this.size == size && fresh(bits)
      ensures bits[..] == Zeros(NumWordsFor(size))
    {
      this.size := size;
      bits := new nat[NumWordsFor(size)](_ => 0);
    }

    /** `self[index] = value`: bit index becomes 1 when value is 1, and 0 otherwise. */
    method SetAt(index: nat, value: nat)
      requires Valid() && index / WordBits < bits.Length
      modifies bits
      ensures Valid() && bits[..] == WithBit(old(bits[..]), index, value)
    {
      WithBitBelow(bits[..], index, value);
      var w := index / WordBits;
      if value == 1 {
        bits[w] := Or(bits[w], BitMask(index % WordBits));
      } else {
        bits[w] := And(bits[w], Xor(BitMask(index % WordBits), XorMask));
      }
    }

    /** `set(index, numBits, value)`, the field staying inside one word. */
    method Set(index: nat, numBits: nat, value: nat)
      requires Valid() && index / WordBits < bits.Length
      requires index % WordBits + numBits <= WordBits && value < Pow2(numBits)
      modifies bits
      ensures Valid() && bits[..] == WithField(old(bits[..]), index, numBits, value)
    {
      WithFieldBelow(bits[..], index, numBits, value);
      var w := index / WordBits;
      var andMask := Pow2(numBits) - 1;
      andMask := Shl(andMask, index % WordBits);
      andMask := Xor(andMask, XorMask);
      bits[w] := And(bits[w], andMask);
      var valMask := Shl(value, index % WordBits);
      bits[w] := Or(bits[w], valMask);
      assert bits[w] == SetField(old(bits[w]), index % WordBits, numBits, value);
      assert bits[..] == old(bits[..])[w := bits[w]];
    }

    /** `setWord(word, value)` */
    method SetWord(word: nat, value: nat)
      requires Valid() && word < bits.Length && value < WordMax
      modifies bits
      ensures Valid() && bits[..] == old(bits[..])[word := value]
    {
      bits[word] := value;
    }

    /** `self[index]`: the mask test reads bit index of the string. */
    function At(index: nat): (b: nat)
      reads bits
      requires index / WordBits < bits.Length
      ensures b == BitAt(bits[..], index)
    {
      TestBitIsBit(bits[index / WordBits], index % WordBits);
      if And(bits[index / WordBits], BitMask(index % WordBits)) > 0 then 1 else 0
    }

    /** `flip(index)` */
    method Flip(index: nat)
      requires Valid() && index / WordBits < bits.Length
      modifies bits
      ensures Valid() && bits[..] == Flipped(old(bits[..]), index)
    {
      FlippedBelow(bits[..], index);
      var w := index / WordBits;
      var value := if And(bits[w], BitMask(index % WordBits)) > 0 then 1 else 0;
      if value == 0 {
        bits[w] := Or(bits[w], BitMask(index % WordBits));
      } else {
        bits[w] := And(bits[w], Xor(BitMask(index % WordBits), XorMask));
      }
    }

    /**
     * `get(index, numBits)`: below `2**numBits`, and when the field stays in
     * one word it is the sum over k < numBits of `bit(index + k) * 2**k`.
     */
    function Get(index: nat, numBits: nat): (v: nat)
      reads bits
      requires index / WordBits < bits.Length
      ensures v == FieldAt(bits[..], index, numBits)
      ensures v < Pow2(numBits)
      ensures index % WordBits + numBits <= WordBits ==> v == BitSum(bits[..], index, numBits)
    {
      FieldAtBound(bits[..], index, numBits);
      FieldAtSumWhenInWord(bits[..], index, numBits);
      var andMask := Shl(Pow2(numBits) - 1, index % WordBits);
      var value := And(bits[index / WordBits], andMask);
      Shr(value, index % WordBits)
    }

    /** `getWord(word)` */
    function GetWord(word: nat): (v: nat)
      reads bits
      requires Valid() && word < bits.Length
      ensures v == bits[word] && v < WordMax
    {
      bits[word]
    }

    /** `duplicate(from)`: every word copied from the same word of `from`. */
    method Duplicate(from: Bits)
      requires Valid() && from.Valid() && bits.Length <= from.bits.Length
      modifies bits
      ensures Valid()
      ensures bits[..] == old(from.bits[..bits.Length])
      ensures from.bits[..] == old(from.bits[..])
    {
      var i := 0;
      while i < bits.Length
        invariant 0 <= i <= bits.Length
        invariant bits[..i] == old(from.bits[..i])
        invariant bits[i..] == old(bits[i..])
        invariant from.bits[..] == old(from.bits[..])
      {
        bits[i] := from.GetWord(i);
        i := i + 1;
      }
      assert bits[..] == bits[..i];
    }

    /** `each`: the bits yielded in index order. */
    method Each() returns (s: seq<nat>)
      requires Valid()
      ensures |s| == size
      ensures forall i :: 0 <= i < size ==> i / WordBits < bits.Length && s[i] == BitAt(bits[..], i)
    {
      s := [];
      var index := 0;
      while index < size
        invariant index <= size && |s| == index
        invariant forall i :: 0 <= i < index ==> i / WordBits < bits.Length && s[i] == BitAt(bits[..], i)
      {
        s := s + [At(index)];
        index := index + 1;
      }
    }

    /** `each_index`: the indices yielded, 0 up to `size - 1`. */
    method EachIndex() returns (s: seq<nat>)
      ensures |s| == size
      ensures forall i :: 0 <= i < size ==> s[i] == i
    {
      s := [];
      var index := 0;
      while index < size
        invariant index <= size && |s| == index
        invariant forall i :: 0 <= i < index ==> s[i] == i
      {
        s := s + [index];
        index := index + 1;
      }
    }

    /** `numWords` */
    function NumWords(): (n: nat)
      reads bits
      requires Valid()
      ensures n == NumWordsFor(size)
    {
      bits.Length
    }
  }
}
