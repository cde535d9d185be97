/**
 * The population of gene.rb and its genetic operators.
 *
 * The first part states each operator as a function of the words and scores
 * it reads: the index encoding of `calcIndex`, single-point crossover, the
 * mutation flips, the running best of `fitness` and the roulette wheel of
 * `selection`, each with lemmas giving its meaning.  The classes `Gene`
 * and `GenePool` then carry out the operators in place; every random draw of
 * the original is an explicit input.
 */
module Genes {
  import opened Words
  import opened BitVectors

  // ---------------------------------------------------------------------
  // Sums and the index encoding of calcIndex

  /** `s.inject(0, :+)` */
  function Sum(s: seq<nat>): nat
  {
    if |s| == 0 then 0 else Sum(s[..|s| - 1]) + s[|s| - 1]
  }

  /** The value of `calcIndex(fields)`: the sum of `fields[i] << (mask[0] + ... + mask[i-1])`. */
  function Index(mask: seq<nat>, fields: seq<nat>): nat
    requires |mask| <= |fields|
  {
    if |mask| == 0 then 0
    else Index(mask[..|mask| - 1], fields) + Shl(fields[|mask| - 1], Sum(mask[..|mask| - 1]))
  }

  /** Every field fits in its width. */
  predicate Fits(mask: seq<nat>, fields: seq<nat>)
    requires |mask| <= |fields|
  {
    forall i :: 0 <= i < |mask| ==> fields[i] < Pow2(mask[i])
  }

  lemma {:induction false} ShlIsMul(x: nat, s: nat)
    ensures Shl(x, s) == x * Pow2(s)
    decreases s
  {
    if s > 0 {
      ShlIsMul(x, s - 1);
    }
  }

  /** Adding a multiple of `2**s` to a number below `2**s` puts its digits above position s. */
  lemma {:induction false} BitOfSum(x: nat, y: nat, s: nat, k: nat)
    requires x < Pow2(s)
    ensures Bit(x + Shl(y, s), k) == if k < s then Bit(x, k) else Bit(y, k - s)
    decreases s
  {
    if s == 0 {
    } else {
      assert x + Shl(y, s) == x % 2 + 2 * (x / 2 + Shl(y, s - 1));
      if k > 0 {
        BitOfSum(x / 2, y, s - 1, k - 1);
      }
    }
  }

  /** With fitting fields the index lies in `[0, 2**inLen)`. */
  lemma {:induction false} IndexBound(mask: seq<nat>, fields: seq<nat>)
    requires |mask| <= |fields| && Fits(mask, fields)
    ensures Index(mask, fields) < Pow2(Sum(mask))
    decreases |mask|
  {
    if |mask| > 0 {
      var m := mask[..|mask| - 1];
      var last := |mask| - 1;
      IndexBound(m, fields);
      var x := Index(m, fields);
      var f := fields[last];
      forall k: nat | Sum(mask) <= k
        ensures Bit(Index(mask, fields), k) == 0
      {
        BitOfSum(x, f, Sum(m), k);
        HighBitsZero(f, mask[last], k - Sum(m));
      }
      BelowFromBits(Index(mask, fields), Sum(mask));
    }
  }

  lemma {:induction false} SumPrefix(mask: seq<nat>, i: nat)
    requires i < |mask|
    ensures Sum(mask[..i]) + mask[i] <= Sum(mask)
    decreases |mask|
  {
    if i < |mask| - 1 {
      assert mask[..|mask| - 1][..i] == mask[..i];
      SumPrefix(mask[..|mask| - 1], i);
    } else {
      assert mask[..i] == mask[..|mask| - 1];
    }
  }

  /** With fitting fields, digit k of field i sits at digit `mask[0] + ... + mask[i-1] + k` of the index. */
  lemma {:induction false} IndexDigits(mask: seq<nat>, fields: seq<nat>, i: nat, k: nat)
    requires |mask| <= |fields| && Fits(mask, fields)
    requires i < |mask| && k < mask[i]
    ensures Bit(Index(mask, fields), Sum(mask[..i]) + k) == Bit(fields[i], k)
    decreases |mask|
  {
    var m := mask[..|mask| - 1];
    var last := |mask| - 1;
    assert Fits(m, fields);
    IndexBound(m, fields);
    BitOfSum(Index(m, fields), fields[last], Sum(m), Sum(mask[..i]) + k);
    if i < last {
      assert m[..i] == mask[..i];
      SumPrefix(m, i);
      IndexDigits(m, fields, i, k);
    } else {
      assert mask[..i] == m;
    }
  }

  /** With fitting fields `calcIndex` is injective. */
  lemma IndexInjective(mask: seq<nat>, f: seq<nat>, g: seq<nat>)
    requires |mask| <= |f| && |mask| <= |g| && Fits(mask, f) && Fits(mask, g)
    requires Index(mask, f) == Index(mask, g)
    ensures f[..|mask|] == g[..|mask|]
  {
    forall i | 0 <= i < |mask|
      ensures f[i] == g[i]
    {
      forall k: nat
        ensures Bit(f[i], k) == Bit(g[i], k)
      {
        if k < mask[i] {
          IndexDigits(mask, f, i, k);
          IndexDigits(mask, g, i, k);
        } else {
          HighBitsZero(f[i], mask[i], k);
          HighBitsZero(g[i], mask[i], k);
        }
      }
      BitExt(f[i], g[i]);
    }
  }

  /** Fields past the mask's length do not change the index. */
  lemma {:induction false} IndexExtend(mask: seq<nat>, f: seq<nat>, g: seq<nat>)
    requires |mask| <= |f|
    ensures Index(mask, f + g) == Index(mask, f)
    decreases |mask|
  {
    if |mask| > 0 {
      IndexExtend(mask[..|mask| - 1], f, g);
      assert (f + g)[|mask| - 1] == f[|mask| - 1];
    }
  }

  /** x splits at digit s into `x % 2**s` and `(x / 2**s) << s`; below `2**(s+n)` the high part is below `2**n`. */
  lemma SplitLast(x: nat, s: nat, n: nat)
    requires x < Pow2(s) * Pow2(n)
    ensures x % Pow2(s) < Pow2(s) && Quot(x, Pow2(s)) < Pow2(n) && x == x % Pow2(s) + Shl(Quot(x, Pow2(s)), s)
  {
    DivBelow(x, Pow2(s), Pow2(n));
    ShlIsMul(Quot(x, Pow2(s)), s);
  }

  /** The quotient of a number by a positive divisor: a number again. */
  function Quot(x: nat, d: nat): nat
    requires d > 0
  {
    x / d
  }

  /** A number below `a * b` divided by a is below b. */
  lemma DivBelow(x: nat, a: nat, b: nat)
    requires a > 0 && x < a * b
    ensures 0 <= x / a < b && 0 <= x % a < a && x == x % a + (x / a) * a
  {
    assert x == (x / a) * a + x % a;
    if x / a >= b {
      MulMono(b, x / a, a);
      assert false;
    }
  }

  /**
   * The fields whose index is x: the last field takes the digits of x from
   * `mask[0] + ... + mask[n-2]` on, the others split the rest.
   */
  function Split(mask: seq<nat>, x: nat): (f: seq<nat>)
    ensures |f| == |mask|
    decreases |mask|
  {
    if |mask| == 0 then []
    else
      var p := Pow2(Sum(mask[..|mask| - 1]));
      Split(mask[..|mask| - 1], x % p) + [Quot(x, p)]
  }

  /**
   * Every number in `[0, 2**inLen)` is `calcIndex` of fitting fields, so
   * with `IndexBound` the image of `calcIndex` is exactly that range.
   */
  lemma {:induction false} IndexOnto(mask: seq<nat>, x: nat)
    requires x < Pow2(Sum(mask))
    ensures Fits(mask, Split(mask, x)) && Index(mask, Split(mask, x)) == x
    decreases |mask|
  {
    if |mask| == 0 {
    } else {
      var m := mask[..|mask| - 1];
      var n := mask[|mask| - 1];
      var p := Pow2(Sum(m));
      var r, q := x % p, Quot(x, p);
      var f := Split(mask, x);
      assert f == Split(m, r) + [q];
      assert Sum(mask) == Sum(m) + n;
      Pow2Add(Sum(m), n);
      SplitLast(x, Sum(m), n);
      IndexOnto(m, r);
      IndexExtend(m, Split(m, r), [q]);
      forall i | 0 <= i < |mask|
        ensures f[i] < Pow2(mask[i])
      {
        if i < |m| {
          assert f[i] == Split(m, r)[i];
        }
      }
      assert Index(mask, f) == Index(m, f) + Shl(q, Sum(m));
    }
  }

  /** With the blackjack widths `[2, 5, 5]` the index of `[0, 1, 0]` is 4. */
  lemma IndexExample()
    ensures Index([2, 5, 5], [0, 1, 0]) == 4
  {
    var mask: seq<nat> := [2, 5, 5];
    var fields: seq<nat> := [0, 1, 0];
    assert mask[..1] == [2] && mask[..2] == [2, 5];
    assert Sum(mask[..1]) == 2;
    assert Shl(1, 2) == 4;
    assert Shl(0, Sum(mask[..2])) == 0 by {
      ShlZero(0, Sum(mask[..2]));
    }
    assert Index(mask[..1], fields) == 0 by {
      assert mask[..1][..0] == [];
      ShlZero(0, 0);
    }
  }

  // ---------------------------------------------------------------------
  // Crossover

  /** The low n bits of word y put into word x: `x.set(start, n, y.get(start, n))` at a word start. */
  function CrossWord(x: nat, y: nat, n: nat): nat
  {
    SetField(x, 0, n, GetField(y, 0, n))
  }

  /**
   * The words of A and B after `crossover(A, B, index)`: the words below
   * `index / 64` are swapped, then the low `index % 64` bits of word
   * `index / 64` are exchanged.
   */
  function Crossed(a: seq<nat>, b: seq<nat>, index: nat): (r: (seq<nat>, seq<nat>))
    requires index / WordBits < |a| && index / WordBits < |b|
    ensures |r.0| == |a| && |r.1| == |b|
  {
    var w := index / WordBits;
    var numBits := index - w * WordBits;
    var a' := b[..w] + a[w..];
    var b' := a[..w] + b[w..];
    (a'[w := CrossWord(a[w], b[w], numBits)], b'[w := CrossWord(b[w], a[w], numBits)])
  }

  lemma CrossWordBit(x: nat, y: nat, n: nat, k: nat)
    requires n < WordBits && k < WordBits
    ensures Bit(CrossWord(x, y, n), k) == if k < n then Bit(y, k) else Bit(x, k)
  {
    FieldAtBound([y], 0, n);
    SetFieldBit(x, 0, n, GetField(y, 0, n), k);
    GetFieldBit(y, 0, n, k);
  }

  lemma CrossWordBelow(x: nat, y: nat, n: nat)
    requires n < WordBits
    ensures CrossWord(x, y, n) < WordMax
  {
    FieldAtBound([y], 0, n);
    SetFieldBelow(x, 0, n, GetField(y, 0, n));
  }

  /** After crossover at index, A holds B's bits below index and its own from index on; B the reverse. */
  lemma CrossedBits(a: seq<nat>, b: seq<nat>, index: nat, j: nat)
    requires index / WordBits < |a| && |a| == |b| && j / WordBits < |a|
    ensures BitAt(Crossed(a, b, index).0, j) == if j < index then BitAt(b, j) else BitAt(a, j)
    ensures BitAt(Crossed(a, b, index).1, j) == if j < index then BitAt(a, j) else BitAt(b, j)
  {
    var w := index / WordBits;
    if j / WordBits == w {
      CrossWordBit(a[w], b[w], index % WordBits, j % WordBits);
      CrossWordBit(b[w], a[w], index % WordBits, j % WordBits);
    }
  }

  /** Crossover writes no word above word `index / 64`, and keeps words below `2**64`. */
  lemma CrossedFrame(a: seq<nat>, b: seq<nat>, index: nat)
    requires index / WordBits < |a| && |a| == |b| && WordsBelow(a) && WordsBelow(b)
    ensures forall w :: index / WordBits < w < |a| ==> Crossed(a, b, index).0[w] == a[w] && Crossed(a, b, index).1[w] == b[w]
    ensures WordsBelow(Crossed(a, b, index).0) && WordsBelow(Crossed(a, b, index).1)
  {
    var w := index / WordBits;
    CrossWordBelow(a[w], b[w], index % WordBits);
    CrossWordBelow(b[w], a[w], index % WordBits);
  }

  lemma CrossWordTwice(x: nat, y: nat, n: nat)
    requires n < WordBits && x < WordMax && y < WordMax
    ensures CrossWord(CrossWord(x, y, n), CrossWord(y, x, n), n) == x
  {
    var x' := CrossWord(x, y, n);
    var y' := CrossWord(y, x, n);
    CrossWordBelow(x, y, n);
    forall k: nat
      ensures Bit(CrossWord(x', y', n), k) == Bit(x, k)
    {
      if k < WordBits {
        CrossWordBit(x', y', n, k);
        CrossWordBit(x, y, n, k);
        CrossWordBit(y, x, n, k);
      } else {
        CrossWordBelow(x', y', n);
        Pow2WordBits();
        HighBitsZero(CrossWord(x', y', n), WordBits, k);
        HighBitsZero(x, WordBits, k);
      }
    }
    BitExt(CrossWord(x', y', n), x);
  }

  /** Crossing again at the same index restores both genomes. */
  lemma CrossedTwice(a: seq<nat>, b: seq<nat>, index: nat)
    requires index / WordBits < |a| && |a| == |b| && WordsBelow(a) && WordsBelow(b)
    ensures Crossed(Crossed(a, b, index).0, Crossed(a, b, index).1, index) == (a, b)
  {
    var w := index / WordBits;
    var n := index % WordBits;
    CrossWordTwice(a[w], b[w], n);
    CrossWordTwice(b[w], a[w], n);
    var r := Crossed(a, b, index);
    var r2 := Crossed(r.0, r.1, index);
    assert r2.0 == a;
    assert r2.1 == b;
  }

  // ---------------------------------------------------------------------
  // Mutation

  /** The words after `mutate`: bit i flipped, for i = 0, 1, ..., when `flips[i]` holds. */
  function Mutated(ws: seq<nat>, flips: seq<bool>): (r: seq<nat>)
    requires |flips| <= |ws| * WordBits
    ensures |r| == |ws|
    decreases |flips|
  {
    if |flips| == 0 then ws
    else
      var prev := Mutated(ws, flips[..|flips| - 1]);
      if flips[|flips| - 1] then Flipped(prev, |flips| - 1) else prev
  }

  /** Mutation keeps the words below `2**64` and flips exactly the chosen bits. */
  lemma {:induction false} MutatedBits(ws: seq<nat>, flips: seq<bool>, j: nat)
    requires |flips| <= |ws| * WordBits && WordsBelow(ws) && j / WordBits < |ws|
    ensures WordsBelow(Mutated(ws, flips))
    ensures BitAt(Mutated(ws, flips), j) == if j < |flips| && flips[j] then 1 - BitAt(ws, j) else BitAt(ws, j)
    decreases |flips|
  {
    if |flips| > 0 {
      var n := |flips| - 1;
      var prev := Mutated(ws, flips[..n]);
      MutatedBits(ws, flips[..n], j);
      if flips[n] {
        MutatedBits(ws, flips[..n], n);
        FlippedAt(prev, n, j);
        FlippedBelow(prev, n);
      }
    }
  }

  // ---------------------------------------------------------------------
  // Fitness bookkeeping

  /** `(bestGene, bestFitness)` after `fitness` has seen the scores in id order. */
  function Best(scores: seq<nat>): (nat, nat)
  {
    if |scores| == 0 then (0, 0)
    else
      var (id, f) := Best(scores[..|scores| - 1]);
      if scores[|scores| - 1] > f then (|scores| - 1, scores[|scores| - 1]) else (id, f)
  }

  /**
   * `bestFitness` is the largest score (0 if there is none above 0), and
   * `bestGene` is the smallest id reaching it, or 0 when every score is 0.
   */
  lemma {:induction false} BestIsFirstMax(scores: seq<nat>)
    ensures var (id, f) := Best(scores);
      (forall k :: 0 <= k < |scores| ==> scores[k] <= f) &&
      (f == 0 ==> id == 0) &&
      (f > 0 ==> id < |scores| && scores[id] == f && forall k :: 0 <= k < id ==> scores[k] < f)
    decreases |scores|
  {
    if |scores| > 0 {
      var pre := scores[..|scores| - 1];
      BestIsFirstMax(pre);
      assert forall k :: 0 <= k < |pre| ==> scores[k] == pre[k];
    }
  }

  // ---------------------------------------------------------------------
  // The roulette wheel of selection

  /** Copies of gene i in the mating pool: `(f / T * n).to_i`, as an exact floor. */
  function Share(f: nat, total: nat, n: nat): nat
    requires total > 0
  {
    f * n / total
  }

  /** The ids copied into the mating pool after the elite, in the order added. */
  function Wheel(fits: seq<nat>, total: nat, n: nat): (r: seq<nat>)
    requires total > 0
    ensures forall k :: 0 <= k < |r| ==> r[k] < |fits|
  {
    if |fits| == 0 then []
    else Wheel(fits[..|fits| - 1], total, n) + seq(Share(fits[|fits| - 1], total, n), _ => |fits| - 1)
  }

  /** The wheel of the first g genes, built gene after gene as the `selection` loop does. */
  function WheelTo(fits: seq<nat>, total: nat, n: nat, g: nat): (r: seq<nat>)
    requires total > 0 && g <= |fits|
    ensures forall k :: 0 <= k < |r| ==> r[k] < g
  {
    if g == 0 then [] else WheelTo(fits, total, n, g - 1) + seq(Share(fits[g - 1], total, n), _ => g - 1)
  }

  /** Building the wheel gene after gene gives the wheel of the prefix. */
  lemma {:induction false} WheelToPrefix(fits: seq<nat>, total: nat, n: nat, g: nat)
    requires total > 0 && g <= |fits|
    ensures WheelTo(fits, total, n, g) == Wheel(fits[..g], total, n)
    decreases g
  {
    if g > 0 {
      WheelToPrefix(fits, total, n, g - 1);
      assert fits[..g][..g - 1] == fits[..g - 1];
    }
  }

  /** `sum over i of floor(f_i * n / T)` */
  function Shares(fits: seq<nat>, total: nat, n: nat): nat
    requires total > 0
  {
    if |fits| == 0 then 0 else Shares(fits[..|fits| - 1], total, n) + Share(fits[|fits| - 1], total, n)
  }

  /** The wheel holds `sum floor(f_i * n / T)` entries, grouped by id in ascending order. */
  lemma {:induction false} WheelShape(fits: seq<nat>, total: nat, n: nat)
    requires total > 0
    ensures |Wheel(fits, total, n)| == Shares(fits, total, n)
    ensures forall i, j :: 0 <= i < j < |Wheel(fits, total, n)| ==> Wheel(fits, total, n)[i] <= Wheel(fits, total, n)[j]
    decreases |fits|
  {
    if |fits| > 0 {
      WheelShape(fits[..|fits| - 1], total, n);
    }
  }

  /** Four genes of fitness 1 with total 4: one copy each, so the mating pool holds 1 + 4 genes. */
  lemma SelectionExample()
    ensures Wheel([1, 1, 1, 1], 4, 4) == [0, 1, 2, 3]
  {
    var f1: seq<nat> := [1];
    var f2: seq<nat> := [1, 1];
    var f3: seq<nat> := [1, 1, 1];
    var f4: seq<nat> := [1, 1, 1, 1];
    assert f4[..3] == f3 && f3[..2] == f2 && f2[..1] == f1 && f1[..0] == [];
    assert Share(1, 4, 4) == 1;
    assert Wheel(f1, 4, 4) == [0] by {
      assert Wheel(f1, 4, 4) == Wheel([], 4, 4) + seq(1, _ => 0);
    }
    assert Wheel(f2, 4, 4) == [0, 1] by {
      assert Wheel(f2, 4, 4) == Wheel(f1, 4, 4) + seq(1, _ => 1);
    }
    assert Wheel(f3, 4, 4) == [0, 1, 2] by {
      assert Wheel(f3, 4, 4) == Wheel(f2, 4, 4) + seq(1, _ => 2);
    }
    assert Wheel(f4, 4, 4) == Wheel(f3, 4, 4) + seq(1, _ => 3);
  }

  lemma FloorSum(a: nat, b: nat, t: nat)
    requires t > 0
    ensures a / t + b / t <= (a + b) / t
  {
    assert (a / t) * t <= a;
    assert (b / t) * t <= b;
    assert (a / t + b / t) * t <= a + b;
    DivLowerBound(a / t + b / t, a + b, t);
  }

  lemma MulMono(a: nat, b: nat, t: nat)
    requires a <= b
    ensures a * t <= b * t
  {
  }

  lemma DivLowerBound(q: nat, x: nat, t: nat)
    requires t > 0 && q * t <= x
    ensures q <= x / t
  {
    var r := x / t;
    assert x == r * t + x % t && x % t < t;
    if q > r {
      MulMono(r + 1, q, t);
      assert false;
    }
  }

  lemma DivUpperBound(x: nat, t: nat, n: nat)
    requires t > 0 && x <= t * n
    ensures x / t <= n
  {
    var r := x / t;
    assert x == r * t + x % t;
    if r > n {
      MulMono(n + 1, r, t);
      assert false;
    }
  }

  lemma Distribute(a: nat, b: nat, n: nat)
    ensures (a + b) * n == a * n + b * n
  {
  }

  /** The sum of the floors is at most the floor of the sum. */
  lemma {:induction false} SharesBelow(fits: seq<nat>, total: nat, n: nat)
    requires total > 0
    ensures Shares(fits, total, n) <= Sum(fits) * n / total
    decreases |fits|
  {
    if |fits| > 0 {
      var m := fits[..|fits| - 1];
      var f := fits[|fits| - 1];
      SharesBelow(m, total, n);
      FloorSum(Sum(m) * n, f * n, total);
      Distribute(Sum(m), f, n);
    }
  }

  /** When the fitnesses add up to at most T, the wheel holds at most n entries. */
  lemma SharesBound(fits: seq<nat>, total: nat, n: nat)
    requires total > 0 && Sum(fits) <= total
    ensures Shares(fits, total, n) <= n
  {
    var x := Sum(fits) * n;
    SharesBelow(fits, total, n);
    MulMono(Sum(fits), total, n);
    DivUpperBound(x, total, n);
  }

  // ---------------------------------------------------------------------
  // Reproduction

  /** The random draws of `reproduction` for one slot. */
  datatype Draw = Draw(mom: nat, dad: nat, cross: bool, point: nat, flips: seq<bool>)

  /** A draw the pool can use: parents in the mating pool, crossover point and one flip per bit of the gene. */
  predicate DrawFits(d: Draw, poolSize: nat, geneLen: nat)
  {
    d.mom < poolSize && d.dad < poolSize && d.point < geneLen && |d.flips| == geneLen
  }

  /**
   * The bits `reproduction` writes into a slot: mom's first n words, crossed
   * with dad's at the drawn point when the draw says so, then mutated.
   */
  function Offspring(parents: seq<seq<nat>>, d: Draw, geneLen: nat): seq<nat>
    requires DrawFits(d, |parents|, geneLen)
    requires forall k :: 0 <= k < |parents| ==> NumWordsFor(geneLen) <= |parents[k]|
  {
    var n := NumWordsFor(geneLen);
    Child(parents[d.mom][..n], parents[d.dad][..n], d)
  }

  /** Mom's words, crossed with dad's at the drawn point when the draw says so, then mutated. */
  function Child(mom: seq<nat>, dad: seq<nat>, d: Draw): seq<nat>
    requires d.point / WordBits < |mom| && |mom| == |dad| && |d.flips| <= |mom| * WordBits
  {
    var child := if d.cross then Crossed(mom, dad, d.point).0 else mom;
    Mutated(child, d.flips)
  }

  /**
   * Bit j of a child: dad's bit below the crossover point and mom's from it
   * on (mom's everywhere without crossover), complemented where the flip
   * draw says so.
   */
  lemma OffspringBits(parents: seq<seq<nat>>, d: Draw, geneLen: nat, j: nat)
    requires DrawFits(d, |parents|, geneLen)
    requires forall k :: 0 <= k < |parents| ==> NumWordsFor(geneLen) <= |parents[k]| && WordsBelow(parents[k])
    requires j < geneLen
    ensures j / WordBits < NumWordsFor(geneLen)
    ensures var n := NumWordsFor(geneLen);
      var inherited := if d.cross && j < d.point then BitAt(parents[d.dad][..n], j) else BitAt(parents[d.mom][..n], j);
      BitAt(Offspring(parents, d, geneLen), j) == if d.flips[j] then 1 - inherited else inherited
  {
    var n := NumWordsFor(geneLen);
    assert j / WordBits < n && d.point / WordBits < n by {
      WithinWords(j, geneLen);
      WithinWords(d.point, geneLen);
    }
    var mom := parents[d.mom][..n];
    var dad := parents[d.dad][..n];
    assert WordsBelow(mom) && WordsBelow(dad) by {
      assert WordsBelow(parents[d.mom]) && WordsBelow(parents[d.dad]);
    }
    ChildBits(mom, dad, d, j);
  }

  /** Bit j of `Child(mom, dad, d)`, the crossed or copied bit complemented where the flip draw says so. */
  lemma ChildBits(mom: seq<nat>, dad: seq<nat>, d: Draw, j: nat)
    requires d.point / WordBits < |mom| && |mom| == |dad| && |d.flips| <= |mom| * WordBits
    requires WordsBelow(mom) && WordsBelow(dad) && j / WordBits < |mom| && j < |d.flips|
    ensures var inherited := if d.cross && j < d.point then BitAt(dad, j) else BitAt(mom, j);
      BitAt(Child(mom, dad, d), j) == if d.flips[j] then 1 - inherited else inherited
  {
    var child := if d.cross then Crossed(mom, dad, d.point).0 else mom;
    if d.cross {
      CrossedBits(mom, dad, d.point, j);
      CrossedFrame(mom, dad, d.point);
    }
    MutatedBits(child, d.flips, j);
  }

  /** A bit index below size lies in one of the `NumWordsFor(size)` words. */
  lemma WithinWords(j: nat, size: nat)
    requires j < size
    ensures j / WordBits < NumWordsFor(size)
  {
  }

  // ---------------------------------------------------------------------
  // The classes

  /** `Gene < Bits`: a bit string, held as `bits`, with a fitness. */
  class Gene {
    const bits: Bits
    var fitness: nat

    /** `Gene.new(size)`: every bit 0 and fitness 0. */
    constructor(size: nat)
      ensures bits.Valid() && bits.size == size && fresh(bits) && fresh(bits.bits)
      ensures bits.bits[..] == Zeros(NumWordsFor(size)) && fitness == 0
    {
      bits := new Bits(size);
      fitness := 0;
    }
  }

  /** The words of the genes picked by ids, each cut to its first m words. */
  function Copies(ws: seq<seq<nat>>, ids: seq<nat>, m: nat): (r: seq<seq<nat>>)
    requires forall k :: 0 <= k < |ids| ==> ids[k] < |ws| && m <= |ws[ids[k]]|
    ensures |r| == |ids|
  {
    seq(|ids|, k requires 0 <= k < |ids| => ws[ids[k]][..m])
  }

  lemma CopiesConcat(ws: seq<seq<nat>>, a: seq<nat>, b: seq<nat>, m: nat)
    requires forall k :: 0 <= k < |a| ==> a[k] < |ws| && m <= |ws[a[k]]|
    requires forall k :: 0 <= k < |b| ==> b[k] < |ws| && m <= |ws[b[k]]|
    ensures Copies(ws, a + b, m) == Copies(ws, a, m) + Copies(ws, b, m)
  {
    var ab := a + b;
    assert forall k :: 0 <= k < |ab| ==> ab[k] == if k < |a| then a[k] else b[k - |a|];
  }

  /** n copies of one id pick n copies of that gene's words. */
  lemma CopiesRepeat(ws: seq<seq<nat>>, m: nat, id: nat, n: nat)
    requires id < |ws| && m <= |ws[id]|
    ensures Copies(ws, seq(n, _ => id), m) == seq(n, _ => ws[id][..m])
  {
  }

  /** The fitness values of the genes picked by ids. */
  function Picks(fs: seq<nat>, ids: seq<nat>): (r: seq<nat>)
    requires forall k :: 0 <= k < |ids| ==> ids[k] < |fs|
    ensures |r| == |ids|
  {
    seq(|ids|, k requires 0 <= k < |ids| => fs[ids[k]])
  }

  lemma PicksConcat(fs: seq<nat>, a: seq<nat>, b: seq<nat>)
    requires forall k :: 0 <= k < |a| ==> a[k] < |fs|
    requires forall k :: 0 <= k < |b| ==> b[k] < |fs|
    ensures Picks(fs, a + b) == Picks(fs, a) + Picks(fs, b)
  {
    var ab := a + b;
    assert forall k :: 0 <= k < |ab| ==> ab[k] == if k < |a| then a[k] else b[k - |a|];
  }

  /** n copies of one id pick n copies of that gene's fitness. */
  lemma PicksRepeat(fs: seq<nat>, id: nat, n: nat)
    requires id < |fs|
    ensures Picks(fs, seq(n, _ => id)) == seq(n, _ => fs[id])
  {
  }

  /** `GenePool`: `size` genes of `geneLen = 2**inLen * outLen` bits each. */
  class GenePool {
    const inMask: seq<nat>
    const outMask: seq<nat>
    const inLen: nat
    const outLen: nat
    const geneLen: nat
    var genePool: seq<Gene>
    var size: nat
    var bestGene: nat
    var bestFitness: nat
    /** The words of every gene, in id order. */
    ghost var Words: seq<seq<nat>>
    /** The fitness of every gene, in id order. */
    ghost var Fitnesses: seq<nat>
    /** The genes of the pool, whose fitness fields `fitness` writes. */
    ghost var Genes: set<Gene>
    /** The word arrays of their bit strings. */
    ghost var Storage: set<array<nat>>
    /** The slot of each word array; it keeps the arrays of different slots apart. */
    ghost var slot: map<array<nat>, nat>

    /** Gene k is a valid string of geneLen bits holding `Words[k]`, with fitness `Fitnesses[k]`. */
    ghost predicate Valid()
      reads this`genePool, this`size, this`Words, this`Fitnesses, this`Genes, this`Storage, this`slot, Genes, Storage
    {
      size == |genePool| && |Words| == |genePool| && |Fitnesses| == |genePool| &&
      forall k :: 0 <= k < |genePool| ==>
        genePool[k] in Genes && genePool[k].bits.bits in Storage &&
        genePool[k].bits.size == geneLen && genePool[k].bits.Valid() &&
        genePool[k].bits.bits in slot && slot[genePool[k].bits.bits] == k &&
        genePool[k].bits.bits[..] == Words[k] && genePool[k].fitness == Fitnesses[k]
    }

    /** The lengths `initialize` derives from the masks: `inLen`, `outLen` and `geneLen = 2**inLen * outLen`. */
    predicate Layout()
    {
      inLen == Sum(inMask) && outLen == Sum(outMask) && geneLen == Pow2(inLen) * outLen
    }

    /** Every gene holds `ceil(geneLen / 64)` words, each below `2**64`. */
    lemma WordsShape()
      requires Valid()
      ensures forall k :: 0 <= k < |Words| ==> |Words[k]| == NumWordsFor(geneLen) && WordsBelow(Words[k])
    {
      forall k | 0 <= k < |Words|
        ensures |Words[k]| == NumWordsFor(geneLen) && WordsBelow(Words[k])
      {
        assert genePool[k].bits.Valid();
      }
    }

    /**
     * `GenePool.new(inMask, outMask, size, randomize)`: `size` genes of
     * `2**inLen * outLen` bits with fitness 0; with `randomize`, word j of
     * gene i is the draw `draw(i, j)` standing for `rand(wordMax)`.
     */
    constructor(inMask: seq<nat>, outMask: seq<nat>, size: nat, randomize: bool, draw: (nat, nat) -> nat)
      requires forall i, j :: draw(i, j) < WordMax
      ensures Valid() && this.inMask == inMask && this.outMask == outMask && |genePool| == size
      ensures Layout()
      ensures bestGene == 0 && bestFitness == 0
      ensures fresh(Genes) && fresh(Storage)
      ensures Fitnesses == seq(size, _ => 0)
      ensures forall k :: 0 <= k < size ==> |Words[k]| == NumWordsFor(geneLen)
      ensures forall k, j :: 0 <= k < size && 0 <= j < NumWordsFor(geneLen) ==>
        Words[k][j] == if randomize then draw(k, j) else 0
    {
      var len := Pow2(Sum(inMask)) * Sum(outMask);
      var pool: seq<Gene> := [];
      ghost var words: seq<seq<nat>> := [];
      ghost var genes: set<Gene>, storage: set<array<nat>> := {}, {};
      ghost var slots: map<array<nat>, nat> := map[];
      var i := 0;
      while i < size
        invariant 0 <= i <= size && |pool| == i && |words| == i
        invariant fresh(genes) && fresh(storage)
        invariant forall k :: 0 <= k < i ==>
          pool[k] in genes && pool[k].bits.bits in storage &&
          pool[k].bits.size == len && pool[k].bits.Valid() &&
          pool[k].bits.bits in slots && slots[pool[k].bits.bits] == k &&
          pool[k].bits.bits[..] == words[k] && pool[k].fitness == 0
        invariant forall k, j :: 0 <= k < i && 0 <= j < NumWordsFor(len) ==>
          words[k][j] == if randomize then draw(k, j) else 0
      {
        var g := new Gene(len);
        if randomize {
          Randomize(g.bits, i, draw);
        }
        genes, storage := genes + {g}, storage + {g.bits.bits};
        slots := slots[g.bits.bits := i];
        pool := pool + [g];
        words := words + [g.bits.bits[..]];
        i := i + 1;
      }
      this.inMask := inMask;
      this.outMask := outMask;
      this.size := size;
      inLen := Sum(inMask);
      outLen := Sum(outMask);
      geneLen := len;
      bestGene := 0;
      bestFitness := 0;
      genePool := pool;
      Words, Fitnesses := words, seq(size, _ => 0);
      Genes, Storage, slot := genes, storage, slots;
    }

    /** The word loop of the constructor: word j of gene i becomes the draw `draw(i, j)`. */
    static method Randomize(gene: Bits, i: nat, draw: (nat, nat) -> nat)
      requires gene.Valid() && forall i, j :: draw(i, j) < WordMax
      modifies gene.bits
      ensures gene.Valid() && forall l :: 0 <= l < gene.bits.Length ==> gene.bits[l] == draw(i, l)
    {
      var j := 0;
      while j < gene.NumWords()
        invariant 0 <= j <= gene.bits.Length && gene.Valid()
        invariant forall l :: 0 <= l < j ==> gene.bits[l] == draw(i, l)
      {
        gene.SetWord(j, draw(i, j));
        j := j + 1;
      }
    }

    /** `clear`: no genes left; the recorded best is kept. */
    method Clear()
      modifies this
      ensures Valid() && genePool == [] && Words == [] && Fitnesses == [] && size == 0
      ensures bestGene == old(bestGene) && bestFitness == old(bestFitness)
      ensures Genes == {} && Storage == {}
    {
      genePool, Words, Fitnesses := [], [], [];
      Genes, Storage, slot := {}, {}, map[];
      size := 0;
    }

    /** `add(geneBits)`: a new gene with geneBits' words and fitness appended. */
    method Add(geneBits: Gene)
      requires Valid() && geneBits.bits.Valid() && NumWordsFor(geneLen) <= geneBits.bits.bits.Length
      modifies this
      ensures Valid() && |genePool| == old(|genePool|) + 1 && genePool[..old(|genePool|)] == old(genePool)
      ensures bestGene == old(bestGene) && bestFitness == old(bestFitness)
      ensures Words == old(Words) + [old(geneBits.bits.bits[..NumWordsFor(geneLen)])]
      ensures Fitnesses == old(Fitnesses) + [old(geneBits.fitness)]
      ensures fresh(Genes - old(Genes)) && fresh(Storage - old(Storage))
    {
      var g := CopyOf(geneLen, geneBits);
      Genes, Storage, slot := Genes + {g}, Storage + {g.bits.bits}, slot[g.bits.bits := |genePool|];
      genePool, Words, Fitnesses, size := genePool + [g], Words + [g.bits.bits[..]], Fitnesses + [g.fitness], size + 1;
    }

    /** The gene `add` appends: `Gene.new(len)`, duplicating geneBits and taking its fitness. */
    static method CopyOf(len: nat, geneBits: Gene) returns (g: Gene)
      requires geneBits.bits.Valid() && NumWordsFor(len) <= geneBits.bits.bits.Length
      ensures fresh(g) && fresh(g.bits) && fresh(g.bits.bits) && g.bits.Valid() && g.bits.size == len
      ensures g.bits.bits[..] == geneBits.bits.bits[..NumWordsFor(len)] && g.fitness == geneBits.fitness
    {
      g := new Gene(len);
      g.bits.Duplicate(geneBits.bits);
      g.fitness := geneBits.fitness;
    }

    /** n passes of `matingPool.add(gene)`: n copies of gene appended. */
    method AddCopies(gene: Gene, n: nat)
      requires Valid() && gene.bits.Valid() && NumWordsFor(geneLen) <= gene.bits.bits.Length
      modifies this
      ensures Valid() && bestGene == old(bestGene) && bestFitness == old(bestFitness)
      ensures var w := old(gene.bits.bits[..NumWordsFor(geneLen)]); Words == old(Words) + seq(n, _ => w)
      ensures var f := old(gene.fitness); Fitnesses == old(Fitnesses) + seq(n, _ => f)
      ensures fresh(Genes - old(Genes)) && fresh(Storage - old(Storage))
    {
      ghost var w, f := gene.bits.bits[..NumWordsFor(geneLen)], gene.fitness;
      var c := 0;
      while c < n
        invariant c <= n && Valid() && bestGene == old(bestGene) && bestFitness == old(bestFitness)
        invariant Words == old(Words) + seq(c, _ => w)
        invariant Fitnesses == old(Fitnesses) + seq(c, _ => f)
        invariant fresh(Genes - old(Genes)) && fresh(Storage - old(Storage))
      {
        Add(gene);
        assert seq(c + 1, _ => w) == seq(c, _ => w) + [w];
        assert seq(c + 1, _ => f) == seq(c, _ => f) + [f];
        c := c + 1;
      }
    }

    /** The word loop of `crossover`: the words below w change places. */
    static method SwapWords(geneA: Bits, geneB: Bits, w: nat)
      requires geneA.Valid() && geneB.Valid() && geneA.bits != geneB.bits
      requires w <= geneA.bits.Length && w <= geneB.bits.Length
      modifies geneA.bits, geneB.bits
      ensures geneA.Valid() && geneB.Valid()
      ensures geneA.bits[..] == old(geneB.bits[..w]) + old(geneA.bits[w..])
      ensures geneB.bits[..] == old(geneA.bits[..w]) + old(geneB.bits[w..])
    {
      var i := 0;
      while i < w
        invariant i <= w && geneA.Valid() && geneB.Valid()
        invariant forall k :: 0 <= k < i ==> geneA.bits[k] == old(geneB.bits[k]) && geneB.bits[k] == old(geneA.bits[k])
        invariant forall k :: i <= k < geneA.bits.Length ==> geneA.bits[k] == old(geneA.bits[k])
        invariant forall k :: i <= k < geneB.bits.Length ==> geneB.bits[k] == old(geneB.bits[k])
      {
        SwapWord(geneA, geneB, i);
        i := i + 1;
      }
    }

    /** One pass of the `swap` loop: word i of the two genes trades places. */
    static method SwapWord(geneA: Bits, geneB: Bits, i: nat)
      requires geneA.Valid() && geneB.Valid() && geneA.bits != geneB.bits
      requires i < geneA.bits.Length && i < geneB.bits.Length
      modifies geneA.bits, geneB.bits
      ensures geneA.Valid() && geneB.Valid()
      ensures geneA.bits[..] == old(geneA.bits[..])[i := old(geneB.bits[i])]
      ensures geneB.bits[..] == old(geneB.bits[..])[i := old(geneA.bits[i])]
    {
      var wtemp := geneA.GetWord(i);
      geneA.SetWord(i, geneB.GetWord(i));
      geneB.SetWord(i, wtemp);
    }

    /** `crossover(geneA, geneB, index)` */
    static method Crossover(geneA: Bits, geneB: Bits, index: nat)
      requires geneA.Valid() && geneB.Valid() && geneA.bits != geneB.bits
      requires index / WordBits < geneA.bits.Length && index / WordBits < geneB.bits.Length
      modifies geneA.bits, geneB.bits
      ensures geneA.Valid() && geneB.Valid()
      ensures (geneA.bits[..], geneB.bits[..]) == Crossed(old(geneA.bits[..]), old(geneB.bits[..]), index)
    {
      ghost var a0, b0 := geneA.bits[..], geneB.bits[..];
      var temp := new Bits(geneA.size);
      temp.Duplicate(geneA);
      var w := index / WordBits;
      SwapWords(geneA, geneB, w);
      ghost var a1, b1 := geneA.bits[..], geneB.bits[..];
      var start := w * WordBits;
      var numBits := index - start;
      assert start / WordBits == w && start % WordBits == 0;
      var fieldB := geneB.Get(start, numBits);
      assert fieldB == GetField(b0[w], 0, numBits);
      geneA.Set(start, numBits, fieldB);
      var fieldA := temp.Get(start, numBits);
      assert fieldA == GetField(a0[w], 0, numBits);
      geneB.Set(start, numBits, fieldA);
      assert geneA.bits[..] == a1[w := CrossWord(a0[w], b0[w], numBits)];
      assert geneB.bits[..] == b1[w := CrossWord(b0[w], a0[w], numBits)];
    }

    /** `cross(geneAID, geneBID, index)`: crossover of two genes of the pool by id. */
    method Cross(geneAID: nat, geneBID: nat, index: nat)
      requires Valid() && geneAID < |genePool| && geneBID < |genePool| && geneAID != geneBID
      requires index / WordBits < NumWordsFor(geneLen)
      modifies this, genePool[geneAID].bits.bits, genePool[geneBID].bits.bits
      ensures Valid() && genePool == old(genePool) && Fitnesses == old(Fitnesses)
      ensures bestGene == old(bestGene) && bestFitness == old(bestFitness)
      ensures var crossed := Crossed(old(Words[geneAID]), old(Words[geneBID]), index);
        Words == old(Words)[geneAID := crossed.0][geneBID := crossed.1]
    {
      var a, b := genePool[geneAID].bits, genePool[geneBID].bits;
      Crossover(a, b, index);
      Words := Words[geneAID := a.bits[..]][geneBID := b.bits[..]];
    }

    /** `mutate(gene, rate)`: bit i is flipped when the draw `flips[i]` (standing for `rand < rate`) holds. */
    static method Mutate(gene: Bits, flips: seq<bool>)
      requires gene.Valid() && |flips| == gene.size
      modifies gene.bits
      ensures gene.Valid() && gene.bits[..] == Mutated(old(gene.bits[..]), flips)
    {
      var i := 0;
      while i < gene.size
        invariant i <= gene.size && gene.Valid()
        invariant gene.bits[..] == Mutated(old(gene.bits[..]), flips[..i])
      {
        if flips[i] {
          gene.Flip(i);
        }
        i := i + 1;
        assert flips[..i][..i - 1] == flips[..i - 1];
      }
      assert flips[..i] == flips;
    }

    /** `set(geneID, index, value)` */
    method Set(geneID: nat, index: nat, value: nat)
      requires Valid() && geneID < |genePool| && index / WordBits < NumWordsFor(geneLen)
      modifies this, genePool[geneID].bits.bits
      ensures Valid() && genePool == old(genePool) && Fitnesses == old(Fitnesses) && Storage == old(Storage)
      ensures bestGene == old(bestGene) && bestFitness == old(bestFitness)
      ensures Words == old(Words)[geneID := WithBit(old(Words[geneID]), index, value)]
    {
      var a := genePool[geneID];
      a.bits.SetAt(index, value);
      Words := Words[geneID := a.bits.bits[..]];
    }

    /** `get(geneID, index)` */
    function Get(geneID: nat, index: nat): (b: nat)
      reads this`genePool, this`size, this`Words, this`Fitnesses, this`Genes, this`Storage, this`slot, Genes, Storage
      requires Valid() && geneID < |genePool| && index / WordBits < NumWordsFor(geneLen)
      ensures b == BitAt(Words[geneID], index)
    {
      genePool[geneID].bits.At(index)
    }

    /** `setMult(geneID, index, numBits, value)` */
    method SetMult(geneID: nat, index: nat, numBits: nat, value: nat)
      requires Valid() && geneID < |genePool| && index / WordBits < NumWordsFor(geneLen)
      requires index % WordBits + numBits <= WordBits && value < Pow2(numBits)
      modifies this, genePool[geneID].bits.bits
      ensures Valid() && genePool == old(genePool) && Fitnesses == old(Fitnesses)
      ensures bestGene == old(bestGene) && bestFitness == old(bestFitness)
      ensures Words == old(Words)[geneID := WithField(old(Words[geneID]), index, numBits, value)]
    {
      var a := genePool[geneID];
      a.bits.Set(index, numBits, value);
      Words := Words[geneID := a.bits.bits[..]];
    }

    /** `getMult(geneID, index, numBits)` */
    function GetMult(geneID: nat, index: nat, numBits: nat): (v: nat)
      reads this`genePool, this`size, this`Words, this`Fitnesses, this`Genes, this`Storage, this`slot, Genes, Storage
      requires Valid() && geneID < |genePool| && index / WordBits < NumWordsFor(geneLen)
      ensures v == FieldAt(Words[geneID], index, numBits) && v < Pow2(numBits)
    {
      genePool[geneID].bits.Get(index, numBits)
    }

    /** `calcIndex(inFields)` */
    method CalcIndex(inFields: seq<nat>) returns (index: nat)
      requires |inMask| <= |inFields|
      ensures index == Index(inMask, inFields)
    {
      index := 0;
      var field := 0;
      var i := 0;
      while i < |inMask|
        invariant i <= |inMask| && index == Index(inMask[..i], inFields) && field == Sum(inMask[..i])
      {
        index := index + Shl(inFields[i], field);
        field := field + inMask[i];
        i := i + 1;
        assert inMask[..i][..i - 1] == inMask[..i - 1];
      }
      assert inMask[..i] == inMask;
    }

    /** `result(geneID, inFields)`: the single bit of the gene at `calcIndex(inFields)`. */
    method Result(geneID: nat, inFields: seq<nat>) returns (b: nat)
      requires Valid() && geneID < |genePool| && |inMask| <= |inFields|
      requires Index(inMask, inFields) / WordBits < NumWordsFor(geneLen)
      ensures b == BitAt(Words[geneID], Index(inMask, inFields))
    {
      var index := CalcIndex(inFields);
      b := Get(geneID, index);
    }

    /**
     * `fitness(game)`, with `scores[i]` the evaluator's score of gene i: each
     * score is stored, the sum is returned and the first best is recorded.
     */
    method Fitness(scores: seq<nat>) returns (totalFitness: nat)
      requires Valid() && |scores| == |genePool|
      modifies this, Genes
      ensures Valid() && genePool == old(genePool) && Words == old(Words)
      ensures Fitnesses == scores
      ensures totalFitness == Sum(scores)
      ensures (bestGene, bestFitness) == Best(scores)
    {
      assert forall i, j :: 0 <= i < j < |genePool| ==> genePool[i] != genePool[j] by {
        forall i, j | 0 <= i < j < |genePool|
          ensures genePool[i] != genePool[j]
        {
          assert slot[genePool[i].bits.bits] != slot[genePool[j].bits.bits];
        }
      }
      var best, bestFit;
      totalFitness, best, bestFit := Score(genePool, Genes, scores);
      bestGene, bestFitness, Fitnesses := best, bestFit, scores;
    }

    /** The loop of `fitness`: gene i gets the score `scores[i]`, in id order, keeping the sum and the first best. */
    static method Score(pool: seq<Gene>, ghost genes: set<Gene>, scores: seq<nat>) returns (total: nat, best: nat, bestFit: nat)
      requires |scores| == |pool| && forall k :: 0 <= k < |pool| ==> pool[k] in genes
      requires forall i, j :: 0 <= i < j < |pool| ==> pool[i] != pool[j]
      modifies genes
      ensures forall k :: 0 <= k < |pool| ==> pool[k].fitness == scores[k]
      ensures total == Sum(scores) && (best, bestFit) == Best(scores)
    {
      total, best, bestFit := 0, 0, 0;
      var geneID := 0;
      while geneID < |pool|
        invariant geneID <= |pool|
        invariant forall k :: 0 <= k < geneID ==> pool[k].fitness == scores[k]
        invariant total == Sum(scores[..geneID])
        invariant (best, bestFit) == Best(scores[..geneID])
      {
        var fitness := scores[geneID];
        pool[geneID].fitness := fitness;
        if fitness > bestFit {
          best := geneID;
          bestFit := fitness;
        }
        total := total + pool[geneID].fitness;
        geneID := geneID + 1;
        assert scores[..geneID][..geneID - 1] == scores[..geneID - 1];
      }
      assert scores[..geneID] == scores;
    }

    /**
     * `selection(matingPool, totalFitness)`: the mating pool becomes the
     * best gene followed by the roulette wheel, `floor(f_i * size / total)`
     * copies of each gene i in id order; each entry carries the words and
     * the fitness of the gene it copies.
     */
    method Selection(matingPool: GenePool, totalFitness: nat)
      requires Valid() && matingPool.Valid() && matingPool != this
      requires totalFitness > 0 && bestGene < |genePool|
      requires NumWordsFor(matingPool.geneLen) <= NumWordsFor(geneLen)
      modifies matingPool
      ensures matingPool.Valid()
      ensures var ids := [bestGene] + Wheel(Fitnesses, totalFitness, |genePool|);
        matingPool.Words == Copies(Words, ids, NumWordsFor(matingPool.geneLen)) &&
        matingPool.Fitnesses == Picks(Fitnesses, ids)
      ensures Genes !! matingPool.Genes && Storage !! matingPool.Storage
    {
      Elite(matingPool);
      Roulette(matingPool, totalFitness);
      ghost var wheel := Wheel(Fitnesses, totalFitness, |genePool|);
      CopiesConcat(Words, [bestGene], wheel, NumWordsFor(matingPool.geneLen));
      PicksConcat(Fitnesses, [bestGene], wheel);
    }

    /** The start of `selection`: the mating pool is cleared and receives a copy of the best gene. */
    method Elite(matingPool: GenePool)
      requires Valid() && matingPool.Valid() && matingPool != this && bestGene < |genePool|
      requires NumWordsFor(matingPool.geneLen) <= NumWordsFor(geneLen)
      modifies matingPool
      ensures matingPool.Valid()
      ensures matingPool.Words == Copies(Words, [bestGene], NumWordsFor(matingPool.geneLen))
      ensures matingPool.Fitnesses == Picks(Fitnesses, [bestGene])
      ensures Genes !! matingPool.Genes && Storage !! matingPool.Storage
    {
      WordsShape();
      matingPool.Clear();
      matingPool.Add(genePool[bestGene]);
    }

    /** The wheel loop of `selection`: gene after gene in id order, its share of copies is appended. */
    method Roulette(matingPool: GenePool, totalFitness: nat)
      requires Valid() && matingPool.Valid() && matingPool != this && totalFitness > 0
      requires NumWordsFor(matingPool.geneLen) <= NumWordsFor(geneLen)
      requires Genes !! matingPool.Genes && Storage !! matingPool.Storage
      modifies matingPool
      ensures matingPool.Valid()
      ensures var wheel := Wheel(Fitnesses, totalFitness, |genePool|);
        matingPool.Words == old(matingPool.Words) + Copies(Words, wheel, NumWordsFor(matingPool.geneLen)) &&
        matingPool.Fitnesses == old(matingPool.Fitnesses) + Picks(Fitnesses, wheel)
      ensures Genes !! matingPool.Genes && Storage !! matingPool.Storage
    {
      ghost var m := NumWordsFor(matingPool.geneLen);
      ghost var wheel: seq<nat> := [];
      var geneID: nat := 0;
      while geneID < |genePool|
        invariant geneID <= |genePool| && matingPool.Valid()
        invariant wheel == WheelTo(Fitnesses, totalFitness, |genePool|, geneID)
        invariant matingPool.Words == old(matingPool.Words) + Copies(Words, wheel, m)
        invariant matingPool.Fitnesses == old(matingPool.Fitnesses) + Picks(Fitnesses, wheel)
        invariant Genes !! matingPool.Genes && Storage !! matingPool.Storage
      {
        Spin(matingPool, totalFitness, geneID, old(matingPool.Words), old(matingPool.Fitnesses), wheel);
        wheel := WheelTo(Fitnesses, totalFitness, |genePool|, geneID + 1);
        geneID := geneID + 1;
      }
      WheelToPrefix(Fitnesses, totalFitness, |genePool|, geneID);
      assert Fitnesses[..geneID] == Fitnesses;
    }

    /**
     * One pass of the wheel loop: `(fitness / total * size).to_i` copies of
     * gene geneID are added after the copies already made for the ids in
     * wheel.
     */
    method Spin(matingPool: GenePool, totalFitness: nat, geneID: nat,
                ghost words: seq<seq<nat>>, ghost fits: seq<nat>, ghost wheel: seq<nat>)
      requires Valid() && matingPool.Valid() && matingPool != this && totalFitness > 0 && geneID < |genePool|
      requires NumWordsFor(matingPool.geneLen) <= NumWordsFor(geneLen)
      requires wheel == WheelTo(Fitnesses, totalFitness, |genePool|, geneID)
      requires matingPool.Words == words + Copies(Words, wheel, NumWordsFor(matingPool.geneLen))
      requires matingPool.Fitnesses == fits + Picks(Fitnesses, wheel)
      requires Genes !! matingPool.Genes && Storage !! matingPool.Storage
      modifies matingPool
      ensures matingPool.Valid()
      ensures var next := WheelTo(Fitnesses, totalFitness, |genePool|, geneID + 1);
        matingPool.Words == words + Copies(Words, next, NumWordsFor(matingPool.geneLen)) &&
        matingPool.Fitnesses == fits + Picks(Fitnesses, next)
      ensures Genes !! matingPool.Genes && Storage !! matingPool.Storage
    {
      WordsShape();
      var n := Share(genePool[geneID].fitness, totalFitness, |genePool|);
      ghost var m := NumWordsFor(matingPool.geneLen);
      ghost var ids := seq(n, _ => geneID);
      matingPool.AddCopies(genePool[geneID], n);
      CopiesRepeat(Words, m, geneID, n);
      PicksRepeat(Fitnesses, geneID, n);
      CopiesConcat(Words, wheel, ids, m);
      PicksConcat(Fitnesses, wheel, ids);
    }

    /**
     * The body of the `reproduction` loop up to the copy into the slot: mom
     * takes the words of momSrc, is crossed with dad (holding the words of
     * dadSrc) when the draw says so, and is mutated.
     */
    static method Breed(d: Draw, mom: Bits, dad: Bits, momSrc: Bits, dadSrc: Bits)
      requires mom.Valid() && dad.Valid() && momSrc.Valid() && dadSrc.Valid() && mom.bits != dad.bits
      requires {mom.bits, dad.bits} !! {momSrc.bits, dadSrc.bits}
      requires mom.size == dad.size && d.point < mom.size && |d.flips| == mom.size
      requires mom.bits.Length <= momSrc.bits.Length && dad.bits.Length <= dadSrc.bits.Length
      modifies mom.bits, dad.bits
      ensures mom.Valid() && dad.Valid()
      ensures mom.bits[..] == Child(old(momSrc.bits[..mom.bits.Length]), old(dadSrc.bits[..dad.bits.Length]), d)
    {
      mom.Duplicate(momSrc);
      if d.cross {
        dad.Duplicate(dadSrc);
        var index := d.point;
        Crossover(mom, dad, index);
      }
      Mutate(mom, d.flips);
    }

    /**
     * `reproduction(matingPool, mutationRate, crossoverRate)`, with
     * `draws[i]` standing for the random choices made for slot i: every slot
     * but 0 receives the offspring of its draw, slot 0 the elite's words.
     */
    method Reproduction(matingPool: GenePool, draws: seq<Draw>)
      requires Valid() && matingPool.Valid() && matingPool != this && |genePool| >= 2 && |draws| == |genePool|
      requires |matingPool.genePool| >= 1 && NumWordsFor(geneLen) <= NumWordsFor(matingPool.geneLen)
      requires forall k :: 0 <= k < |draws| ==> DrawFits(draws[k], |matingPool.genePool|, geneLen)
      requires Storage !! matingPool.Storage
      modifies this, Storage
      ensures Valid() && genePool == old(genePool) && Fitnesses == old(Fitnesses)
      ensures bestGene == old(bestGene) && bestFitness == old(bestFitness)
      ensures |Words| == old(|Words|) && Words[0] == old(matingPool.Words[0][..NumWordsFor(geneLen)])
      ensures forall k :: 1 <= k < |genePool| ==> Words[k] == Offspring(old(matingPool.Words), draws[k], geneLen)
    {
      Generation(matingPool, draws);
      Restore(matingPool);
    }

    /** The end of `reproduction`: gene 0 receives the words of mating-pool entry 0. */
    method Restore(matingPool: GenePool)
      requires Valid() && matingPool.Valid() && |genePool| >= 1 && |matingPool.genePool| >= 1
      requires NumWordsFor(geneLen) <= NumWordsFor(matingPool.geneLen) && Storage !! matingPool.Storage
      modifies this, genePool[0].bits.bits
      ensures Valid() && genePool == old(genePool) && Fitnesses == old(Fitnesses) && Storage == old(Storage)
      ensures bestGene == old(bestGene) && bestFitness == old(bestFitness)
      ensures Words == old(Words)[0 := old(matingPool.Words[0][..NumWordsFor(geneLen)])]
    {
      Store(0, matingPool.genePool[0].bits);
    }

    /**
     * `reproduction` up to the elite: two scratch genes mom and dad are made
     * and every slot receives the offspring of its draw.
     */
    method Generation(matingPool: GenePool, draws: seq<Draw>)
      requires Valid() && matingPool.Valid() && matingPool != this && |genePool| >= 2 && |draws| == |genePool|
      requires NumWordsFor(geneLen) <= NumWordsFor(matingPool.geneLen)
      requires forall k :: 0 <= k < |draws| ==> DrawFits(draws[k], |matingPool.genePool|, geneLen)
      requires Storage !! matingPool.Storage
      modifies this, Storage
      ensures Valid() && genePool == old(genePool) && Fitnesses == old(Fitnesses) && Storage == old(Storage)
      ensures bestGene == old(bestGene) && bestFitness == old(bestFitness)
      ensures matingPool.Valid() && matingPool.Words == old(matingPool.Words)
      ensures |Words| == old(|Words|)
      ensures forall k :: 0 <= k < |genePool| ==> Words[k] == Offspring(old(matingPool.Words), draws[k], geneLen)
    {
      var mom := new Gene(genePool[1].bits.size);
      var dad := new Gene(genePool[1].bits.size);
      var geneID := 0;
      while geneID < |genePool|
        invariant geneID <= |genePool| && Valid() && genePool == old(genePool) && Fitnesses == old(Fitnesses)
        invariant bestGene == old(bestGene) && bestFitness == old(bestFitness) && Storage == old(Storage)
        invariant mom.bits.Valid() && dad.bits.Valid() && mom.bits.size == geneLen && dad.bits.size == geneLen
        invariant matingPool.Valid() && matingPool.Words == old(matingPool.Words)
        invariant forall k :: 0 <= k < geneID ==> Words[k] == Offspring(old(matingPool.Words), draws[k], geneLen)
      {
        Renew(geneID, matingPool, draws[geneID], mom.bits, dad.bits);
        geneID := geneID + 1;
      }
    }

    /** One pass of the `reproduction` loop: slot geneID receives the offspring of draw d, bred in mom. */
    method Renew(geneID: nat, matingPool: GenePool, d: Draw, mom: Bits, dad: Bits)
      requires Valid() && geneID < |genePool| && matingPool.Valid() && matingPool != this
      requires mom.Valid() && dad.Valid() && mom.bits != dad.bits
      requires mom.size == geneLen && dad.size == geneLen && NumWordsFor(geneLen) <= NumWordsFor(matingPool.geneLen)
      requires DrawFits(d, |matingPool.genePool|, geneLen)
      requires {mom.bits, dad.bits} !! Storage + matingPool.Storage && Storage !! matingPool.Storage
      modifies this, mom.bits, dad.bits, genePool[geneID].bits.bits
      ensures Valid() && genePool == old(genePool) && Fitnesses == old(Fitnesses) && Storage == old(Storage)
      ensures bestGene == old(bestGene) && bestFitness == old(bestFitness)
      ensures matingPool.Valid() && matingPool.Words == old(matingPool.Words) && mom.Valid() && dad.Valid()
      ensures Words == old(Words)[geneID := Offspring(old(matingPool.Words), d, geneLen)]
    {
      matingPool.WordsShape();
      Breed(d, mom, dad, matingPool.genePool[d.mom].bits, matingPool.genePool[d.dad].bits);
      assert mom.bits[..NumWordsFor(geneLen)] == mom.bits[..];
      Store(geneID, mom);
    }

    /** `@genePool[geneID].duplicate(from)`: the words of gene geneID become the first words of from. */
    method Store(geneID: nat, from: Bits)
      requires Valid() && geneID < |genePool| && from.Valid() && NumWordsFor(geneLen) <= from.bits.Length
      requires from.bits !in Storage
      modifies this, genePool[geneID].bits.bits
      ensures Valid() && genePool == old(genePool) && Fitnesses == old(Fitnesses) && Storage == old(Storage)
      ensures bestGene == old(bestGene) && bestFitness == old(bestFitness)
      ensures Words == old(Words)[geneID := old(from.bits[..NumWordsFor(geneLen)])]
      ensures from.bits[..] == old(from.bits[..])
    {
      var target := genePool[geneID].bits;
      target.Duplicate(from);
      Words := Words[geneID := target.bits[..]];
    }

    /** `self[to].duplicate(self[from])`: gene `to` receives the words of gene `from`. */
    method CopyGene(to: nat, from: nat)
      requires Valid() && to < |genePool| && from < |genePool| && to != from
      modifies this, genePool[to].bits.bits
      ensures Valid() && genePool == old(genePool) && Fitnesses == old(Fitnesses) && Storage == old(Storage)
      ensures bestGene == old(bestGene) && bestFitness == old(bestFitness)
      ensures Words == old(Words)[to := old(Words[from])]
    {
      var target, source := genePool[to].bits, genePool[from].bits;
      assert target.bits != source.bits by {
        assert slot[target.bits] == to && slot[source.bits] == from;
      }
      assert source.bits[..target.bits.Length] == Words[from];
      target.Duplicate(source);
      Words := Words[to := target.bits[..]];
    }

    /**
     * `bestFit` in the state `fitness` leaves: the first gene with the
     * largest fitness (gene 0 when every fitness is 0).
     */
    function BestFit(): (id: nat)
      reads this`genePool, this`size, this`Words, this`Fitnesses, this`Genes, this`Storage, this`slot, Genes, Storage
      reads this`bestGene, this`bestFitness
      requires Valid() && (bestGene, bestFitness) == Best(Fitnesses)
      ensures |genePool| == 0 ==> id == 0
      ensures |genePool| > 0 ==>
        id < |genePool| == |Fitnesses| &&
        (forall k :: 0 <= k < |Fitnesses| ==> Fitnesses[k] <= Fitnesses[id]) &&
        (forall k :: 0 <= k < id ==> Fitnesses[k] < Fitnesses[id])
    {
      BestIsFirstMax(Fitnesses);
      bestGene
    }
  }
}
