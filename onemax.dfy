/**
 * The one-max evaluator of onemax.rb: a gene scores the number of its bits
 * that are 1.
 */
module OneMax {
  import opened Words
  import opened BitVectors
  import opened Genes

  /** The number of 1 bits among bits 0 .. n - 1 of the words. */
  function Ones(ws: seq<nat>, n: nat): (c: nat)
    requires n <= |ws| * WordBits
    ensures c <= n
  {
    if n == 0 then 0 else Ones(ws, n - 1) + BitAt(ws, n - 1)
  }

  /** The score is n exactly when all n bits are 1. */
  lemma {:induction false} OnesAll(ws: seq<nat>, n: nat)
    requires n <= |ws| * WordBits
    ensures Ones(ws, n) == n <==> forall i :: 0 <= i < n ==> BitAt(ws, i) == 1
  {
    if n > 0 {
      OnesAll(ws, n - 1);
      if Ones(ws, n) == n {
        assert BitAt(ws, n - 1) == 1;
      }
    }
  }

  /** The score is 0 exactly when all n bits are 0. */
  lemma {:induction false} OnesNone(ws: seq<nat>, n: nat)
    requires n <= |ws| * WordBits
    ensures Ones(ws, n) == 0 <==> forall i :: 0 <= i < n ==> BitAt(ws, i) == 0
  {
    if n > 0 {
      OnesNone(ws, n - 1);
    }
  }

  /** With `inFields [8]` and `outField [1]` a gene has 256 bits, the score at which the driver stops. */
  lemma OneMaxLength()
    ensures Pow2(Sum([8])) * Sum([1]) == 256
  {
    var eight: seq<nat> := [8];
    var one: seq<nat> := [1];
    assert eight[..0] == [] && one[..0] == [];
    assert Sum(eight) == 8 && Sum(one) == 1;
    Pow2Byte(8);
  }

  /** `Game` of onemax.rb: the pool's genes are scored one at a time. */
  class Game {
    const pool: GenePool

    /** `Game.new(genePool)` */
    constructor(genePool: GenePool)
      ensures pool == genePool
    {
      pool := genePool;
    }

    /**
     * `fitness(geneID)`: `get(geneID, i)` summed over every bit index of the
     * gene.  Nothing is written.
     */
    method Fitness(geneID: nat) returns (geneScore: nat)
      requires pool.Valid() && geneID < |pool.genePool|
      ensures pool.geneLen <= |pool.Words[geneID]| * WordBits
      ensures geneScore == Ones(pool.Words[geneID], pool.geneLen) && geneScore <= pool.geneLen
    {
      pool.WordsShape();
      var gene := pool.genePool[geneID].bits;
      assert gene.size == pool.geneLen;
      geneScore := 0;
      var i := 0;
      while i < gene.size
        invariant i <= gene.size && geneScore == Ones(pool.Words[geneID], i)
      {
        geneScore := geneScore + pool.Get(geneID, i);
        i := i + 1;
      }
    }
  }
}
