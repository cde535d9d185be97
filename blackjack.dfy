/**
 * The blackjack evaluator of blackj.rb: cards, a deck with a cursor, hands
 * scored with at most one ace counted as 11, and a game in which the gene
 * under evaluation decides the player's draws from the lookup
 * `result(geneID, [aces, score, showing])`.
 *
 * Every `shuffle!` is an explicit oracle: the n-th shuffle leaves the deck
 * in the order `orders(n)`, any arrangement of the 52 cards.
 */
module Blackjack {
  import opened Words
  import opened BitVectors
  import opened Genes

  // ---------------------------------------------------------------------
  // Cards and the deck

  /** `Card.new(suit, rank)`: suit 0..3, rank 0 (ace) to 12 (king). */
  datatype Card = Card(suit: nat, rank: nat)

  const DeckSize: nat := 52

  /** The cards `Deck#initialize` appends: suit by suit, rank by rank within a suit. */
  function FullDeck(): (d: seq<Card>)
    ensures |d| == DeckSize
  {
    seq(DeckSize, i requires 0 <= i => Card(i / 13, i % 13))
  }

  lemma DivMod13(s: nat, r: nat)
    requires r < 13
    ensures (s * 13 + r) / 13 == s && (s * 13 + r) % 13 == r
  {
  }

  /** A fresh deck holds exactly the cards of suit 0..3 and rank 0..12. */
  lemma FullDeckCards(c: Card)
    ensures c in FullDeck() <==> c.suit < 4 && c.rank < 13
  {
    if c.suit < 4 && c.rank < 13 {
      var i := c.suit * 13 + c.rank;
      DivMod13(c.suit, c.rank);
      assert FullDeck()[i] == c;
    }
  }

  /** ... and each of them once. */
  lemma FullDeckDistinct(i: nat, j: nat)
    requires i < j < DeckSize
    ensures FullDeck()[i] != FullDeck()[j]
  {
    assert i == i / 13 * 13 + i % 13 && j == j / 13 * 13 + j % 13;
  }

  /** What a deck is at one moment: its cards in order, the cursor and the shuffle count. */
  datatype DeckState = DeckState(cards: seq<Card>, top: int, shuffles: nat)

  /** The state one `next` leaves: the cursor moves down, or past 0 the next order is dealt from 51. */
  function Step(orders: nat -> seq<Card>, s: DeckState): DeckState
  {
    if s.top - 1 < 0 then DeckState(orders(s.shuffles), DeckSize - 1, s.shuffles + 1)
    else DeckState(s.cards, s.top - 1, s.shuffles)
  }

  /** The card under the cursor, which `next` returns in the state it leaves. */
  function Top(s: DeckState): Card
  {
    if 0 <= s.top < |s.cards| then s.cards[s.top] else Card(0, 0)
  }

  /** The state after n calls of `next`. */
  function After(orders: nat -> seq<Card>, s: DeckState, n: nat): DeckState
  {
    if n == 0 then s else Step(orders, After(orders, s, n - 1))
  }

  /** The n cards that n calls of `next` return, in the order they are drawn. */
  function Dealt(orders: nat -> seq<Card>, s: DeckState, n: nat): (cs: seq<Card>)
    ensures |cs| == n
  {
    if n == 0 then [] else Dealt(orders, s, n - 1) + [Top(After(orders, s, n))]
  }

  /** From s0, the calls of `next` returned exactly `drawn` and left the deck in s. */
  predicate DrawsFrom(orders: nat -> seq<Card>, s0: DeckState, drawn: seq<Card>, s: DeckState)
  {
    drawn == Dealt(orders, s0, |drawn|) && s == After(orders, s0, |drawn|)
  }

  /** One more `next` extends what was drawn by its card. */
  lemma DrawsNext(orders: nat -> seq<Card>, s0: DeckState, drawn: seq<Card>, s: DeckState)
    requires DrawsFrom(orders, s0, drawn, s)
    ensures DrawsFrom(orders, s0, drawn + [Top(Step(orders, s))], Step(orders, s))
  {
  }

  /** n calls after m calls are m + n calls. */
  lemma {:induction false} AfterAdd(orders: nat -> seq<Card>, s: DeckState, m: nat, n: nat)
    ensures After(orders, s, m + n) == After(orders, After(orders, s, m), n)
    ensures Dealt(orders, s, m + n) == Dealt(orders, s, m) + Dealt(orders, After(orders, s, m), n)
    decreases n
  {
    if n > 0 {
      AfterAdd(orders, s, m, n - 1);
      assert m + n - 1 == m + (n - 1);
    }
  }

  /** Two stretches of drawing, one after the other, are one stretch. */
  lemma DrawsConcat(orders: nat -> seq<Card>, s0: DeckState, a: seq<Card>, s1: DeckState, b: seq<Card>, s2: DeckState)
    requires DrawsFrom(orders, s0, a, s1) && DrawsFrom(orders, s1, b, s2)
    ensures DrawsFrom(orders, s0, a + b, s2)
  {
    AfterAdd(orders, s0, |a|, |b|);
  }

  /**
   * Between shuffles the cards come from the top of the array downwards:
   * the i-th card drawn is the one at position `top - 1 - i`.
   */
  lemma {:induction false} DealtDownwards(orders: nat -> seq<Card>, s: DeckState, n: nat)
    requires n <= s.top <= |s.cards|
    ensures forall i :: 0 <= i < n ==> Dealt(orders, s, n)[i] == s.cards[s.top - 1 - i]
    ensures After(orders, s, n) == DeckState(s.cards, s.top - n, s.shuffles)
    decreases n
  {
    if n > 0 {
      DealtDownwards(orders, s, n - 1);
    }
  }

  /** Past the last card the deck is reshuffled: the next card is the last of the next order. */
  lemma DealtReshuffles(orders: nat -> seq<Card>, s: DeckState)
    requires s.top <= 0 && |orders(s.shuffles)| == DeckSize
    ensures Dealt(orders, s, 1) == [orders(s.shuffles)[DeckSize - 1]]
    ensures After(orders, s, 1) == DeckState(orders(s.shuffles), DeckSize - 1, s.shuffles + 1)
  {
  }

  /** A `Deck < Array` of 52 cards with the cursor `@top`. */
  class Deck {
    /** The order of the cards after the n-th `shuffle!`. */
    const orders: nat -> seq<Card>
    var cards: seq<Card>
    var top: int
    /** How many times the deck has been shuffled. */
    var shuffles: nat

    /** 52 cards, a permutation of the full deck, with the cursor in 0..52. */
    ghost predicate Valid()
      reads this
    {
      |cards| == DeckSize && 0 <= top <= DeckSize && multiset(cards) == multiset(FullDeck()) &&
      forall n: nat :: |orders(n)| == DeckSize && multiset(orders(n)) == multiset(FullDeck())
    }

    /** The deck's present state. */
    function State(): DeckState
      reads this
    {
      DeckState(cards, top, shuffles)
    }

    /** `Deck.new`: the 52 cards are appended, then the deck is shuffled. */
    constructor(orders: nat -> seq<Card>)
      requires forall n: nat :: |orders(n)| == DeckSize && multiset(orders(n)) == multiset(FullDeck())
      ensures Valid() && this.orders == orders
      ensures cards == orders(0) && top == DeckSize && shuffles == 1
    {
      this.orders := orders;
      var unshuffled := NewCards();
      cards := unshuffled;
      top := 0;
      shuffles := 0;
      new;
      Shuffle();
    }

    /** The nested `each` loops of `initialize`: `self << Card.new(suit, rank)`. */
    static method NewCards() returns (cards: seq<Card>)
      ensures cards == FullDeck()
    {
      cards := [];
      var suit := 0;
      while suit < 4
        invariant suit <= 4 && cards == FullDeck()[..suit * 13]
      {
        var rank := 0;
        while rank < 13
          invariant rank <= 13 && cards == FullDeck()[..suit * 13 + rank]
        {
          DivMod13(suit, rank);
          cards := cards + [Card(suit, rank)];
          rank := rank + 1;
        }
        suit := suit + 1;
      }
    }

    /** `shuffle`: the cards are rearranged and the cursor is put past the last card. */
    method Shuffle()
      requires forall n: nat :: |orders(n)| == DeckSize && multiset(orders(n)) == multiset(FullDeck())
      requires multiset(cards) == multiset(FullDeck())
      modifies this
      ensures Valid() && multiset(cards) == multiset(old(cards))
      ensures cards == orders(old(shuffles)) && shuffles == old(shuffles) + 1 && top == DeckSize
    {
      cards := orders(shuffles);
      shuffles := shuffles + 1;
      top := DeckSize;
    }

    /**
     * `next`: the cursor moves down one card; when it would drop below 0 the
     * deck is reshuffled and the cursor restarts at 51.  The card under the
     * cursor is returned.
     */
    method Next() returns (c: Card)
      requires Valid()
      modifies this
      ensures Valid() && State() == Step(orders, old(State()))
      ensures 0 <= top < DeckSize && c == cards[top] && c == Top(State())
    {
      top := top - 1;
      if top < 0 {
        cards := orders(shuffles);
        shuffles := shuffles + 1;
        top := DeckSize - 1;
      }
      c := cards[top];
    }
  }

  // ---------------------------------------------------------------------
  // Scoring a hand

  /** `rank + 1`, with 10 for the picture cards. */
  function Value(c: Card): (v: nat)
    ensures 1 <= v <= 10 && (v == 1 <==> c.rank == 0)
  {
    if c.rank + 1 < 10 then c.rank + 1 else 10
  }

  /** The hand's total with every ace counted as 1. */
  function Hard(cs: seq<Card>): nat
  {
    if |cs| == 0 then 0 else Value(cs[0]) + Hard(cs[1..])
  }

  /** `aces`: the number of rank-0 cards. */
  function AceCount(cs: seq<Card>): nat
  {
    if |cs| == 0 then 0 else (if cs[0].rank == 0 then 1 else 0) + AceCount(cs[1..])
  }

  /** A hard total t with n aces, one ace raised to 11 when that stays within 21. */
  function Promoted(t: nat, n: nat): nat
  {
    if n > 0 && t + 10 <= 21 then t + 10 else t
  }

  /** `score`: the hard total, plus 10 for an ace when that stays within 21. */
  function Score(cs: seq<Card>): (s: nat)
    ensures Hard(cs) <= s <= Hard(cs) + 10
    ensures s > 21 <==> Hard(cs) > 21
  {
    Promoted(Hard(cs), AceCount(cs))
  }

  /** `showing`: the score rule applied to every card but the first; 0 for a hand of one card. */
  function Showing(cs: seq<Card>): (s: nat)
    ensures |cs| == 2 ==> s <= 21
  {
    if |cs| >= 2 then
      assert |cs| == 2 ==> Hard(cs[1..]) == Value(cs[1]) + Hard(cs[2..]);
      Score(cs[1..])
    else 0
  }

  /** Every ace adds 1 to the hard total, so there are never more aces than points. */
  lemma {:induction false} AcesBelowHard(cs: seq<Card>)
    ensures AceCount(cs) <= Hard(cs)
  {
    if |cs| > 0 {
      AcesBelowHard(cs[1..]);
    }
  }

  /** A card drawn to the hand adds its value and, if an ace, one to the count. */
  lemma {:induction false} DrawCard(cs: seq<Card>, c: Card)
    ensures Hard(cs + [c]) == Hard(cs) + Value(c)
    ensures AceCount(cs + [c]) == AceCount(cs) + if c.rank == 0 then 1 else 0
  {
    if |cs| > 0 {
      assert (cs + [c])[1..] == cs[1..] + [c];
      DrawCard(cs[1..], c);
    }
  }

  /** The dealer's rule: draw below 17, and on 17 while holding an ace. */
  predicate DealerDraws(cs: seq<Card>)
  {
    Score(cs) < 17 || (Score(cs) == 17 && AceCount(cs) > 0)
  }

  /** A natural: 21 with the first two cards. */
  predicate Natural(cs: seq<Card>)
  {
    Score(cs) == 21 && |cs| == 2
  }

  /**
   * The `if/elsif` chain of `play`: 0 for a loss, 1 for a push, 2 for a
   * win.  Naturals are settled first; a player who busts loses even when
   * the dealer busts too.
   */
  function Outcome(player: seq<Card>, dealer: seq<Card>): (r: nat)
    ensures r <= 2
    ensures Natural(dealer) ==> r == (if Natural(player) then 1 else 0)
    ensures Natural(player) && !Natural(dealer) ==> r == 2
    ensures Score(player) > 21 ==> r == 0
    ensures !Natural(player) && !Natural(dealer) && Score(player) <= 21 && Score(dealer) > 21 ==> r == 2
    ensures !Natural(player) && !Natural(dealer) && Score(player) <= 21 && Score(dealer) <= 21 ==>
      (r == 2 <==> Score(player) > Score(dealer)) && (r == 1 <==> Score(player) == Score(dealer))
  {
    if Natural(dealer) && Natural(player) then 1
    else if Natural(dealer) then 0
    else if Natural(player) then 2
    else if Score(player) > 21 then 0
    else if Score(dealer) > 21 then 2
    else if Score(dealer) == Score(player) then 1
    else if Score(dealer) > Score(player) then 0
    else 2
  }

  // ---------------------------------------------------------------------
  // The gene's answers

  /** The mask `[2, 5, 5]` of the blackjack driver: player aces, player total, dealer showing. */
  const Fields: seq<nat> := [2, 5, 5]

  /** `calcIndex([a, s, h])` for the blackjack mask. */
  lemma LookupValue(a: nat, s: nat, h: nat)
    ensures Index(Fields, [a, s, h]) == a + 4 * s + 128 * h
  {
    var f: seq<nat> := [a, s, h];
    assert Fields[..1] == [2] && Fields[..2] == [2, 5] && Fields[..1][..0] == [];
    assert Sum(Fields[..1][..0]) == 0 && Sum(Fields[..1]) == 2 && Sum(Fields[..2]) == 7;
    ShlIsMul(a, 0);
    ShlIsMul(s, 2);
    ShlIsMul(h, 7);
    assert Index(Fields[..1], f) == a;
    assert Index(Fields[..2], f) == a + 4 * s;
  }

  /**
   * The ace count has a 2-bit field: a hand holding four aces (hard 4, score
   * 14) looks up the same cell as a hand with no ace and score 15.
   */
  lemma AceFieldOverflow(h: nat)
    ensures Index(Fields, [4, 14, h]) == Index(Fields, [0, 15, h])
  {
    LookupValue(4, 14, h);
    LookupValue(0, 15, h);
  }

  /** Every lookup made while no hand is over 21 lies in the first 4096 bits of the gene. */
  lemma LookupBound(a: nat, s: nat, h: nat)
    requires a <= 21 && s <= 21 && h <= 21
    ensures Index(Fields, [a, s, h]) < 4096 && Index(Fields, [a, s, h]) / WordBits < 64
  {
    LookupValue(a, s, h);
  }

  /** The gene's answer for a player hand against the dealer's hand: 1 to draw, 0 to stand. */
  function Decision(gene: seq<nat>, player: seq<Card>, dealer: seq<Card>): nat
    requires |gene| >= 64 && Score(player) <= 21 && |dealer| == 2
  {
    AcesBelowHard(player);
    LookupBound(AceCount(player), Score(player), Showing(dealer));
    BitAt(gene, Index(Fields, [AceCount(player), Score(player), Showing(dealer)]))
  }

  /**
   * The player's turn: each card after the first two was drawn on a
   * decision of 1 from a hand of at most 21, and the player stopped on
   * going over 21 or on a decision of 0.
   */
  predicate PlayerRule(gene: seq<nat>, player: seq<Card>, dealer: seq<Card>)
    requires |gene| >= 64 && |dealer| == 2
  {
    (forall k :: 2 <= k < |player| ==> Score(player[..k]) <= 21 && Decision(gene, player[..k], dealer) == 1) &&
    (Score(player) > 21 || Decision(gene, player, dealer) == 0)
  }

  /** The dealer's turn from n cards on: every draw follows the rule, and the rule says stop at the end. */
  predicate DealerRule(dealer: seq<Card>, n: nat)
  {
    (forall k :: n <= k < |dealer| ==> DealerDraws(dealer[..k])) && !DealerDraws(dealer)
  }

  /** The dealer plays when neither first hand is 21 and the player has not gone over. */
  predicate DealerPlays(player: seq<Card>, dealer: seq<Card>)
    requires |player| >= 2 && |dealer| >= 2
  {
    Score(dealer[..2]) != 21 && Score(player[..2]) != 21 &&
    (Score(player) < 21 || (Score(player) == 21 && |player| > 2))
  }

  /**
   * What one `play` does with the hands: two cards each; unless a first hand
   * is 21 the player follows the gene, and otherwise stands on two cards;
   * the dealer follows the dealer rule when `DealerPlays`, and otherwise
   * stands on two cards.
   */
  predicate Played(gene: seq<nat>, player: seq<Card>, dealer: seq<Card>)
  {
    |gene| >= 64 && 2 <= |player| && 2 <= |dealer| &&
    (if Score(dealer[..2]) != 21 && Score(player[..2]) != 21 then PlayerRule(gene, player, dealer[..2])
     else |player| == 2) &&
    (if DealerPlays(player, dealer) then DealerRule(dealer, 2) else |dealer| == 2)
  }

  // ---------------------------------------------------------------------
  // The head start

  /** The head start's answer for player total j: draw below 17. */
  function Hit(j: nat): nat
  {
    if j < 17 then 1 else 0
  }

  /** `calcIndex([i, j, k])` */
  function Cell(mask: seq<nat>, i: nat, j: nat, k: nat): nat
    requires |mask| == 3
  {
    Index(mask, [i, j, k])
  }

  /** The three fields fit their widths. */
  predicate InCube(mask: seq<nat>, i: nat, j: nat, k: nat)
    requires |mask| == 3
  {
    i < Pow2(mask[0]) && j < Pow2(mask[1]) && k < Pow2(mask[2])
  }

  lemma CellBound(mask: seq<nat>, i: nat, j: nat, k: nat)
    requires |mask| == 3 && InCube(mask, i, j, k)
    ensures Cell(mask, i, j, k) < Pow2(Sum(mask))
  {
    var f: seq<nat> := [i, j, k];
    assert Fits(mask, f);
    IndexBound(mask, f);
  }

  /** Different cells of the cube are different bits. */
  lemma CellInjective(mask: seq<nat>, i: nat, j: nat, k: nat, x: nat, y: nat, z: nat)
    requires |mask| == 3 && InCube(mask, i, j, k) && InCube(mask, x, y, z)
    ensures Cell(mask, i, j, k) == Cell(mask, x, y, z) <==> i == x && j == y && k == z
  {
    var f: seq<nat> := [i, j, k];
    var g: seq<nat> := [x, y, z];
    assert Fits(mask, f) && Fits(mask, g);
    if Cell(mask, i, j, k) == Cell(mask, x, y, z) {
      IndexInjective(mask, f, g);
      assert f[..3] == f && g[..3] == g;
    }
  }

  /** The words cover every cell of the cube. */
  predicate Covers(ws: seq<nat>, mask: seq<nat>)
  {
    Pow2(Sum(mask)) <= |ws| * WordBits
  }

  lemma CellInWords(ws: seq<nat>, mask: seq<nat>, i: nat, j: nat, k: nat)
    requires |mask| == 3 && InCube(mask, i, j, k) && Covers(ws, mask)
    ensures Cell(mask, i, j, k) / WordBits < |ws|
  {
    CellBound(mask, i, j, k);
  }

  /** The innermost loop of `headStart`: cells (i, j, 0) .. (i, j, n - 1) set to `Hit(j)`. */
  function Row(ws: seq<nat>, mask: seq<nat>, i: nat, j: nat, n: nat): (r: seq<nat>)
    requires |mask| == 3 && Covers(ws, mask) && i < Pow2(mask[0]) && j < Pow2(mask[1]) && n <= Pow2(mask[2])
    ensures |r| == |ws|
  {
    if n == 0 then ws
    else
      var prev := Row(ws, mask, i, j, n - 1);
      CellInWords(prev, mask, i, j, n - 1);
      WithBit(prev, Cell(mask, i, j, n - 1), Hit(j))
  }

  /** The middle loop: rows j = 0 .. n - 1 of plane i. */
  function Plane(ws: seq<nat>, mask: seq<nat>, i: nat, n: nat): (r: seq<nat>)
    requires |mask| == 3 && Covers(ws, mask) && i < Pow2(mask[0]) && n <= Pow2(mask[1])
    ensures |r| == |ws|
  {
    if n == 0 then ws else Row(Plane(ws, mask, i, n - 1), mask, i, n - 1, Pow2(mask[2]))
  }

  /** The outer loop: planes i = 0 .. n - 1. */
  function Cube(ws: seq<nat>, mask: seq<nat>, n: nat): (r: seq<nat>)
    requires |mask| == 3 && Covers(ws, mask) && n <= Pow2(mask[0])
    ensures |r| == |ws|
  {
    if n == 0 then ws else Plane(Cube(ws, mask, n - 1), mask, n - 1, Pow2(mask[1]))
  }

  /** After the row, its first n cells hold `Hit(j)` and every other cell is unchanged. */
  lemma {:induction false} RowBits(ws: seq<nat>, mask: seq<nat>, i: nat, j: nat, n: nat, x: nat, y: nat, z: nat)
    requires |mask| == 3 && Covers(ws, mask) && i < Pow2(mask[0]) && j < Pow2(mask[1]) && n <= Pow2(mask[2])
    requires InCube(mask, x, y, z)
    ensures Cell(mask, x, y, z) / WordBits < |ws|
    ensures BitAt(Row(ws, mask, i, j, n), Cell(mask, x, y, z)) ==
      if x == i && y == j && z < n then Hit(j) else BitAt(ws, Cell(mask, x, y, z))
    decreases n
  {
    CellInWords(ws, mask, x, y, z);
    if n > 0 {
      var prev := Row(ws, mask, i, j, n - 1);
      RowBits(ws, mask, i, j, n - 1, x, y, z);
      CellInWords(prev, mask, i, j, n - 1);
      CellInjective(mask, i, j, n - 1, x, y, z);
      WithBitAt(prev, Cell(mask, i, j, n - 1), Hit(j), Cell(mask, x, y, z));
    }
  }

  lemma {:induction false} PlaneBits(ws: seq<nat>, mask: seq<nat>, i: nat, n: nat, x: nat, y: nat, z: nat)
    requires |mask| == 3 && Covers(ws, mask) && i < Pow2(mask[0]) && n <= Pow2(mask[1])
    requires InCube(mask, x, y, z)
    ensures Cell(mask, x, y, z) / WordBits < |ws|
    ensures BitAt(Plane(ws, mask, i, n), Cell(mask, x, y, z)) ==
      if x == i && y < n then Hit(y) else BitAt(ws, Cell(mask, x, y, z))
    decreases n
  {
    CellInWords(ws, mask, x, y, z);
    if n > 0 {
      PlaneBits(ws, mask, i, n - 1, x, y, z);
      RowBits(Plane(ws, mask, i, n - 1), mask, i, n - 1, Pow2(mask[2]), x, y, z);
    }
  }

  /** After the outer loop has run n times, every cell of planes 0 .. n - 1 holds the answer for its total. */
  lemma {:induction false} CubeBits(ws: seq<nat>, mask: seq<nat>, n: nat, x: nat, y: nat, z: nat)
    requires |mask| == 3 && Covers(ws, mask) && n <= Pow2(mask[0])
    requires InCube(mask, x, y, z)
    ensures Cell(mask, x, y, z) / WordBits < |ws|
    ensures BitAt(Cube(ws, mask, n), Cell(mask, x, y, z)) ==
      if x < n then Hit(y) else BitAt(ws, Cell(mask, x, y, z))
    decreases n
  {
    CellInWords(ws, mask, x, y, z);
    if n > 0 {
      CubeBits(ws, mask, n - 1, x, y, z);
      PlaneBits(Cube(ws, mask, n - 1), mask, n - 1, Pow2(mask[1]), x, y, z);
    }
  }

  /**
   * After the whole fill, every cell of the cube answers for its player
   * total: 1 below 17, 0 from 17 on.
   */
  lemma FilledTable(ws: seq<nat>, mask: seq<nat>, x: nat, y: nat, z: nat)
    requires |mask| == 3 && Covers(ws, mask) && InCube(mask, x, y, z)
    ensures Cell(mask, x, y, z) / WordBits < |ws|
    ensures BitAt(Cube(ws, mask, Pow2(mask[0])), Cell(mask, x, y, z)) == if y < 17 then 1 else 0
  {
    CubeBits(ws, mask, Pow2(mask[0]), x, y, z);
  }

  /** Bits past the cube are never written. */
  lemma {:induction false} RowFrame(ws: seq<nat>, mask: seq<nat>, i: nat, j: nat, n: nat, b: nat)
    requires |mask| == 3 && Covers(ws, mask) && i < Pow2(mask[0]) && j < Pow2(mask[1]) && n <= Pow2(mask[2])
    requires Pow2(Sum(mask)) <= b && b / WordBits < |ws|
    ensures BitAt(Row(ws, mask, i, j, n), b) == BitAt(ws, b)
    decreases n
  {
    if n > 0 {
      var prev := Row(ws, mask, i, j, n - 1);
      RowFrame(ws, mask, i, j, n - 1, b);
      CellBound(mask, i, j, n - 1);
      CellInWords(prev, mask, i, j, n - 1);
      WithBitAt(prev, Cell(mask, i, j, n - 1), Hit(j), b);
    }
  }

  lemma {:induction false} PlaneFrame(ws: seq<nat>, mask: seq<nat>, i: nat, n: nat, b: nat)
    requires |mask| == 3 && Covers(ws, mask) && i < Pow2(mask[0]) && n <= Pow2(mask[1])
    requires Pow2(Sum(mask)) <= b && b / WordBits < |ws|
    ensures BitAt(Plane(ws, mask, i, n), b) == BitAt(ws, b)
    decreases n
  {
    if n > 0 {
      PlaneFrame(ws, mask, i, n - 1, b);
      RowFrame(Plane(ws, mask, i, n - 1), mask, i, n - 1, Pow2(mask[2]), b);
    }
  }

  lemma {:induction false} CubeFrame(ws: seq<nat>, mask: seq<nat>, n: nat, b: nat)
    requires |mask| == 3 && Covers(ws, mask) && n <= Pow2(mask[0])
    requires Pow2(Sum(mask)) <= b && b / WordBits < |ws|
    ensures BitAt(Cube(ws, mask, n), b) == BitAt(ws, b)
    decreases n
  {
    if n > 0 {
      CubeFrame(ws, mask, n - 1, b);
      PlaneFrame(Cube(ws, mask, n - 1), mask, n - 1, Pow2(mask[1]), b);
    }
  }

  /** `[2, 5, 5]` spans 12 bits, so a gene of the blackjack pool covers the 4096 lookups. */
  lemma FieldsWidth()
    ensures Sum(Fields) == 12 && Pow2(Sum(Fields)) == 4096
  {
    var two: seq<nat> := [2, 5];
    var one: seq<nat> := [2];
    assert Fields[..2] == two && two[..1] == one && one[..0] == [];
    assert Sum(one) == 2 && Sum(two) == 7;
    assert Pow2(12) == 4096;
  }

  // ---------------------------------------------------------------------
  // Hands

  /** `Hand < Array`: the cards drawn from `deck`, with the totals `evaluate` records. */
  class Hand {
    const deck: Deck
    var cards: seq<Card>
    var score: nat
    var aces: nat
    var showing: nat

    /** The recorded totals are those of the cards held. */
    ghost predicate Valid()
      reads this
    {
      score == Score(cards) && aces == AceCount(cards) && showing == Showing(cards)
    }

    /** `Hand.new(deck)`: no cards, every total 0. */
    constructor(deck: Deck)
      ensures Valid() && this.deck == deck && cards == []
    {
      this.deck := deck;
      cards := [];
      score, aces, showing := 0, 0, 0;
    }

    /** `next`: the deck's next card joins the hand, which is evaluated again. */
    method Next()
      requires deck.Valid()
      modifies this, deck
      ensures Valid() && deck.Valid() && 0 <= deck.top < DeckSize
      ensures deck.State() == Step(deck.orders, old(deck.State()))
      ensures cards == old(cards) + [Top(deck.State())]
    {
      var c := deck.Next();
      cards := cards + [c];
      Evaluate();
    }

    /**
     * `evaluate`: the cards are summed from the last to the first, the total
     * of cards 1 onwards being kept for `showing`; then each total has an ace
     * raised to 11 for as long as that stays within 21.
     */
    method Evaluate()
      modifies this
      ensures Valid() && cards == old(cards)
    {
      score, aces := 0, 0;
      var t, sh, sha := 0, 0, 0;
      var n := |cards|;
      var i := 0;
      while i < n
        invariant cards == old(cards) && i <= n && t == Hard(cards[n - i..]) && aces == AceCount(cards[n - i..])
        invariant (sh, sha) == if 2 <= n && n - i <= 1 then (Hard(cards[1..]), AceCount(cards[1..])) else (0, 0)
      {
        var ss := n - 1 - i;
        assert cards[ss..][1..] == cards[n - i..];
        var rank := cards[ss].rank;
        if rank == 0 {
          aces := aces + 1;
        }
        var rp := rank + 1;
        t := t + if rp < 10 then rp else 10;
        if ss == 1 {
          sh, sha := t, aces;
        }
        i := i + 1;
      }
      assert cards[n - i..] == cards;
      AcesBelowHard(cards);
      t := PromoteAces(t, aces);
      score := t;
      if 2 <= n {
        AcesBelowHard(cards[1..]);
      }
      sh := PromoteAces(sh, sha);
      showing := sh;
    }

    /**
     * `(0...aces).each { t += 10 if t + 10 <= 21 }`.  Every ace counts at
     * least 1 in t, so a second ace never fits and the loop raises at most one.
     */
    static method PromoteAces(hard: nat, aces: nat) returns (t: nat)
      requires aces <= hard
      ensures t == Promoted(hard, aces)
    {
      t := hard;
      var k := 0;
      while k < aces
        invariant k <= aces && t == if k == 0 then hard else Promoted(hard, aces)
      {
        if t + 10 <= 21 {
          t := t + 10;
        }
        k := k + 1;
      }
    }
  }

  // ---------------------------------------------------------------------
  // The game

  /** `Game`: a deck and the pool whose genes play against the dealer. */
  class Game {
    const pool: GenePool
    const cycles: nat
    const deck: Deck

    /**
     * The pool is laid out for the lookups `[aces, score, showing]`: the
     * mask `[2, 5, 5]` and at least one output bit, so every gene holds at
     * least 4096 bits (64 words).
     */
    ghost predicate Valid()
      reads this, deck, pool, pool.Genes, pool.Storage
    {
      deck.Valid() && pool.Valid() && pool.inMask == Fields && pool.Layout() && pool.outLen >= 1 &&
      forall k :: 0 <= k < |pool.Words| ==> |pool.Words[k]| >= 64
    }

    /** `Game.new(genePool, cycles)` with a new deck. */
    constructor(genePool: GenePool, cycles: nat, orders: nat -> seq<Card>)
      requires genePool.Valid() && genePool.inMask == Fields && genePool.Layout() && genePool.outLen >= 1
      requires forall n: nat :: |orders(n)| == DeckSize && multiset(orders(n)) == multiset(FullDeck())
      ensures Valid() && pool == genePool && this.cycles == cycles && fresh(deck)
    {
      pool := genePool;
      this.cycles := cycles;
      deck := new Deck(orders);
      new;
      GeneRoom(genePool);
    }

    /** Every gene of a blackjack pool holds at least 64 words. */
    static lemma GeneRoom(p: GenePool)
      requires p.Valid() && p.inMask == Fields && p.Layout() && p.outLen >= 1
      ensures forall k :: 0 <= k < |p.Words| ==> |p.Words[k]| >= 64
    {
      FieldsWidth();
      p.WordsShape();
    }

    /** The gene's answer for the current hands, `result(geneID, [aces, score, showing])`. */
    method Ask(geneID: nat, player: Hand, dealer: Hand) returns (b: nat)
      requires Valid() && geneID < |pool.genePool| && player.Valid() && dealer.Valid()
      requires Score(player.cards) <= 21 && |dealer.cards| == 2
      ensures b == Decision(pool.Words[geneID], player.cards, dealer.cards)
    {
      AcesBelowHard(player.cards);
      LookupBound(player.aces, player.score, dealer.showing);
      pool.WordsShape();
      assert |pool.Words[geneID]| >= 64 && |pool.Words[geneID]| == NumWordsFor(pool.geneLen);
      b := pool.Result(geneID, [player.aces, player.score, dealer.showing]);
    }

    /** The four opening cards: player, dealer, player, dealer. */
    method Deal() returns (player: Hand, dealer: Hand)
      requires deck.Valid()
      modifies deck
      ensures deck.Valid() && fresh(player) && fresh(dealer) && player != dealer
      ensures player.Valid() && player.deck == deck && |player.cards| == 2
      ensures dealer.Valid() && dealer.deck == deck && |dealer.cards| == 2
      ensures DrawsFrom(deck.orders, old(deck.State()),
        [player.cards[0], dealer.cards[0], player.cards[1], dealer.cards[1]], deck.State())
    {
      dealer := new Hand(deck);
      player := new Hand(deck);
      ghost var s0 := deck.State();
      DealRound(player, dealer);
      ghost var s1 := deck.State();
      ghost var first := [player.cards[0], dealer.cards[0]];
      DealRound(player, dealer);
      DrawsConcat(deck.orders, s0, first, s1, [player.cards[1], dealer.cards[1]], deck.State());
      assert first + [player.cards[1], dealer.cards[1]] ==
        [player.cards[0], dealer.cards[0], player.cards[1], dealer.cards[1]];
    }

    /** One round of the deal: a card to the player, then one to the dealer. */
    method DealRound(player: Hand, dealer: Hand)
      requires deck.Valid() && player != dealer && player.deck == deck && dealer.deck == deck
      modifies player, dealer, deck
      ensures deck.Valid() && player.Valid() && dealer.Valid()
      ensures |player.cards| == old(|player.cards|) + 1 && player.cards[..old(|player.cards|)] == old(player.cards)
      ensures |dealer.cards| == old(|dealer.cards|) + 1 && dealer.cards[..old(|dealer.cards|)] == old(dealer.cards)
      ensures DrawsFrom(deck.orders, old(deck.State()),
        [player.cards[|player.cards| - 1], dealer.cards[|dealer.cards| - 1]], deck.State())
    {
      player.Next();
      DrawsNext(deck.orders, old(deck.State()), [], old(deck.State()));
      ghost var s := deck.State();
      ghost var a := player.cards[|player.cards| - 1];
      dealer.Next();
      DrawsNext(deck.orders, old(deck.State()), [a], s);
    }

    /**
     * A `next` during a turn: the hand gains one card, its hard total grows
     * by the card's value, its shorter prefixes stay, and the cards drawn
     * since card n0 are still those the deck dealt from s0.
     */
    method Draw(h: Hand, ghost n0: nat, ghost s0: DeckState)
      requires deck.Valid() && h.Valid() && h.deck == deck && n0 <= |h.cards|
      requires DrawsFrom(deck.orders, s0, h.cards[n0..], deck.State())
      modifies h, deck
      ensures deck.Valid() && h.Valid() && |h.cards| == old(|h.cards|) + 1
      ensures Hard(h.cards) == Hard(old(h.cards)) + Value(h.cards[old(|h.cards|)])
      ensures h.cards[..old(|h.cards|)] == old(h.cards)
      ensures forall k :: 0 <= k <= old(|h.cards|) ==> h.cards[..k] == old(h.cards)[..k]
      ensures DrawsFrom(deck.orders, s0, h.cards[n0..], deck.State())
    {
      ghost var before := h.cards;
      ghost var s := deck.State();
      h.Next();
      DrawCard(before, h.cards[|before|]);
      Prefixes(before, h.cards, n0);
      DrawsNext(deck.orders, s0, before[n0..], s);
      assert h.cards[n0..] == before[n0..] + [Top(deck.State())];
    }

    /** The player's `until done` loop: draw while the gene says 1 and the hand is within 21. */
    method PlayerTurn(geneID: nat, player: Hand, dealer: Hand)
      requires Valid() && geneID < |pool.genePool| && player != dealer
      requires player.Valid() && player.deck == deck && dealer.Valid()
      requires Score(player.cards) <= 21 && |dealer.cards| == 2
      modifies player, deck
      ensures Valid() && player.Valid() && old(|player.cards|) <= |player.cards|
      ensures player.cards[..old(|player.cards|)] == old(player.cards)
      ensures forall k :: old(|player.cards|) <= k < |player.cards| ==>
        Score(player.cards[..k]) <= 21 && Decision(pool.Words[geneID], player.cards[..k], dealer.cards) == 1
      ensures Score(player.cards) > 21 || Decision(pool.Words[geneID], player.cards, dealer.cards) == 0
      ensures DrawsFrom(deck.orders, old(deck.State()), player.cards[old(|player.cards|)..], deck.State())
    {
      ghost var gene := pool.Words[geneID];
      ghost var n0 := |player.cards|;
      var done := false;
      while !done
        invariant deck.Valid() && player.Valid() && n0 <= |player.cards| && player.cards[..n0] == old(player.cards)
        invariant forall k :: n0 <= k < |player.cards| ==>
          Score(player.cards[..k]) <= 21 && Decision(gene, player.cards[..k], dealer.cards) == 1
        invariant !done ==> Score(player.cards) <= 21
        invariant done ==> Score(player.cards) > 21 || Decision(gene, player.cards, dealer.cards) == 0
        invariant DrawsFrom(deck.orders, old(deck.State()), player.cards[n0..], deck.State())
        decreases if done then 0 else 22 - Hard(player.cards)
      {
        var b := Ask(geneID, player, dealer);
        if b == 1 {
          ghost var before := player.cards;
          Draw(player, n0, old(deck.State()));
          HitKept(gene, before, player.cards, dealer.cards, n0);
          if player.score > 21 {
            done := true;
          }
        } else {
          done := true;
        }
      }
    }

    /** The dealer's `until done` loop: draw while under 17, or on 17 with an ace. */
    method DealerTurn(dealer: Hand)
      requires deck.Valid() && dealer.Valid() && dealer.deck == deck && |dealer.cards| == 2
      modifies dealer, deck
      ensures deck.Valid() && dealer.Valid() && 2 <= |dealer.cards| && dealer.cards[..2] == old(dealer.cards)
      ensures DealerRule(dealer.cards, 2)
      ensures DrawsFrom(deck.orders, old(deck.State()), dealer.cards[2..], deck.State())
    {
      TwoCards(dealer.cards);
      var done := false;
      while !done
        invariant deck.Valid() && dealer.Valid() && 2 <= |dealer.cards| && dealer.cards[..2] == old(dealer.cards)
        invariant forall k :: 2 <= k < |dealer.cards| ==> DealerDraws(dealer.cards[..k])
        invariant !done ==> Hard(dealer.cards) <= 27
        invariant done ==> !DealerDraws(dealer.cards)
        invariant DrawsFrom(deck.orders, old(deck.State()), dealer.cards[2..], deck.State())
        decreases if done then 0 else 28 - Hard(dealer.cards)
      {
        if dealer.score < 17 || (dealer.score == 17 && dealer.aces > 0) {
          Draw(dealer, 2, old(deck.State()));
        } else {
          done := true;
        }
      }
    }

    /**
     * `play(geneID)`: two cards each, alternately; unless either hand is 21
     * the player and then, if the player is not over 21 and has no natural,
     * the dealer take their turns; the result is 0, 1 or 2 by the outcome
     * chain.  The hands are returned as ghosts.
     */
    method Play(geneID: nat) returns (gamescore: nat, ghost player: seq<Card>, ghost dealer: seq<Card>)
      requires Valid() && geneID < |pool.genePool|
      modifies deck
      ensures Valid() && gamescore == Outcome(player, dealer) && gamescore <= 2
      ensures Played(pool.Words[geneID], player, dealer)
      ensures DrawsFrom(deck.orders, old(deck.State()), DealOrder(player, dealer), deck.State())
    {
      var p, d := Deal();
      ghost var s1 := deck.State();
      ghost var first := [p.cards[0], d.cards[0], p.cards[1], d.cards[1]];
      Turns(geneID, p, d);
      GameDealt(deck.orders, old(deck.State()), first, s1, p.cards, d.cards, deck.State());
      player, dealer := p.cards, d.cards;
      gamescore := Outcome(p.cards, d.cards);
    }

    /** The `if` of `play` after the deal: the player's turn, then the dealer's. */
    method Turns(geneID: nat, p: Hand, d: Hand)
      requires Valid() && geneID < |pool.genePool| && p != d
      requires p.Valid() && p.deck == deck && |p.cards| == 2
      requires d.Valid() && d.deck == deck && |d.cards| == 2
      modifies deck, p, d
      ensures Valid() && p.Valid() && d.Valid()
      ensures 2 <= |p.cards| && 2 <= |d.cards| && p.cards[..2] == old(p.cards) && d.cards[..2] == old(d.cards)
      ensures if Score(old(d.cards)) != 21 && Score(old(p.cards)) != 21 then
          PlayerRule(pool.Words[geneID], p.cards, old(d.cards))
        else |p.cards| == 2
      ensures if DealerPlays(p.cards, d.cards) then DealerRule(d.cards, 2) else |d.cards| == 2
      ensures DrawsFrom(deck.orders, old(deck.State()), p.cards[2..] + d.cards[2..], deck.State())
    {
      ghost var s0 := deck.State();
      if d.score != 21 && p.score != 21 {
        TwoCards(p.cards);
        PlayerTurn(geneID, p, d);
        ghost var s1 := deck.State();
        if p.score < 21 || (p.score == 21 && |p.cards| > 2) {
          DealerTurn(d);
          DrawsConcat(deck.orders, s0, p.cards[2..], s1, d.cards[2..], deck.State());
        } else {
          assert p.cards[2..] + d.cards[2..] == p.cards[2..];
        }
      } else {
        assert p.cards[2..] + d.cards[2..] == [];
      }
    }

    /** `fitness(geneID)`: the sum of `cycles` games, each scoring at most 2. */
    method Fitness(geneID: nat) returns (geneScore: nat, ghost games: seq<(seq<Card>, seq<Card>)>)
      requires Valid() && geneID < |pool.genePool|
      modifies deck
      ensures Valid() && |games| == cycles && geneScore <= 2 * cycles
      ensures geneScore == Sum(Outcomes(games))
      ensures forall k :: 0 <= k < |games| ==> Played(pool.Words[geneID], games[k].0, games[k].1)
      ensures forall k :: 0 <= k < |games| ==> 2 <= |games[k].0| && 2 <= |games[k].1|
      ensures DrawsFrom(deck.orders, old(deck.State()), GamesDealt(games), deck.State())
    {
      geneScore := 0;
      games := [];
      ghost var gene := pool.Words[geneID];
      ghost var s0 := deck.State();
      var c := 0;
      while c < cycles
        invariant c <= cycles && Valid() && |games| == c && geneScore <= 2 * c && pool.Words[geneID] == gene
        invariant geneScore == Sum(Outcomes(games))
        invariant forall k :: 0 <= k < |games| ==> Played(gene, games[k].0, games[k].1)
        invariant forall k :: 0 <= k < |games| ==> 2 <= |games[k].0| && 2 <= |games[k].1|
        invariant DrawsFrom(deck.orders, s0, GamesDealt(games), deck.State())
      {
        var score, p, d := NextGame(geneID, gene, games, s0);
        games := games + [(p, d)];
        geneScore := geneScore + score;
        c := c + 1;
      }
    }

    /** One pass of the `cycles` loop of `fitness`: a game played on from where the earlier ones left the deck. */
    method NextGame(geneID: nat, ghost gene: seq<nat>, ghost games: seq<(seq<Card>, seq<Card>)>, ghost s0: DeckState)
      returns (score: nat, ghost player: seq<Card>, ghost dealer: seq<Card>)
      requires Valid() && geneID < |pool.genePool| && gene == pool.Words[geneID]
      requires forall k :: 0 <= k < |games| ==> Played(gene, games[k].0, games[k].1)
      requires forall k :: 0 <= k < |games| ==> 2 <= |games[k].0| && 2 <= |games[k].1|
      requires DrawsFrom(deck.orders, s0, GamesDealt(games), deck.State())
      modifies deck
      ensures Valid() && score == Outcome(player, dealer) && score <= 2
      ensures Sum(Outcomes(games + [(player, dealer)])) == Sum(Outcomes(games)) + score
      ensures forall k :: 0 <= k < |games| + 1 ==>
        Played(gene, (games + [(player, dealer)])[k].0, (games + [(player, dealer)])[k].1)
      ensures forall k :: 0 <= k < |games| + 1 ==>
        2 <= |(games + [(player, dealer)])[k].0| && 2 <= |(games + [(player, dealer)])[k].1|
      ensures DrawsFrom(deck.orders, s0, GamesDealt(games + [(player, dealer)]), deck.State())
    {
      ghost var s := deck.State();
      score, player, dealer := Play(geneID);
      GamesNext(gene, games, player, dealer);
      GamesDealtNext(deck.orders, s0, games, s, player, dealer, deck.State());
    }

    /**
     * `headStart(inFields)`: in gene 0 every cell `calcIndex([i, j, k])` is
     * set to 1 when the player total j is below 17 and to 0 otherwise; then
     * genes 1 to `cycles / 4` receive gene 0's words.
     */
    method HeadStart(inFields: seq<nat>)
      requires Valid() && inFields == pool.inMask && cycles / 4 < |pool.genePool|
      modifies pool, pool.Storage
      ensures Valid() && pool.genePool == old(pool.genePool) && pool.Fitnesses == old(pool.Fitnesses)
      ensures Covers(old(pool.Words[0]), Fields)
      ensures pool.Words[0] == Cube(old(pool.Words[0]), Fields, Pow2(Fields[0]))
      ensures forall l :: 1 <= l <= cycles / 4 ==> pool.Words[l] == pool.Words[0]
      ensures forall l :: cycles / 4 < l < |pool.Words| ==> pool.Words[l] == old(pool.Words[l])
    {
      FieldsWidth();
      FillCube(inFields);
      var i := 0;
      while i < cycles / 4
        invariant i <= cycles / 4 && pool.Valid() && pool.genePool == old(pool.genePool)
        invariant pool.Fitnesses == old(pool.Fitnesses) && pool.Storage == old(pool.Storage)
        invariant pool.Words[0] == Cube(old(pool.Words[0]), Fields, Pow2(Fields[0]))
        invariant forall l :: 1 <= l <= i ==> pool.Words[l] == pool.Words[0]
        invariant forall l :: i < l < |pool.Words| ==> pool.Words[l] == old(pool.Words[l])
      {
        pool.CopyGene(i + 1, 0);
        i := i + 1;
      }
    }

    /** The `i` loop of `headStart`. */
    method FillCube(inFields: seq<nat>)
      requires pool.Valid() && inFields == pool.inMask && pool.inMask == Fields && 1 <= |pool.genePool|
      requires Covers(pool.Words[0], Fields)
      modifies pool, pool.Storage
      ensures pool.Valid() && pool.genePool == old(pool.genePool)
      ensures pool.Fitnesses == old(pool.Fitnesses) && pool.Storage == old(pool.Storage)
      ensures pool.Words == old(pool.Words)[0 := Cube(old(pool.Words[0]), Fields, Pow2(Fields[0]))]
    {
      ghost var start := pool.Words[0];
      var i := 0;
      while i < Pow2(inFields[0])
        invariant i <= Pow2(Fields[0]) && pool.Valid() && pool.genePool == old(pool.genePool)
        invariant pool.Fitnesses == old(pool.Fitnesses) && pool.Storage == old(pool.Storage)
        invariant pool.Words == old(pool.Words)[0 := Cube(start, Fields, i)]
      {
        FillPlane(inFields, i);
        i := i + 1;
      }
    }

    /** The `j` loop of `headStart`. */
    method FillPlane(inFields: seq<nat>, i: nat)
      requires pool.Valid() && inFields == pool.inMask && pool.inMask == Fields && 1 <= |pool.genePool|
      requires Covers(pool.Words[0], Fields) && i < Pow2(Fields[0])
      modifies pool, pool.Storage
      ensures pool.Valid() && pool.genePool == old(pool.genePool)
      ensures pool.Fitnesses == old(pool.Fitnesses) && pool.Storage == old(pool.Storage)
      ensures pool.Words == old(pool.Words)[0 := Plane(old(pool.Words[0]), Fields, i, Pow2(Fields[1]))]
    {
      ghost var start := pool.Words[0];
      var j := 0;
      while j < Pow2(inFields[1])
        invariant j <= Pow2(Fields[1]) && pool.Valid() && pool.genePool == old(pool.genePool)
        invariant pool.Fitnesses == old(pool.Fitnesses) && pool.Storage == old(pool.Storage)
        invariant pool.Words == old(pool.Words)[0 := Plane(start, Fields, i, j)]
      {
        FillRow(inFields, i, j);
        j := j + 1;
      }
    }

    /** The `k` loop of `headStart`: `set(0, calcIndex([i, j, k]), j < 17 ? 1 : 0)`. */
    method FillRow(inFields: seq<nat>, i: nat, j: nat)
      requires pool.Valid() && inFields == pool.inMask && pool.inMask == Fields && 1 <= |pool.genePool|
      requires Covers(pool.Words[0], Fields) && i < Pow2(Fields[0]) && j < Pow2(Fields[1])
      modifies pool, pool.Storage
      ensures pool.Valid() && pool.genePool == old(pool.genePool)
      ensures pool.Fitnesses == old(pool.Fitnesses) && pool.Storage == old(pool.Storage)
      ensures pool.Words == old(pool.Words)[0 := Row(old(pool.Words[0]), Fields, i, j, Pow2(Fields[2]))]
    {
      ghost var start := pool.Words[0];
      var k := 0;
      while k < Pow2(inFields[2])
        invariant k <= Pow2(Fields[2]) && pool.Valid() && pool.genePool == old(pool.genePool)
        invariant pool.Fitnesses == old(pool.Fitnesses) && pool.Storage == old(pool.Storage)
        invariant pool.Words == old(pool.Words)[0 := Row(start, Fields, i, j, k)]
      {
        FillCell(inFields, i, j, k);
        k := k + 1;
      }
    }

    /** The body of the `k` loop: cell `calcIndex([i, j, k])` of gene 0 is set to `j < 17 ? 1 : 0`. */
    method FillCell(inFields: seq<nat>, i: nat, j: nat, k: nat)
      requires pool.Valid() && inFields == pool.inMask && pool.inMask == Fields && 1 <= |pool.genePool|
      requires Covers(pool.Words[0], Fields) && InCube(Fields, i, j, k)
      modifies pool, pool.Storage
      ensures pool.Valid() && pool.genePool == old(pool.genePool)
      ensures pool.Fitnesses == old(pool.Fitnesses) && pool.Storage == old(pool.Storage)
      ensures Cell(Fields, i, j, k) / WordBits < |old(pool.Words[0])|
      ensures pool.Words == old(pool.Words)[0 := WithBit(old(pool.Words[0]), Cell(Fields, i, j, k), Hit(j))]
    {
      pool.WordsShape();
      CellInWords(pool.Words[0], Fields, i, j, k);
      var index := pool.CalcIndex([i, j, k]);
      if j < 17 {
        pool.Set(0, index, 1);
      } else {
        pool.Set(0, index, 0);
      }
    }
  }

  /** The scores of the games played. */
  function Outcomes(games: seq<(seq<Card>, seq<Card>)>): (r: seq<nat>)
    ensures |r| == |games| && forall k :: 0 <= k < |r| ==> r[k] == Outcome(games[k].0, games[k].1)
  {
    seq(|games|, k requires 0 <= k < |games| => Outcome(games[k].0, games[k].1))
  }

  /**
   * The cards of one game in the order the deck gives them: player, dealer,
   * player, dealer, then the player's draws, then the dealer's.
   */
  function DealOrder(player: seq<Card>, dealer: seq<Card>): (cs: seq<Card>)
    requires 2 <= |player| && 2 <= |dealer|
    ensures |cs| == |player| + |dealer| && multiset(cs) == multiset(player) + multiset(dealer)
  {
    assert player == [player[0], player[1]] + player[2..];
    assert dealer == [dealer[0], dealer[1]] + dealer[2..];
    [player[0], dealer[0], player[1], dealer[1]] + player[2..] + dealer[2..]
  }

  /** The cards of a run of games, game after game. */
  function GamesDealt(games: seq<(seq<Card>, seq<Card>)>): (cs: seq<Card>)
    requires forall k :: 0 <= k < |games| ==> 2 <= |games[k].0| && 2 <= |games[k].1|
  {
    if |games| == 0 then []
    else GamesDealt(games[..|games| - 1]) + DealOrder(games[|games| - 1].0, games[|games| - 1].1)
  }

  /** One more game played by the rules keeps every game played by them, and adds its outcome to the sum. */
  lemma GamesNext(gene: seq<nat>, games: seq<(seq<Card>, seq<Card>)>, player: seq<Card>, dealer: seq<Card>)
    requires forall k :: 0 <= k < |games| ==> Played(gene, games[k].0, games[k].1)
    requires Played(gene, player, dealer)
    ensures forall k :: 0 <= k < |games| + 1 ==>
      Played(gene, (games + [(player, dealer)])[k].0, (games + [(player, dealer)])[k].1)
    ensures forall k :: 0 <= k < |games| + 1 ==>
      2 <= |(games + [(player, dealer)])[k].0| && 2 <= |(games + [(player, dealer)])[k].1|
    ensures Sum(Outcomes(games + [(player, dealer)])) == Sum(Outcomes(games)) + Outcome(player, dealer)
  {
    assert Outcomes(games + [(player, dealer)])[..|games|] == Outcomes(games);
  }

  /** The deal followed by the turns draws the game's cards in `DealOrder`. */
  lemma GameDealt(orders: nat -> seq<Card>, s0: DeckState, first: seq<Card>, s1: DeckState,
                  player: seq<Card>, dealer: seq<Card>, s2: DeckState)
    requires 2 <= |player| && 2 <= |dealer| && first == [player[0], dealer[0], player[1], dealer[1]]
    requires DrawsFrom(orders, s0, first, s1) && DrawsFrom(orders, s1, player[2..] + dealer[2..], s2)
    ensures DrawsFrom(orders, s0, DealOrder(player, dealer), s2)
  {
    DrawsConcat(orders, s0, first, s1, player[2..] + dealer[2..], s2);
    assert DealOrder(player, dealer) == first + (player[2..] + dealer[2..]);
  }

  /** One more game played from where the earlier ones left the deck. */
  lemma GamesDealtNext(orders: nat -> seq<Card>, s0: DeckState, games: seq<(seq<Card>, seq<Card>)>, s1: DeckState,
                       player: seq<Card>, dealer: seq<Card>, s2: DeckState)
    requires forall k :: 0 <= k < |games| ==> 2 <= |games[k].0| && 2 <= |games[k].1|
    requires 2 <= |player| && 2 <= |dealer|
    requires DrawsFrom(orders, s0, GamesDealt(games), s1) && DrawsFrom(orders, s1, DealOrder(player, dealer), s2)
    ensures DrawsFrom(orders, s0, GamesDealt(games + [(player, dealer)]), s2)
  {
    assert (games + [(player, dealer)])[..|games|] == games;
    DrawsConcat(orders, s0, GamesDealt(games), s1, DealOrder(player, dealer), s2);
  }

  /** The hard total of the opening two cards. */
  lemma TwoCards(cs: seq<Card>)
    requires |cs| == 2
    ensures Hard(cs) == Value(cs[0]) + Value(cs[1]) && Hard(cs) <= 20
  {
    assert cs[1..][1..] == [] && cs[1..][0] == cs[1];
    assert Hard(cs[1..]) == Value(cs[1]) + Hard(cs[1..][1..]);
  }

  /** A card drawn on a decision of 1 from a hand within 21 joins the draws the player rule allows. */
  lemma HitKept(gene: seq<nat>, before: seq<Card>, after: seq<Card>, dealer: seq<Card>, n0: nat)
    requires |gene| >= 64 && |dealer| == 2 && n0 <= |before| && |after| == |before| + 1 && after[..|before|] == before
    requires forall k :: n0 <= k < |before| ==> Score(before[..k]) <= 21 && Decision(gene, before[..k], dealer) == 1
    requires Score(before) <= 21 && Decision(gene, before, dealer) == 1
    ensures forall k :: n0 <= k < |after| ==> Score(after[..k]) <= 21 && Decision(gene, after[..k], dealer) == 1
  {
    Prefixes(before, after, n0);
  }

  /** Extending a hand by one card keeps its shorter prefixes. */
  lemma Prefixes(before: seq<Card>, after: seq<Card>, n: nat)
    requires |after| == |before| + 1 && after[..|before|] == before && n <= |before|
    ensures after[..n] == before[..n]
    ensures forall k :: n <= k <= |before| ==> after[..k] == before[..k]
  {
  }
}
