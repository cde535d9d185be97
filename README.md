# ruby-gene in Dafny

A model of the genetic-algorithm engine of ruby-gene and of its two evaluators, with proofs of what each operation does.

- `words.dfy` (module `Words`) covers Ruby's unbounded Integer operations `&`, `|`, `^`, `<<` and `>>` on non-negative numbers. Each is defined one binary digit at a time. Every operation has a lemma that gives each digit of its result. The word width is fixed at 64 (`0.size * 8`).
- `bits.dfy` (module `BitVectors`) covers the `Bits` store of bits.rb.
  - A string of `size` bits is packed into `ceil(size / 64)` words.
  - Every mask expression of the source is written as a function on one word and on a sequence of words, with lemmas naming the bits it changes.
  - The class `Bits` keeps the word array as an `array<nat>` and updates it in place. Each method is proved to leave exactly the words the functions describe.
  - The self-test of bits.rb is proved as lemmas.
- `gene.dfy` (module `Genes`) covers `Gene` and `GenePool` of gene.rb.
  - The operators are stated first as functions of the genes' words and fitnesses: the index encoding `calcIndex`, crossover, mutation, the running best of `fitness`, the roulette wheel of `selection`, and the offspring of `reproduction`.
  - The classes then perform them in place.
  - A `GenePool` keeps ghost fields `Words` and `Fitnesses` that mirror its genes, so its methods are specified by those functions.
- `blackjack.dfy` (module `Blackjack`) covers blackj.rb: cards, the deck and its cursor, hand evaluation, the dealer rule, the outcome chain, a game played by a gene, `fitness`, and `headStart`.
  - A deck's cards, cursor and shuffle count form a value `DeckState`. `Step` is one `next`, and `Dealt` and `After` give the cards and the state after n of them.
  - `DrawsFrom(orders, s0, drawn, s)` says that from s0 the deck returned exactly `drawn` and was left in s. The deal, both turns, `play` and `fitness` use it to say which of the deck's cards each hand receives.
- `onemax.dfy` (module `OneMax`) covers the one-max evaluator of onemax.rb.

Randomness is an explicit input, and the model does not describe its distribution:
- The constructor's `rand(wordMax)` is a function `draw(i, j)`.
- `mutate`'s `rand < rate` is one boolean per bit.
- Each slot of `reproduction` takes a `Draw` record: parents, whether to cross, the crossover point and the bit flips.
- The n-th `shuffle!` of a deck leaves it in the order `orders(n)`, which can be any arrangement of the 52 cards.

The evaluator that `GenePool#fitness` calls is represented by the sequence of scores it returns. The two evaluators are modelled separately, as `Blackjack.Game.Fitness` and `OneMax.Game.Fitness`.

Where the code departs from the documented design of the system, the model follows the code:
- `result` returns the single bit at `calcIndex(inFields)`, not a field as wide as the output (gene.rb:173-175).
- `reproduction` gives slot 0 the elite's bits only. The slot keeps its own fitness (gene.rb:230, bits.rb:82-84).
- `selection` with a total fitness of 0 divides by zero and raises (`NaN.to_i`), so `Selection` requires `totalFitness > 0`. It does not make every share zero.
- Crossover at an index equal to the gene length, when that length is a multiple of 64, reads past the last word. `Crossover` and `Cross` require `index / 64` to be a word of the gene.
- `duplicate` reads `from` at every word index of the receiver. It requires `from` to have at least as many words, not exactly as many.

Two behaviours of the code that the model keeps as written:
- In blackj.rb, the ace count has a 2-bit field in the lookup `[aces, score, showing]`. A hand of four aces therefore reads the same cell as a hand with no ace and score 15 (`Blackjack.AceFieldOverflow`).
- Hand evaluation adds 10 once for each ace while the total stays within 21. Because every ace already counts 1, a second 10 never fits (`Blackjack.Hand.PromoteAces`).

## Model

| member | source | states |
|---|---|---|
| `Words.BitAnd` | bits.rb:26 | digit i of `x & y` is 1 exactly when digit i of both is 1 |
| `Words.BitOr` | bits.rb:24 | digit i of `x \| y` is 1 exactly when digit i of either is 1 |
| `Words.BitXor` | bits.rb:34 | digit i of `x ^ y` is 1 exactly when the digits differ |
| `Words.BitShl` | bits.rb:33 | digit i of `x << s` is 0 below s and digit i - s of x from s on |
| `Words.BitShr` | bits.rb:65 | digit i of `x >> s` is digit i + s of x |
| `Words.BitLow` | bits.rb:32 | `2**n - 1` has ones exactly in its n low digits |
| `Words.BitOne` | bits.rb:15 | `1 << j` has a single one, at digit j |
| `Words.BitXorMask` | bits.rb:13 | the xor mask `wordMax - 1` has ones exactly in the 64 word positions |
| `Words.BitExt` | bits.rb:47 | two integers with the same digits are equal |
| `Words.Pow2WordBits` | bits.rb:11-12 | `wordMax` is `2 ** wordBits` with 64-bit words |
| `BitVectors.NumWordsFor` | bits.rb:17 | `size / 64 + min(size % 64, 1)` is `ceil(size / 64)`: enough words for size bits and no spare word |
| `BitVectors.TestBitIsBit` | bits.rb:47 | the mask test `w & bitMask[j] > 0 ? 1 : 0` reads digit j |
| `BitVectors.SetOneBit` | bits.rb:24 | or-ing `bitMask[j]` sets digit j and keeps every other digit |
| `BitVectors.SetZeroBit` | bits.rb:26 | and-ing `bitMask[j] ^ xorMask` clears digit j, keeps the other word digits and clears everything above the word |
| `BitVectors.FieldMaskBit` | bits.rb:32-33 | `(2**n - 1) << off` has ones exactly at digits off to off + n - 1 |
| `BitVectors.GetFieldBit` | bits.rb:62-65 | digit k of `get` is digit off + k of the word for k < n, and 0 above |
| `BitVectors.SetFieldBit` | bits.rb:32-37 | for a field inside the word and a value below `2**n`: `set` writes v's digits into the field, keeps the rest of the word and clears digits above it |
| `BitVectors.FlipWordBit` | bits.rb:52-57 | flip complements digit j of the word and nothing else |
| `BitVectors.SetOneBelow` | bits.rb:24 | setting a bit keeps a word below `2**64` |
| `BitVectors.SetZeroBelow` | bits.rb:26 | clearing a bit leaves a word below `2**64` |
| `BitVectors.SetFieldBelow` | bits.rb:35-37 | `set` of a value below `2**n` inside the word leaves it below `2**64` |
| `BitVectors.ZerosBits` | bits.rb:18 | every bit of a fresh string is 0 |
| `BitVectors.WithBitAt` | bits.rb:22-28 | after `self[i] = v`, bit i is 1 when v is 1 and 0 otherwise, and every other bit is unchanged |
| `BitVectors.WithBitBelow` | bits.rb:22-28 | `self[i] = v` keeps every word below `2**64` |
| `BitVectors.FlippedAt` | bits.rb:51-58 | `flip(i)` complements bit i and no other |
| `BitVectors.FlippedBelow` | bits.rb:51-58 | `flip` keeps every word below `2**64` |
| `BitVectors.FlipTwice` | bits.rb:51-58 | `flip(i)` twice restores the words |
| `BitVectors.FieldAtBits` | bits.rb:61-67 | inside one word, bit k of `get(i, n)` is bit i + k of the string |
| `BitVectors.FieldAtBound` | bits.rb:61-67 | `get(i, n)` is below `2**n` |
| `BitVectors.DigitsValue` | bits.rb:61-67 | a number below `2**n` is the sum of its n low digits times their weights |
| `BitVectors.FieldAtSum` | bits.rb:61-67 | inside one word, `get(i, n)` is the sum over k < n of `bit(i + k) * 2**k` |
| `BitVectors.WithFieldAt` | bits.rb:30-38 | after `set(i, n, v)` inside one word with v below `2**n`, bits i to i + n - 1 hold v's digits and every other bit is unchanged |
| `BitVectors.FieldRoundTrip` | bits.rb:60-67 | `get(i, n)` after `set(i, n, v)` returns v |
| `BitVectors.WithFieldBelow` | bits.rb:30-38 | `set` keeps every word below `2**64` |
| `BitVectors.SelfTestGet` | bits.rb:115-128 | with bits 0, 5 and 7 set in a 100-bit string: bit 5 is 1, `get(0, 8) == 161` and `get(5, 3) == 5` |
| `BitVectors.SelfTestFlip` | bits.rb:129-135 | after `flip(7)`: `get(5, 3) == 1` and `getWord(0) == 33` |
| `BitVectors.Bits.constructor` | bits.rb:10-19 | `ceil(size / 64)` words, all 0 |
| `BitVectors.Bits.SetAt` | bits.rb:22-28 | `self[index] = value` leaves exactly the words of `WithBit` |
| `BitVectors.Bits.Set` | bits.rb:30-38 | `set` leaves exactly the words of `WithField`, and the words stay below `2**64` |
| `BitVectors.Bits.SetWord` | bits.rb:41-43 | `setWord` replaces that word only |
| `BitVectors.Bits.At` | bits.rb:46-48 | `self[index]` is bit index of the string |
| `BitVectors.Bits.Flip` | bits.rb:51-58 | `flip` leaves exactly the words of `Flipped` |
| `BitVectors.Bits.Get` | bits.rb:61-67 | `get` is the field value, below `2**numBits`, and inside one word the weighted sum of its bits |
| `BitVectors.Bits.GetWord` | bits.rb:70-72 | `getWord(w)` is word w, below `2**64`; with `SetWord`, `setWord` then `getWord` returns the value written |
| `BitVectors.Bits.Duplicate` | bits.rb:82-84 | every word becomes the same word of `from`, and `from` is unchanged |
| `BitVectors.Bits.Each` | bits.rb:87-89 | yields bit 0 to bit size - 1 in order |
| `BitVectors.Bits.EachIndex` | bits.rb:92-94 | yields 0 to size - 1 in order |
| `BitVectors.Bits.NumWords` | bits.rb:107-109 | `numWords` is `ceil(size / 64)` |
| `Genes.ShlIsMul` | gene.rb:166 | `x << s` is `x * 2**s` |
| `Genes.BitOfSum` | gene.rb:166 | adding `y << s` to a number below `2**s` puts y's digits from digit s up |
| `Genes.IndexBound` | gene.rb:162-170 | when every field fits its width, `calcIndex` lies in `[0, 2**inLen)` |
| `Genes.IndexDigits` | gene.rb:162-170 | digit k of field i is digit `mask[0] + ... + mask[i-1] + k` of the index |
| `Genes.IndexInjective` | gene.rb:162-170 | when every field fits its width, different fields give different indices |
| `Genes.IndexExtend` | gene.rb:164-168 | the loop reads only as many fields as the mask has, so fields past them do not change the index |
| `Genes.SplitLast` | gene.rb:166-167 | a number below `2**(s+n)` is its low s digits plus its high part shifted by s, and the high part is below `2**n` |
| `Genes.IndexOnto` | gene.rb:162-170 | every number below `2**inLen` is `calcIndex` of fields that fit their widths (`Split`), so with `IndexBound` the indices are exactly `[0, 2**inLen)` |
| `Genes.IndexExample` | blackj.rb:253 | with widths `[2, 5, 5]` the index of `[0, 1, 0]` is 4 |
| `Genes.CrossWordBit` | gene.rb:105-109 | the partial word takes the other gene's bits below the point and keeps its own from it on |
| `Genes.CrossedBits` | gene.rb:96-110 | after `crossover(A, B, k)`, bit i of A is B's old bit for i < k and A's own from k on, and B the reverse |
| `Genes.CrossedFrame` | gene.rb:99-109 | words above word `k / 64` are never written, and every word stays below `2**64` |
| `Genes.CrossWordTwice` | gene.rb:105-109 | exchanging the low bits of a word pair twice restores both words |
| `Genes.CrossedTwice` | gene.rb:96-110 | crossing again at the same point restores both genomes |
| `Genes.MutatedBits` | gene.rb:113-119 | mutation flips exactly the bits whose draw says so, and keeps words below `2**64` |
| `Genes.BestIsFirstMax` | gene.rb:178-192 | `bestFitness` is the largest score (0 if none is positive); `bestGene` is the first id reaching it, or 0 when every score is 0 |
| `Genes.WheelToPrefix` | gene.rb:204-210 | building the wheel gene after gene gives the wheel of the genes seen |
| `Genes.WheelShape` | gene.rb:204-210 | the wheel has `sum floor(f_i * n / T)` entries, grouped by id in ascending order |
| `Genes.SelectionExample` | gene.rb:204-210 | fitnesses `[1, 1, 1, 1]` with total 4 give one copy of each gene |
| `Genes.SharesBelow` | gene.rb:205-206 | the sum of the floored shares is at most the floor of `sum(f) * n / T` |
| `Genes.SharesBound` | gene.rb:204-210 | when the fitnesses add up to at most T, the wheel holds at most n entries |
| `Genes.OffspringBits` | gene.rb:217-228 | bit j of a slot is dad's bit below the crossover point and mom's from it on (mom's everywhere without crossover), complemented where the flip draw says so |
| `Genes.ChildBits` | gene.rb:220-226 | the same bit-by-bit description for the scratch gene mom |
| `Genes.Gene.constructor` | gene.rb:11-14 | a new gene has every bit 0 and fitness 0 |
| `Genes.GenePool.WordsShape` | gene.rb:48 | every gene holds `ceil(geneLen / 64)` words below `2**64` |
| `Genes.GenePool.constructor` | gene.rb:34-55 | `size` genes of `2**inLen * outLen` bits with fitness 0; with `randomize`, word j of gene i is the draw `draw(i, j)`, otherwise 0; best gene and best fitness 0 |
| `Genes.GenePool.Randomize` | gene.rb:50-52 | word j of the gene becomes the draw for (i, j) |
| `Genes.GenePool.Clear` | gene.rb:58-61 | no genes are left and `size` is 0 |
| `Genes.GenePool.Add` | gene.rb:64-69 | one gene is appended with the added gene's words and fitness; `size` grows by one and the existing genes are untouched |
| `Genes.GenePool.CopyOf` | gene.rb:65-67 | the new gene has the given gene's first words and its fitness |
| `Genes.GenePool.AddCopies` | gene.rb:207-209 | n copies of the gene are appended |
| `Genes.GenePool.SwapWords` | gene.rb:99-104 | the words below w change places between the genes |
| `Genes.GenePool.SwapWord` | gene.rb:100-103 | word i trades places between the two genes, and no other word changes |
| `Genes.GenePool.Crossover` | gene.rb:96-110 | the two genes hold exactly the words of `Crossed` |
| `Genes.GenePool.Cross` | gene.rb:79-93 | crossover by id: the two genes of the pool hold the words of `Crossed`, and nothing else changes |
| `Genes.GenePool.Mutate` | gene.rb:113-119 | the gene holds exactly the words of `Mutated` for the flip draws |
| `Genes.GenePool.Set` | gene.rb:130-133 | gene geneID's words become `WithBit`; no other gene changes |
| `Genes.GenePool.Get` | gene.rb:136-139 | bit index of gene geneID |
| `Genes.GenePool.SetMult` | gene.rb:142-145 | gene geneID's words become `WithField`; no other gene changes |
| `Genes.GenePool.GetMult` | gene.rb:148-151 | the field of gene geneID, below `2**numBits` |
| `Genes.GenePool.CalcIndex` | gene.rb:162-170 | the loop computes the sum of `inFields[i] << (mask[0] + ... + mask[i-1])` |
| `Genes.GenePool.Result` | gene.rb:173-175 | the single bit of the gene at `calcIndex(inFields)` |
| `Genes.GenePool.Fitness` | gene.rb:178-192 | each gene's fitness becomes its score, the sum of the scores is returned, the best is recorded as `Best`, and no gene's words change |
| `Genes.GenePool.Score` | gene.rb:182-190 | the loop stores each score in id order and keeps the running sum and first best |
| `Genes.GenePool.Selection` | gene.rb:199-211 | the mating pool is the best gene followed by the wheel; entry by entry it carries the copied gene's words and fitness |
| `Genes.GenePool.Elite` | gene.rb:200-202 | the cleared mating pool receives one copy of the best gene |
| `Genes.GenePool.Roulette` | gene.rb:204-210 | the wheel's copies are appended in id order |
| `Genes.GenePool.Spin` | gene.rb:205-209 | one gene's `floor(f * n / T)` copies are appended after the earlier ones |
| `Genes.GenePool.Breed` | gene.rb:220-226 | the scratch gene mom holds the child of its draw |
| `Genes.GenePool.Reproduction` | gene.rb:214-231 | slot 0 gets mating-pool entry 0's words; every other slot gets the offspring of its draw; no fitness changes |
| `Genes.GenePool.Generation` | gene.rb:215-228 | every slot receives the offspring of its draw, and the mating pool is untouched |
| `Genes.GenePool.Restore` | gene.rb:230 | gene 0 receives mating-pool entry 0's words, and nothing else changes |
| `Genes.GenePool.Renew` | gene.rb:218-227 | one slot receives the offspring of its draw |
| `Genes.GenePool.Store` | gene.rb:227 | the slot's words become the scratch gene's words |
| `Genes.GenePool.CopyGene` | blackj.rb:238 | gene `to` receives gene `from`'s words, and nothing else changes |
| `Genes.GenePool.BestFit` | gene.rb:194-196 | in the state `fitness` leaves, `bestFit` is a gene of the pool whose fitness is the largest, and every gene before it has a smaller fitness (0 for an empty pool) |
| `Blackjack.FullDeckCards` | blackj.rb:38-43 | a fresh deck holds a card exactly for each suit 0..3 and rank 0..12 |
| `Blackjack.FullDeckDistinct` | blackj.rb:38-43 | the 52 cards of a fresh deck are all different |
| `Blackjack.Deck.constructor` | blackj.rb:41-44 | the deck is the first shuffle of the 52 cards, cursor 52 |
| `Blackjack.Deck.NewCards` | blackj.rb:42 | the cards are appended suit by suit, rank by rank |
| `Blackjack.Deck.Shuffle` | blackj.rb:55-58 | the cards are reordered (the same multiset) and the cursor is 52 |
| `Blackjack.Deck.Next` | blackj.rb:46-53 | the deck moves to the state `Step` gives: the cursor drops by one, or past 0 the next order is dealt from 51; the card under the new cursor is returned, with the cursor in 0..51 |
| `Blackjack.DrawsNext` | blackj.rb:46-53 | one more `next` extends the cards drawn from a state by the card it returns |
| `Blackjack.AfterAdd` | blackj.rb:46-53 | n calls of `next` after m calls are m + n calls, and the cards they return follow the first m |
| `Blackjack.DrawsConcat` | blackj.rb:46-53 | two stretches of drawing from the same deck, one after the other, draw their cards in sequence |
| `Blackjack.DealtDownwards` | blackj.rb:46-53 | between shuffles the i-th card drawn is the card at position `top - 1 - i`, and the cursor ends n lower |
| `Blackjack.DealtReshuffles` | blackj.rb:46-52 | with the cursor at 0 the next card is card 51 of the next shuffle's order, and the cursor restarts at 51 |
| `Blackjack.Value` | blackj.rb:89-92 | a card counts 1 to 10, and 1 exactly when it is an ace |
| `Blackjack.Score` | blackj.rb:98-101 | the score lies between the hard total and the hard total plus 10, and is over 21 exactly when the hard total is |
| `Blackjack.Showing` | blackj.rb:93-105 | for the dealer's opening two cards, the showing total is at most 21 |
| `Blackjack.AcesBelowHard` | blackj.rb:90-92 | a hand has no more aces than hard points |
| `Blackjack.DrawCard` | blackj.rb:72-75 | a new card adds its value to the hard total and one to the ace count when it is an ace |
| `Blackjack.Outcome` | blackj.rb:181-209 | the result is 0, 1 or 2; a dealer natural pushes against a player natural and wins otherwise; a lone player natural wins; a player over 21 always loses; otherwise, without naturals and with the player within 21, a dealer over 21 loses, and with both within 21 the higher score wins and equal scores push |
| `Blackjack.LookupValue` | blackj.rb:149 | `calcIndex([a, s, h])` is `a + 4 s + 128 h` for the mask `[2, 5, 5]` |
| `Blackjack.AceFieldOverflow` | blackj.rb:149 | four aces with score 14 read the same cell as no ace with score 15 |
| `Blackjack.LookupBound` | blackj.rb:149 | while no total exceeds 21, every lookup is within the first 64 words of the gene |
| `Blackjack.FieldsWidth` | blackj.rb:252-254 | the mask `[2, 5, 5]` spans 12 bits, 4096 cells |
| `Blackjack.CellBound` | blackj.rb:228 | a cell of the cube lies below `2**inLen` |
| `Blackjack.CellInjective` | blackj.rb:228 | different cells of the cube are different bits |
| `Blackjack.RowBits` | blackj.rb:227-234 | after the row, its cells hold the answer for total j and every other cell is unchanged |
| `Blackjack.PlaneBits` | blackj.rb:226-235 | after the plane, its cells hold the answer for their totals and every other cell is unchanged |
| `Blackjack.CubeBits` | blackj.rb:225-236 | after n planes, every cell of those planes holds 1 when its total is below 17 and 0 otherwise |
| `Blackjack.FilledTable` | blackj.rb:224-236 | after the whole fill, gene 0's bit at `calcIndex([i, j, k])` is 1 exactly when j < 17 |
| `Blackjack.RowFrame` | blackj.rb:227-234 | bits past the cube are never written by a row |
| `Blackjack.PlaneFrame` | blackj.rb:226-235 | bits past the cube are never written by a plane |
| `Blackjack.CubeFrame` | blackj.rb:225-236 | bits past the cube are never written by the fill |
| `Blackjack.Hand.constructor` | blackj.rb:65-70 | a new hand has no cards and every total 0 |
| `Blackjack.Hand.Next` | blackj.rb:72-75 | the deck takes one `Step`, the card it returns joins the hand, and the totals are those of the new hand |
| `Blackjack.Hand.Evaluate` | blackj.rb:81-106 | `score`, `aces` and `showing` become the score of the hand, its ace count and the score of cards 1 onwards (0 for one card) |
| `Blackjack.Hand.PromoteAces` | blackj.rb:98-104 | the ace loop raises the total by 10 at most once, exactly when there is an ace and the total plus 10 is at most 21 |
| `Blackjack.Game.constructor` | blackj.rb:125-129 | the game holds the pool, the cycle count and a fresh deck |
| `Blackjack.Game.GeneRoom` | blackj.rb:252-254 | every gene of a pool with the mask `[2, 5, 5]` and at least one output bit holds at least 64 words |
| `Blackjack.Game.Ask` | blackj.rb:149 | the gene's bit for `[aces, score, showing]` |
| `Blackjack.Game.Deal` | blackj.rb:132-137 | two cards each, with the totals evaluated; the deck's next four cards go to player, dealer, player and dealer |
| `Blackjack.Game.DealRound` | blackj.rb:134-135 | the player and then the dealer each receive the deck's next card |
| `Blackjack.Game.Draw` | blackj.rb:152 | a draw during a turn adds one card from the deck, raises the hard total by the card's value and keeps the cards held before |
| `Blackjack.HitKept` | blackj.rb:149-152 | a card drawn on a decision of 1 from a hand within 21 keeps the player rule for every draw so far |
| `Blackjack.Game.PlayerTurn` | blackj.rb:146-160 | each card drawn followed a decision of 1 at a total within 21, and the player stopped over 21 or on a decision of 0; the cards drawn are the deck's next cards |
| `Blackjack.Game.DealerTurn` | blackj.rb:163-174 | each dealer card was drawn under 17 or on 17 with an ace, and the dealer stopped when that no longer held; the cards drawn are the deck's next cards |
| `Blackjack.Game.Turns` | blackj.rb:144-175 | the player plays unless a first hand is 21; the dealer plays only when, in addition, the player is under 21 or reached 21 with more than two cards; the deck gives the player's draws, then the dealer's |
| `Blackjack.DealOrder` | blackj.rb:132-175 | a game's cards in the order the deck gives them are the cards of the two hands, no more and no fewer |
| `Blackjack.GameDealt` | blackj.rb:132-175 | the deal followed by the turns draws the game's cards in `DealOrder` |
| `Blackjack.Game.Play` | blackj.rb:131-210 | the result is the outcome of the final hands; the hands follow the deal, the player rule and the dealer rule (`Played`); the deck gives their cards in `DealOrder` |
| `Blackjack.GamesNext` | blackj.rb:216-218 | one more game played by the rules keeps all games played by the rules and adds its outcome to the sum |
| `Blackjack.GamesDealtNext` | blackj.rb:216-218 | a game played from where the earlier ones left the deck continues their cards |
| `Blackjack.Game.NextGame` | blackj.rb:216-218 | one pass of the loop plays a game by the rules, from where the earlier games left the deck, and adds its outcome |
| `Blackjack.Game.Fitness` | blackj.rb:213-221 | the score is the sum of `cycles` game outcomes, between 0 and `2 * cycles`; every game follows the rules of `play` for this gene (`Played`); the games draw the deck's cards one after another (`GamesDealt`) |
| `Blackjack.Game.HeadStart` | blackj.rb:224-240 | gene 0 holds the filled table, genes 1 to `cycles / 4` hold copies of it, and the other genes and every fitness are unchanged |
| `Blackjack.Game.FillCube` | blackj.rb:225-236 | gene 0 holds the fill of every plane |
| `Blackjack.Game.FillPlane` | blackj.rb:226-235 | gene 0 holds the fill of one plane |
| `Blackjack.Game.FillRow` | blackj.rb:227-234 | gene 0 holds the fill of one row, and the other genes are unchanged |
| `Blackjack.Game.FillCell` | blackj.rb:228-233 | the one bit of gene 0 at `calcIndex([i, j, k])` becomes 1 when j < 17 and 0 otherwise, and nothing else changes |
| `OneMax.OnesAll` | onemax.rb:15-21 | the score equals the gene length exactly when every bit is 1 |
| `OneMax.OnesNone` | onemax.rb:15-21 | the score is 0 exactly when every bit is 0 |
| `OneMax.OneMaxLength` | onemax.rb:35-36 | with `inFields [8]` and `outField [1]` a gene has 256 bits, the score at which the driver stops |
| `OneMax.Game.constructor` | onemax.rb:10-12 | the game holds the pool |
| `OneMax.Game.Fitness` | onemax.rb:15-21 | the score is the number of 1 bits of the gene, at most its length, and nothing is written |

## Left out

- `Bits#print`, `Gene#print`, `GenePool#print`, `Card#to_s` and `Card#pretty` are printing only.
- The `test` drivers are not modelled as code. Their expected values are proved as `SelfTestGet`, `SelfTestFlip` and `IndexExample`.
- The driver scripts of blackj.rb and onemax.rb, with their generation loops, averages and console output, are not modelled. Only their constants are used: `OneMaxLength` and `FieldsWidth`.
- `GenePool#each`, `GenePool#each_index` and `GenePool#[]` are not separate members. The model reads the field `genePool` directly.
- `wordBits` and `wordMax` are the constants `WordBits` and `WordMax`.
- The shared mask table `@bitMask` is the function `BitMask`.
- Fixnum versus Bignum storage is not modelled. Words are unbounded naturals kept below `2**64` by the `Bits` invariant, and `SetWord` requires a value below `2**64`.
- `Bits.Set`: when a field crosses a word boundary, the source writes a wrong masked value. The model requires the field to lie inside one word. It also requires the value to fit the field, because the source does not mask an oversized value.
- `Bits.Get`: the weighted-sum reading is stated only for a field inside one word.
- `Bits.Duplicate` requires `from` to have at least as many words. A shorter source makes the Ruby code read `nil`.
- `Genes.GenePool.Selection`: the share is the exact integer `floor(f * n / T)`. The source computes it in floating point and truncates, which can differ by rounding.
- `Genes.GenePool.Selection` requires `T > 0`, where the source raises.
- `Genes.GenePool.Selection` states that the mating pool's genes and arrays are separate from the pool's, not that they are newly allocated.
- `Genes.GenePool.Reproduction` states the words of every slot. Fitness is left as it was, as in the source; the modelled fitnesses are stale until the next `fitness` pass.
- Reproduction requires at least two genes, because the source reads `@genePool[1]`. Each draw must name parents inside the mating pool and a point inside the gene.
- `Genes.GenePool.Cross` and `Genes.GenePool.Crossover` require the crossover point's word to exist. At `k == size`, with size a multiple of 64, the source indexes past the last word.
- `Genes.GenePool.Fitness` takes the evaluator's scores as a sequence, so it does not model the calls into the evaluator or their order.
- Randomness is modelled as explicit draws with no probabilities.
- `Blackjack.Game` is fixed to pools laid out for the lookup `[aces, score, showing]`: mask `[2, 5, 5]` and at least one output bit, as in the blackjack driver. For other masks the source's lookups can fall outside the gene.
- `Blackjack.Game.HeadStart` requires `inFields` to equal the pool's mask. It also requires `cycles / 4` to be below the pool size, because otherwise the source calls `duplicate` on `nil`.
- Ruby's `Array#shuffle!` is the oracle `orders`, so the model says nothing about how shuffles are distributed.
