/**
 * Building the board's deck: the 8-symbol catalogue is doubled
 * (`Array.prototype.repeat`) and then shuffled in place
 * (`Array.prototype.shuffle`), index.js:5-17 and 536.
 *
 * `Math.random` is an oracle: `rand[i]` is the index that
 * `Math.floor(Math.random() * i)` produced at loop step `i`, so
 * `0 <= rand[i] < i`.  The partner is strictly below `i`, which makes the
 * shuffle Sattolo's algorithm.
 */
module Deck {

  /** A catalogue entry (the `Card` class, index.js:27-34); the long
      `meaning` text is only shown by the symbol panel and is left out. */
  datatype Card = Card(id: nat, symbolName: string, src: string)

  /** The fixed catalogue of `model.cards`, index.js:40-65. */
  const Catalogue: seq<Card> := [
    Card(1, "Ankh", "images/ankh.jpg"),
    Card(2, "Djed", "images/djed.jpg"),
    Card(3, "Wadjet Eye", "images/wadjet-eye.jpg"),
    Card(4, "Was Sceptre", "images/was-sceptre.jpg"),
    Card(5, "Feather Of Maat", "images/feather-of-maat.jpg"),
    Card(6, "Egyptian Ouroboros", "images/ouroboros.jpg"),
    Card(7, "BA symbol", "images/ba-symbol.jpg"),
    Card(8, "Amenta", "images/amenta.jpg")
  ]

  /** Number of cards on the board: the catalogue twice. */
  const DeckSize := 16

  /** `repeatCount` copies of `s`, one after another. */
  function Repeat<T>(s: seq<T>, repeatCount: nat): (r: seq<T>)
    ensures |r| == repeatCount * |s|
  {
    if repeatCount == 0 then [] else
      var rest := Repeat(s, repeatCount - 1);
      MulPred(repeatCount, |s|);
      s + rest
  }

  lemma MulPred(n: nat, m: nat)
    requires n > 0
    ensures n * m == (n - 1) * m + m
  {
  }

  /** Every element occurs `repeatCount` times as often as in the original. */
  lemma {:induction false} RepeatMultiset<T>(s: seq<T>, repeatCount: nat, x: T)
    ensures multiset(Repeat(s, repeatCount))[x] == repeatCount * multiset(s)[x]
  {
    if repeatCount > 0 {
      RepeatMultiset(s, repeatCount - 1, x);
      assert multiset(Repeat(s, repeatCount)) == multiset(s) + multiset(Repeat(s, repeatCount - 1));
      MulPred(repeatCount, multiset(s)[x]);
    }
  }

  /** The random indices are a valid oracle for a loop over `n` elements. */
  predicate RandomOracle(rand: seq<nat>, n: nat) {
    |rand| == n && forall i :: 0 < i < n ==> rand[i] < i
  }

  /** `s` with the elements at `i` and `j` exchanged (the destructuring swap, index.js:14). */
  function Swap<T>(s: seq<T>, i: nat, j: nat): (r: seq<T>)
    requires i < |s| && j < |s|
    ensures |r| == |s| && r[i] == s[j] && r[j] == s[i]
    ensures forall k :: 0 <= k < |s| && k != i && k != j ==> r[k] == s[k]
  {
    s[i := s[j]][j := s[i]]
  }

  /** An exchange keeps the multiset of elements. */
  lemma SwapPermutes<T>(s: seq<T>, i: nat, j: nat)
    requires i < |s| && j < |s|
    ensures multiset(Swap(s, i, j)) == multiset(s)
  {
  }

  /** The swaps of loop steps `i`, `i - 1`, ..., `1` applied to `s`. */
  function ShuffleFrom<T>(s: seq<T>, rand: seq<nat>, i: nat): (r: seq<T>)
    requires i < |s| && RandomOracle(rand, |s|)
    decreases i
  {
    if i == 0 then s else ShuffleFrom(Swap(s, i, rand[i]), rand, i - 1)
  }

  /** The whole shuffle, loop steps `|s| - 1` down to `1`. */
  function Shuffled<T>(s: seq<T>, rand: seq<nat>): (r: seq<T>)
    requires RandomOracle(rand, |s|)
  {
    if |s| == 0 then s else ShuffleFrom(s, rand, |s| - 1)
  }

  /** The shuffle steps only exchange elements: same length, same multiset. */
  lemma {:induction false} ShuffleFromPermutes<T>(s: seq<T>, rand: seq<nat>, i: nat)
    requires i < |s| && RandomOracle(rand, |s|)
    ensures |ShuffleFrom(s, rand, i)| == |s|
    ensures multiset(ShuffleFrom(s, rand, i)) == multiset(s)
    decreases i
  {
    if i > 0 {
      SwapPermutes(s, i, rand[i]);
      ShuffleFromPermutes(Swap(s, i, rand[i]), rand, i - 1);
    }
  }

  /** The shuffle yields a permutation of its input. */
  lemma ShuffledPermutes<T>(s: seq<T>, rand: seq<nat>)
    requires RandomOracle(rand, |s|)
    ensures |Shuffled(s, rand)| == |s|
    ensures multiset(Shuffled(s, rand)) == multiset(s)
  {
    if |s| > 0 {
      ShuffleFromPermutes(s, rand, |s| - 1);
    }
  }

  /** A step never touches positions above the one it is at. */
  lemma {:induction false} ShuffleFromKeepsTail<T>(s: seq<T>, rand: seq<nat>, i: nat, k: nat)
    requires i < k < |s| && RandomOracle(rand, |s|)
    ensures |ShuffleFrom(s, rand, i)| == |s| && ShuffleFrom(s, rand, i)[k] == s[k]
    decreases i
  {
    ShuffleFromPermutes(s, rand, i);
    if i > 0 {
      ShuffleFromKeepsTail(Swap(s, i, rand[i]), rand, i - 1, k);
    }
  }

  /**
   * `Array.prototype.shuffle`, index.js:10-17: for `i` from the last index
   * down to 1, exchange `a[i]` with `a[rand[i]]`, where `rand[i] < i`.
   */
  method Shuffle<T>(a: array<T>, rand: seq<nat>)
    requires RandomOracle(rand, a.Length)
    modifies a
    ensures a[..] == Shuffled(old(a[..]), rand)
    ensures multiset(a[..]) == multiset(old(a[..]))
  {
    var i := a.Length - 1;
    while i > 0
      invariant -1 <= i < a.Length
      invariant i < 0 ==> a.Length == 0
      invariant i >= 0 ==> ShuffleFrom(a[..], rand, i) == Shuffled(old(a[..]), rand)
    {
      var randomIndex := rand[i];
      ghost var before := a[..];
      a[i], a[randomIndex] := a[randomIndex], a[i];
      assert a[..] == Swap(before, i, randomIndex);
      i := i - 1;
    }
    ShuffledPermutes(old(a[..]), rand);
  }

  /** The deck a board render deals: `getCards().repeat(2).shuffle()`. */
  function DealSpec(rand: seq<nat>): (deck: seq<Card>)
    requires RandomOracle(rand, DeckSize)
  {
    Shuffled(Repeat(Catalogue, 2), rand)
  }

  /** No two entries of `cards` share an id. */
  predicate DistinctIds(cards: seq<Card>) {
    forall j, k :: 0 <= j < k < |cards| ==> cards[j].id != cards[k].id
  }

  /** With distinct ids, every card occurs at most once. */
  lemma {:induction false} DistinctIdsOnce(cards: seq<Card>, c: Card)
    requires DistinctIds(cards)
    ensures multiset(cards)[c] == if c in cards then 1 else 0
  {
    if cards != [] {
      var last := |cards| - 1;
      assert cards == cards[..last] + [cards[last]];
      assert DistinctIds(cards[..last]);
      DistinctIdsOnce(cards[..last], c);
      if c == cards[last] {
        assert c !in cards[..last];
      }
    }
  }

  /** The catalogue holds 8 distinct cards whose ids are exactly 1..8. */
  lemma CatalogueIds()
    ensures |Catalogue| == 8
    ensures forall k :: 0 <= k < 8 ==> Catalogue[k].id == k + 1
    ensures DistinctIds(Catalogue)
    ensures forall c :: c in Catalogue ==> multiset(Catalogue)[c] == 1
  {
    forall c | c in Catalogue ensures multiset(Catalogue)[c] == 1 {
      DistinctIdsOnce(Catalogue, c);
    }
  }

  /** A dealt deck has 16 cards, and each catalogue card occurs exactly twice. */
  lemma DealPairs(rand: seq<nat>)
    requires RandomOracle(rand, DeckSize)
    ensures |DealSpec(rand)| == DeckSize
    ensures multiset(DealSpec(rand)) == multiset(Catalogue) + multiset(Catalogue)
    ensures forall c :: c in Catalogue ==> multiset(DealSpec(rand))[c] == 2
    ensures forall c :: c in DealSpec(rand) ==> c in Catalogue
  {
    var doubled := Repeat(Catalogue, 2);
    assert doubled == Catalogue + Catalogue;
    ShuffledPermutes(doubled, rand);
    CatalogueIds();
    forall c | c in DealSpec(rand) ensures c in Catalogue {
      assert c in multiset(DealSpec(rand));
    }
  }

  /** Deals a fresh deck: the doubled catalogue, shuffled in an array. */
  method Deal(rand: seq<nat>) returns (deck: seq<Card>)
    requires RandomOracle(rand, DeckSize)
    ensures deck == DealSpec(rand)
    ensures |deck| == DeckSize
    ensures forall c :: c in Catalogue ==> multiset(deck)[c] == 2
  {
    var doubled := Repeat(Catalogue, 2);
    var a := new Card[DeckSize](k requires 0 <= k < DeckSize => doubled[k]);
    assert a[..] == doubled;
    Shuffle(a, rand);
    deck := a[..];
    DealPairs(rand);
  }
}
