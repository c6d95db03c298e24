/**
 * The deck: an ordered list of cards, built suit by suit, shuffled in place
 * and dealt from the front.
 */
module Decks {
  import opened Options
  import opened Cards

  ghost predicate Distinct(s: seq<Card>)
  {
    forall i, j :: 0 <= i < j < |s| ==> s[i] != s[j]
  }

  /** The 52 cards in construction order: all Clubs two to Ace, then Diamonds, Hearts, Spades. */
  function FullDeck(): (d: seq<Card>)
    ensures |d| == 52
  {
    seq(52, i requires 0 <= i < 52 => Card(i % 13, i / 13))
  }

  /** Exchanges two positions of a sequence. */
  function Swap(s: seq<Card>, a: nat, b: nat): (r: seq<Card>)
    requires a < |s| && b < |s|
    ensures |r| == |s|
  {
    s[a := s[b]][b := s[a]]
  }

  /**
   * What the random source must supply to shuffle n cards: one draw for each
   * i from n down to 2, the draw for i (the k-th, k = n - i) lying in [0, i).
   */
  predicate ShuffleDraws(n: nat, draws: seq<nat>)
  {
    |draws| == (if n == 0 then 0 else n - 1) &&
    forall k :: 0 <= k < |draws| ==> draws[k] < n - k
  }

  /**
   * The first k steps of the shuffle: step j (from 0) has i = n - j, swapping
   * position i - 1 with the j-th draw.
   */
  function ShuffleSteps(s: seq<Card>, draws: seq<nat>, k: nat): (r: seq<Card>)
    requires ShuffleDraws(|s|, draws) && k <= |draws|
    ensures |r| == |s|
  {
    if k == 0 then s
    else Swap(ShuffleSteps(s, draws, k - 1), |s| - k, draws[k - 1])
  }

  /**
   * The order Collections.shuffle leaves the cards in when its random source
   * yields draws: for i from the size down to 2, swap positions i - 1 and the draw.
   */
  function Shuffled(s: seq<Card>, draws: seq<nat>): (r: seq<Card>)
    requires ShuffleDraws(|s|, draws)
    ensures |r| == |s|
  {
    ShuffleSteps(s, draws, |draws|)
  }

  class Deck {
    var cards: seq<Card>

    /** Builds the 52 cards, suit by suit and within a suit rank by rank. */
    constructor ()
      ensures cards == FullDeck()
    {
      var built: seq<Card> := [];
      var suit := 0;
      while suit < 4
        invariant 0 <= suit <= 4
        invariant built == FullDeck()[..13 * suit]
      {
        var rank := 0;
        while rank < 13
          invariant 0 <= rank <= 13
          invariant built == FullDeck()[..13 * suit + rank]
        {
          FullDeckAt(rank, suit);
          built := built + [Card(rank, suit)];
          rank := rank + 1;
        }
        suit := suit + 1;
      }
      cards := built;
    }

    /** Permutes the cards in place, driven by the random draws. */
    method Shuffle(draws: seq<nat>)
      requires ShuffleDraws(|cards|, draws)
      modifies this
      ensures cards == Shuffled(old(cards), draws)
      ensures multiset(cards) == multiset(old(cards)) && |cards| == |old(cards)|
    {
      ShuffledPermutes(cards, draws);
      var n := |cards|;
      var i := n;
      while i > 1
        invariant 0 <= i <= n == |old(cards)| == |cards|
        invariant n > 0 ==> i >= 1
        invariant cards == ShuffleSteps(old(cards), draws, n - i)
      {
        cards := Swap(cards, i - 1, draws[n - i]);
        i := i - 1;
      }
    }

    /** Removes and returns the first card; None (Java's null) when the deck is empty. */
    method DealCard() returns (c: Option<Card>)
      modifies this
      ensures old(cards) == [] ==> c == None && cards == []
      ensures old(cards) != [] ==> c == Some(old(cards)[0]) && cards == old(cards)[1..]
      ensures Distinct(old(cards)) ==> Distinct(cards)
    {
      if cards == [] {
        return None;
      }
      c := Some(cards[0]);
      cards := cards[1..];
    }

    function CardsRemaining(): (n: nat)
      reads this
      ensures n == |cards|
    {
      |cards|
    }

    function IsEmpty(): (b: bool)
      reads this
      ensures b <==> CardsRemaining() == 0
    {
      cards == []
    }
  }

  /** Deals until the deck is empty, counting the deals. */
  method DealAll(deck: Deck) returns (dealt: seq<Card>)
    modifies deck
    ensures dealt == old(deck.cards)
    ensures deck.IsEmpty()
  {
    dealt := [];
    while !deck.IsEmpty()
      invariant dealt + deck.cards == old(deck.cards)
      decreases |deck.cards|
    {
      var c := deck.DealCard();
      dealt := dealt + [c.value];
    }
  }

  /** A fresh deck, shuffled by any draws, deals each of the 52 cards once and then None. */
  method FreshDeckDealsFiftyTwo(draws: seq<nat>) returns (dealt: seq<Card>, afterwards: Option<Card>)
    requires ShuffleDraws(52, draws)
    ensures |dealt| == 52 && multiset(dealt) == multiset(FullDeck()) && Distinct(dealt)
    ensures afterwards == None
  {
    var deck := new Deck();
    FullDeckComplete(Card(0, 0));
    ShuffledPermutes(deck.cards, draws);
    deck.Shuffle(draws);
    dealt := DealAll(deck);
    afterwards := deck.DealCard();
  }

  // ---------------------------------------------------------------------
  // Properties
  // ---------------------------------------------------------------------

  /** Position 13 * suit + rank of a new deck holds that card. */
  lemma FullDeckAt(rank: Rank, suit: Suit)
    ensures FullDeck()[13 * suit + rank] == Card(rank, suit)
  {
    var i := 13 * suit + rank;
    assert i / 13 == suit && i % 13 == rank;
  }

  /** A new deck holds every card exactly once. */
  lemma FullDeckComplete(c: Card)
    ensures c in FullDeck()
    ensures Distinct(FullDeck())
    ensures multiset(FullDeck())[c] == 1
  {
    FullDeckAt(c.rank, c.suit);
    var d := FullDeck();
    forall i, j | 0 <= i < j < 52 ensures d[i] != d[j] {
      assert i == 13 * (i / 13) + i % 13;
      assert j == 13 * (j / 13) + j % 13;
    }
    DistinctCount(d, c);
  }

  lemma {:induction false} DistinctCount(s: seq<Card>, c: Card)
    requires Distinct(s) && c in s
    ensures multiset(s)[c] == 1
  {
    var n := |s|;
    if s[n - 1] == c {
      assert c !in s[..n - 1];
      assert s == s[..n - 1] + [s[n - 1]];
    } else {
      DistinctCount(s[..n - 1], c);
      assert s == s[..n - 1] + [s[n - 1]];
    }
  }

  /** Every card value valid in the game occurs among the 52: all 13 ranks in all 4 suits. */
  lemma FullDeckCoversRanksAndSuits(r: Rank, s: Suit)
    ensures exists i :: 0 <= i < 52 && FullDeck()[i].rank == r && FullDeck()[i].suit == s
  {
    FullDeckAt(r, s);
  }

  lemma SwapPermutes(s: seq<Card>, a: nat, b: nat)
    requires a < |s| && b < |s|
    ensures multiset(Swap(s, a, b)) == multiset(s)
    ensures Distinct(s) ==> Distinct(Swap(s, a, b))
  {
  }

  /** Shuffling only rearranges: same cards, same count, and no duplicate appears. */
  lemma ShuffledPermutes(s: seq<Card>, draws: seq<nat>)
    requires ShuffleDraws(|s|, draws)
    ensures multiset(Shuffled(s, draws)) == multiset(s)
    ensures |Shuffled(s, draws)| == |s|
    ensures Distinct(s) ==> Distinct(Shuffled(s, draws))
  {
    ShuffleStepsPermute(s, draws, |draws|);
  }

  lemma {:induction false} ShuffleStepsPermute(s: seq<Card>, draws: seq<nat>, k: nat)
    requires ShuffleDraws(|s|, draws) && k <= |draws|
    ensures multiset(ShuffleSteps(s, draws, k)) == multiset(s)
    ensures Distinct(s) ==> Distinct(ShuffleSteps(s, draws, k))
  {
    if k > 0 {
      var before := ShuffleSteps(s, draws, k - 1);
      var after := Swap(before, |s| - k, draws[k - 1]);
      assert ShuffleSteps(s, draws, k) == after;
      ShuffleStepsPermute(s, draws, k - 1);
      SwapPermutes(before, |s| - k, draws[k - 1]);
      assert multiset(after) == multiset(before) == multiset(s);
    }
  }
}
