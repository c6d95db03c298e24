/**
 * A player: name, hand, running total and the computer flag, with the hand
 * arithmetic of the game (suit scores, best suit, round score) and the two
 * ways of choosing the cards to swap (the computer heuristic and the filter
 * applied to a human's typed positions).
 */
module Players {
  import opened Options
  import opened Cards
  import opened JavaText

  // ---------------------------------------------------------------------
  // Hand arithmetic, as functions of the hand
  // ---------------------------------------------------------------------

  /** Sum of the scores of the cards of suit s in the hand. */
  function SuitScore(hand: seq<Card>, s: Suit): nat
  {
    if |hand| == 0 then 0
    else
      var last := hand[|hand| - 1];
      SuitScore(hand[..|hand| - 1], s) + (if last.suit == s then Score(last) else 0)
  }

  /** Sum of the scores of all cards in the hand. */
  function HandScore(hand: seq<Card>): nat
  {
    if |hand| == 0 then 0 else HandScore(hand[..|hand| - 1]) + Score(hand[|hand| - 1])
  }

  function Max(a: int, b: int): int
  {
    if a >= b then a else b
  }

  /** The largest of the four suit scores. */
  function MaxSuitScore(hand: seq<Card>): nat
  {
    Max(Max(SuitScore(hand, 0), SuitScore(hand, 1)), Max(SuitScore(hand, 2), SuitScore(hand, 3)))
  }

  /** The lowest suit index whose score is the largest. */
  function BestSuit(hand: seq<Card>): Suit
  {
    var m := MaxSuitScore(hand);
    if SuitScore(hand, 0) == m then 0
    else if SuitScore(hand, 1) == m then 1
    else if SuitScore(hand, 2) == m then 2
    else 3
  }

  /** The round score: the best suit's score, plus five when the bonus suit is that suit. */
  function RoundScore(hand: seq<Card>, bonusSuit: int): nat
  {
    MaxSuitScore(hand) + (if BestSuit(hand) == bonusSuit then 5 else 0)
  }

  function CountSuit(hand: seq<Card>, s: Suit): nat
  {
    if |hand| == 0 then 0
    else CountSuit(hand[..|hand| - 1], s) + (if hand[|hand| - 1].suit == s then 1 else 0)
  }

  /** The positions, ascending, of the cards whose suit is not s. */
  function OffSuitPositions(hand: seq<Card>, s: Suit): seq<nat>
  {
    if |hand| == 0 then []
    else
      OffSuitPositions(hand[..|hand| - 1], s) +
      (if hand[|hand| - 1].suit != s then [|hand| - 1] else [])
  }

  function Take<T>(s: seq<T>, n: nat): (r: seq<T>)
    ensures |r| <= n && |r| <= |s|
  {
    if |s| <= n then s else s[..n]
  }

  /**
   * The computer's swap choice: when at least two cards hold the best suit,
   * the first four (at most) positions of cards outside it; otherwise none.
   */
  function ComputerSwaps(hand: seq<Card>): seq<nat>
  {
    var best := BestSuit(hand);
    if CountSuit(hand, best) < 2 then [] else Take(OffSuitPositions(hand, best), 4)
  }

  /**
   * The human swap filter over the typed tokens, scanned left to right:
   * a token that parses to 1..5 adds its 0-based position unless already
   * chosen; scanning stops once four positions are chosen.
   */
  function SwapFilter(tokens: seq<string>): seq<nat>
  {
    if |tokens| == 0 then []
    else
      var prev := SwapFilter(tokens[..|tokens| - 1]);
      var p := ParseInt(tokens[|tokens| - 1]);
      if |prev| < 4 && p.Some? && 1 <= p.value <= 5 && p.value - 1 !in prev
      then prev + [p.value - 1]
      else prev
  }

  /** The positions a human's input line selects: none for "0" or a blank line. */
  function HumanSwaps(line: string): seq<nat>
  {
    var input := Trim(line);
    if input == "0" || input == "" then [] else SwapFilter(Words(input))
  }

  // ---------------------------------------------------------------------
  // The player object
  // ---------------------------------------------------------------------

  class Player {
    const name: string
    const isComputer: bool
    var hand: seq<Card>
    var totalScore: int

    /** A player named "Computer", in any letter case, is the scripted opponent. */
    constructor (name: string)
      ensures this.name == name && isComputer == EqualsIgnoreCase(name, "Computer")
      ensures hand == [] && totalScore == 0
    {
      this.name := name;
      hand := [];
      totalScore := 0;
      isComputer := EqualsIgnoreCase(name, "Computer");
    }

    method AddCard(card: Card)
      modifies this
      ensures hand == old(hand) + [card] && totalScore == old(totalScore)
    {
      hand := hand + [card];
    }

    method ClearHand()
      modifies this
      ensures hand == [] && totalScore == old(totalScore)
    {
      hand := [];
    }

    method AddToTotalScore(score: int)
      modifies this
      ensures totalScore == old(totalScore) + score && hand == old(hand)
    {
      totalScore := totalScore + score;
    }

    /** One accumulator per suit, each card adding its score to its suit's entry. */
    method CalculateSuitScores() returns (suitScores: seq<int>)
      ensures |suitScores| == 4
      ensures forall s: Suit :: suitScores[s] == SuitScore(hand, s)
    {
      suitScores := [0, 0, 0, 0];
      for i := 0 to |hand|
        invariant |suitScores| == 4
        invariant forall s: Suit :: suitScores[s] == SuitScore(hand[..i], s)
      {
        var card := hand[i];
        assert hand[..i + 1][..i] == hand[..i];
        suitScores := suitScores[card.suit := suitScores[card.suit] + Score(card)];
      }
      assert hand[..|hand|] == hand;
    }

    /** Scans the suits 0 to 3, moving to a suit only when its score is strictly higher. */
    method GetBestSuit() returns (bestSuit: int)
      ensures bestSuit == BestSuit(hand)
    {
      var suitScores := CalculateSuitScores();
      var maxScore := 0;
      bestSuit := 0;
      for i := 0 to 4
        invariant 0 <= bestSuit < 4 && (bestSuit == 0 || bestSuit < i)
        invariant forall k :: 0 <= k < i ==> suitScores[k] <= maxScore
        invariant i > 0 ==> suitScores[bestSuit] == maxScore
        invariant i == 0 ==> maxScore == 0
        invariant forall k :: 0 <= k < bestSuit ==> suitScores[k] < maxScore
      {
        if suitScores[i] > maxScore {
          maxScore := suitScores[i];
          bestSuit := i;
        }
      }
      BestSuitUnique(hand, bestSuit);
    }

    method GetMaxSuitScore() returns (maxScore: int)
      ensures maxScore == MaxSuitScore(hand)
    {
      var suitScores := CalculateSuitScores();
      maxScore := 0;
      for i := 0 to 4
        invariant forall k :: 0 <= k < i ==> suitScores[k] <= maxScore
        invariant maxScore == 0 || exists k :: 0 <= k < i && suitScores[k] == maxScore
      {
        if suitScores[i] > maxScore {
          maxScore := suitScores[i];
        }
      }
      BestSuitSpec(hand);
    }

    /** The computer names its own best suit; a human's menu choice 1..4 becomes 0..3. */
    method SelectBonusSuit(choice: int) returns (bonusSuit: int)
      requires !isComputer ==> 1 <= choice <= 4
      ensures 0 <= bonusSuit < 4
      ensures isComputer ==> bonusSuit == BestSuit(hand)
      ensures !isComputer ==> bonusSuit == choice - 1
    {
      if isComputer {
        bonusSuit := GetBestSuit();
      } else {
        bonusSuit := choice - 1;
      }
    }

    /** Humans type positions on a line; the computer runs its heuristic. */
    method SelectCardsToSwap(line: string) returns (cardsToSwap: seq<int>)
      ensures isComputer ==> cardsToSwap == ComputerSwaps(hand)
      ensures !isComputer ==> cardsToSwap == HumanSwaps(line)
    {
      if isComputer {
        var chosen := ComputerSelectCards();
        cardsToSwap := chosen;
      } else {
        var chosen := HumanSelectCards(line);
        cardsToSwap := chosen;
      }
    }

    /** The human branch: "0" or a blank line keeps every card, otherwise the typed positions are filtered. */
    method HumanSelectCards(line: string) returns (chosen: seq<nat>)
      ensures chosen == HumanSwaps(line)
    {
      var input := Trim(line);
      chosen := [];
      if input != "0" && input != "" {
        chosen := FilterPositions(Words(input));
      }
    }

    /** Keeps tokens naming 1..5 as 0-based positions, first-seen, no repeats, at most four. */
    method FilterPositions(positions: seq<string>) returns (chosen: seq<nat>)
      ensures chosen == SwapFilter(positions)
    {
      chosen := [];
      assert positions[..|positions|] == positions;
      for k := 0 to |positions|
        invariant chosen == SwapFilter(positions[..k]) && |chosen| < 4
      {
        var position := ParseInt(positions[k]);
        SwapFilterStep(positions, k, position);
        if position.Some? && 1 <= position.value <= 5 && position.value - 1 !in chosen {
          chosen := chosen + [position.value - 1];
          if |chosen| >= 4 {
            SwapFilterFull(positions, k + 1);
            return;
          }
        }
      }
    }

    /**
     * Keeps the best suit and marks the other cards, but only when the best
     * suit holds at least two cards (counted afresh for each card), and never
     * more than four.
     */
    method ComputerSelectCards() returns (toSwap: seq<nat>)
      ensures toSwap == ComputerSwaps(hand)
    {
      toSwap := [];
      var bestSuit := GetBestSuit();
      var suitScores := CalculateSuitScores();
      ghost var enough := CountSuit(hand, bestSuit) >= 2;
      var i := 0;
      while i < |hand| && |toSwap| < 4
        invariant 0 <= i <= |hand| && |toSwap| <= 4
        invariant toSwap == if enough then OffSuitPositions(hand[..i], bestSuit) else []
      {
        OffSuitStep(hand, bestSuit, i);
        var card := hand[i];
        if card.suit != bestSuit {
          var cardsInBestSuit := CountInSuit(bestSuit);
          if cardsInBestSuit >= 2 {
            toSwap := toSwap + [i];
          }
        }
        i := i + 1;
      }
      if i < |hand| && enough {
        OffSuitPrefix(hand, bestSuit, i);
      } else {
        assert hand[..i] == hand;
      }
    }

    /** The inner scan of the computer's choice: how many cards of the hand hold suit s. */
    method CountInSuit(s: Suit) returns (count: nat)
      ensures count == CountSuit(hand, s)
    {
      count := 0;
      for j := 0 to |hand|
        invariant count == CountSuit(hand[..j], s)
      {
        CountSuitStep(hand, s, j);
        if hand[j].suit == s {
          count := count + 1;
        }
      }
      assert hand[..|hand|] == hand;
    }

    /** Finds the best suit and its score in one scan and adds the bonus on a match. */
    method CalculateRoundScore(bonusSuit: int) returns (roundScore: int)
      ensures roundScore == RoundScore(hand, bonusSuit)
    {
      var suitScores := CalculateSuitScores();
      var maxScore := 0;
      var maxSuit := 0;
      for i := 0 to 4
        invariant 0 <= maxSuit < 4 && (maxSuit == 0 || maxSuit < i)
        invariant forall k :: 0 <= k < i ==> suitScores[k] <= maxScore
        invariant i > 0 ==> suitScores[maxSuit] == maxScore
        invariant i == 0 ==> maxScore == 0
        invariant forall k :: 0 <= k < maxSuit ==> suitScores[k] < maxScore
      {
        if suitScores[i] > maxScore {
          maxScore := suitScores[i];
          maxSuit := i;
        }
      }
      BestSuitUnique(hand, maxSuit);
      BestSuitSpec(hand);
      if maxSuit == bonusSuit {
        maxScore := maxScore + 5;
      }
      roundScore := maxScore;
    }
  }

  // ---------------------------------------------------------------------
  // Properties of the hand arithmetic
  // ---------------------------------------------------------------------

  /** The best suit is a suit of greatest score, and every lower suit scores strictly less. */
  lemma BestSuitSpec(hand: seq<Card>)
    ensures SuitScore(hand, BestSuit(hand)) == MaxSuitScore(hand)
    ensures forall s: Suit :: SuitScore(hand, s) <= MaxSuitScore(hand)
    ensures forall s: Suit :: s < BestSuit(hand) ==> SuitScore(hand, s) < MaxSuitScore(hand)
  {
  }

  /** That characterisation pins the best suit down: the first maximum. */
  lemma BestSuitUnique(hand: seq<Card>, b: int)
    requires 0 <= b < 4
    requires forall s: Suit :: SuitScore(hand, s) <= SuitScore(hand, b)
    requires forall s: Suit :: s < b ==> SuitScore(hand, s) < SuitScore(hand, b)
    ensures b == BestSuit(hand)
  {
    BestSuitSpec(hand);
  }

  /** An empty hand scores 0 in every suit, so its best suit is Clubs with 0 points. */
  lemma EmptyHandScores()
    ensures forall s: Suit :: SuitScore([], s) == 0
    ensures BestSuit([]) == 0 && MaxSuitScore([]) == 0
  {
  }

  /** Every card counts towards exactly one suit: the suit scores add up to the hand's score. */
  lemma {:induction false} SuitScoresPartition(hand: seq<Card>)
    ensures SuitScore(hand, 0) + SuitScore(hand, 1) + SuitScore(hand, 2) + SuitScore(hand, 3) == HandScore(hand)
  {
    if |hand| > 0 {
      SuitScoresPartition(hand[..|hand| - 1]);
    }
  }

  /** A suit's score is between 2 and 11 points for each of its cards. */
  lemma {:induction false} SuitScoreBounds(hand: seq<Card>, s: Suit)
    ensures 2 * CountSuit(hand, s) <= SuitScore(hand, s) <= 11 * CountSuit(hand, s)
  {
    if |hand| > 0 {
      SuitScoreBounds(hand[..|hand| - 1], s);
    }
  }

  lemma {:induction false} CountSuitBound(hand: seq<Card>, s: Suit)
    ensures CountSuit(hand, s) <= |hand|
  {
    if |hand| > 0 {
      CountSuitBound(hand[..|hand| - 1], s);
    }
  }

  /**
   * The round score is the best suit's score plus 5 exactly when the bonus
   * suit is the best suit, and a five-card hand scores at most 60.
   */
  lemma RoundScoreSpec(hand: seq<Card>, bonusSuit: int)
    ensures RoundScore(hand, bonusSuit) == MaxSuitScore(hand) || RoundScore(hand, bonusSuit) == MaxSuitScore(hand) + 5
    ensures RoundScore(hand, bonusSuit) == MaxSuitScore(hand) + 5 <==> bonusSuit == BestSuit(hand)
    ensures |hand| == 5 ==> RoundScore(hand, bonusSuit) <= 60
  {
    var b := BestSuit(hand);
    SuitScoreBounds(hand, b);
    CountSuitBound(hand, b);
    BestSuitSpec(hand);
  }

  /** The computer names its own best suit, so it always collects the bonus. */
  lemma ComputerAlwaysGetsBonus(hand: seq<Card>)
    ensures RoundScore(hand, BestSuit(hand)) == MaxSuitScore(hand) + 5
  {
  }

  /** The example hand Q, K, A of Clubs, 2 of Diamonds, 3 of Hearts. */
  lemma RoundScoreExample()
    ensures var h := [Card(10, 0), Card(11, 0), Card(12, 0), Card(0, 1), Card(1, 2)];
      BestSuit(h) == 0 && MaxSuitScore(h) == 31 && RoundScore(h, 0) == 36 && RoundScore(h, 1) == 31
  {
    var h := [Card(10, 0), Card(11, 0), Card(12, 0), Card(0, 1), Card(1, 2)];
    var h1, h2, h3, h4 := h[..1], h[..2], h[..3], h[..4];
    assert h1[..0] == [] && h2[..1] == h1 && h3[..2] == h2 && h4[..3] == h3 && h[..4] == h4;
    forall s: Suit ensures SuitScore(h1, s) == if s == 0 then 10 else 0 { }
    forall s: Suit ensures SuitScore(h2, s) == if s == 0 then 20 else 0 { }
    forall s: Suit ensures SuitScore(h3, s) == if s == 0 then 31 else 0 { }
    forall s: Suit ensures SuitScore(h4, s) == if s == 0 then 31 else if s == 1 then 2 else 0 { }
    assert SuitScore(h, 0) == 31 && SuitScore(h, 1) == 2 && SuitScore(h, 2) == 3 && SuitScore(h, 3) == 0;
  }

  /** Ties go to the lowest suit: Clubs 5, Diamonds 5, Hearts 2 gives Clubs. */
  lemma BestSuitTieExample()
    ensures var h := [Card(3, 0), Card(3, 1), Card(0, 2)];
      SuitScore(h, 0) == 5 && SuitScore(h, 1) == 5 && SuitScore(h, 2) == 2 && BestSuit(h) == 0
  {
    var h := [Card(3, 0), Card(3, 1), Card(0, 2)];
    var h1, h2 := h[..1], h[..2];
    assert h1[..0] == [] && h2[..1] == h1 && h[..2] == h2;
    forall s: Suit ensures SuitScore(h1, s) == if s == 0 then 5 else 0 { }
    forall s: Suit ensures SuitScore(h2, s) == if s <= 1 then 5 else 0 { }
    assert SuitScore(h, 0) == 5 && SuitScore(h, 1) == 5 && SuitScore(h, 2) == 2 && SuitScore(h, 3) == 0;
  }

  // ---------------------------------------------------------------------
  // Properties of the computer's swap choice
  // ---------------------------------------------------------------------

  /** The off-suit positions are ascending, in range, and are exactly the off-suit cards. */
  lemma {:induction false} OffSuitPositionsSpec(hand: seq<Card>, s: Suit)
    ensures forall k :: 0 <= k < |OffSuitPositions(hand, s)| ==> OffSuitPositions(hand, s)[k] < |hand|
    ensures forall k, l :: 0 <= k < l < |OffSuitPositions(hand, s)| ==> OffSuitPositions(hand, s)[k] < OffSuitPositions(hand, s)[l]
    ensures forall i :: 0 <= i < |hand| ==> (i in OffSuitPositions(hand, s) <==> hand[i].suit != s)
  {
    if |hand| > 0 {
      var init := hand[..|hand| - 1];
      OffSuitPositionsSpec(init, s);
      assert forall i :: 0 <= i < |init| ==> hand[i] == init[i];
    }
  }

  /** One more card: its position joins the off-suit positions when its suit is not s. */
  lemma OffSuitStep(hand: seq<Card>, s: Suit, i: nat)
    requires i < |hand|
    ensures OffSuitPositions(hand[..i + 1], s) == OffSuitPositions(hand[..i], s) + (if hand[i].suit != s then [i] else [])
  {
    assert hand[..i + 1][..i] == hand[..i];
  }

  /** One more card: it adds one to the count of suit s when it is of that suit. */
  lemma CountSuitStep(hand: seq<Card>, s: Suit, j: nat)
    requires j < |hand|
    ensures CountSuit(hand[..j + 1], s) == CountSuit(hand[..j], s) + (if hand[j].suit == s then 1 else 0)
  {
    assert hand[..j + 1][..j] == hand[..j];
  }

  /** The off-suit positions of a prefix of the hand begin the off-suit positions of the hand. */
  lemma {:induction false} OffSuitPrefix(hand: seq<Card>, s: Suit, i: nat)
    requires i <= |hand|
    ensures OffSuitPositions(hand[..i], s) <= OffSuitPositions(hand, s)
    decreases |hand| - i
  {
    if i < |hand| {
      OffSuitPrefix(hand, s, i + 1);
      assert hand[..i + 1][..i] == hand[..i];
    } else {
      assert hand[..i] == hand;
    }
  }

  /**
   * The computer swaps nothing unless two cards hold its best suit; otherwise
   * it swaps the first four off-suit cards (all of them if fewer), listing
   * their positions in ascending order, each below the hand size.
   */
  lemma ComputerSwapsSpec(hand: seq<Card>)
    ensures var best := BestSuit(hand);
      var r := ComputerSwaps(hand);
      && |r| <= 4
      && (CountSuit(hand, best) < 2 ==> r == [])
      && (CountSuit(hand, best) >= 2 ==> r == Take(OffSuitPositions(hand, best), 4))
      && (forall k :: 0 <= k < |r| ==> r[k] < |hand| && hand[r[k]].suit != best)
      && (forall k, l :: 0 <= k < l < |r| ==> r[k] < r[l])
      && (CountSuit(hand, best) >= 2 && |r| < 4 ==>
            forall i :: 0 <= i < |hand| && hand[i].suit != best ==> i in r)
  {
    OffSuitPositionsSpec(hand, BestSuit(hand));
  }

  // ---------------------------------------------------------------------
  // Properties of the human swap filter
  // ---------------------------------------------------------------------

  /** The positions 0..4 the tokens name, in token order, repeats included. */
  function NamedPositions(tokens: seq<string>): seq<nat>
  {
    if |tokens| == 0 then []
    else
      var p := ParseInt(tokens[|tokens| - 1]);
      NamedPositions(tokens[..|tokens| - 1]) + (if p.Some? && 1 <= p.value <= 5 then [p.value - 1] else [])
  }

  /** The first occurrence of each element, in order of first occurrence. */
  function Dedup(s: seq<nat>): seq<nat>
  {
    if |s| == 0 then []
    else
      var prev := Dedup(s[..|s| - 1]);
      if s[|s| - 1] in prev then prev else prev + [s[|s| - 1]]
  }

  lemma {:induction false} DedupSpec(s: seq<nat>)
    ensures forall k, l :: 0 <= k < l < |Dedup(s)| ==> Dedup(s)[k] != Dedup(s)[l]
    ensures forall x :: x in Dedup(s) <==> x in s
  {
    if |s| > 0 {
      DedupSpec(s[..|s| - 1]);
      assert s == s[..|s| - 1] + [s[|s| - 1]];
    }
  }

  /** One more token: the filter's step on the prefix of length k + 1. */
  lemma SwapFilterStep(tokens: seq<string>, k: nat, p: Option<int>)
    requires k < |tokens| && p == ParseInt(tokens[k])
    ensures var prev := SwapFilter(tokens[..k]);
      SwapFilter(tokens[..k + 1]) ==
        if |prev| < 4 && p.Some? && 1 <= p.value <= 5 && p.value - 1 !in prev then prev + [p.value - 1] else prev
  {
    assert tokens[..k + 1][..k] == tokens[..k];
  }

  /** Once four positions are chosen, later tokens change nothing. */
  lemma {:induction false} SwapFilterFull(tokens: seq<string>, k: nat)
    requires k <= |tokens| && |SwapFilter(tokens[..k])| >= 4
    ensures SwapFilter(tokens) == SwapFilter(tokens[..k])
    decreases |tokens| - k
  {
    if k == |tokens| {
      assert tokens[..k] == tokens;
    } else {
      assert tokens[..k + 1][..k] == tokens[..k];
      SwapFilterFull(tokens, k + 1);
    }
  }

  /**
   * The filter is the first four distinct named positions: an independent
   * statement of first-seen order, duplicate removal and the cap.
   */
  lemma {:induction false} SwapFilterIsFirstFourDistinct(tokens: seq<string>)
    ensures SwapFilter(tokens) == Take(Dedup(NamedPositions(tokens)), 4)
  {
    if |tokens| > 0 {
      var init := tokens[..|tokens| - 1];
      SwapFilterIsFirstFourDistinct(init);
      var d := Dedup(NamedPositions(init));
      var p := ParseInt(tokens[|tokens| - 1]);
      if p.Some? && 1 <= p.value <= 5 {
        assert NamedPositions(tokens) == NamedPositions(init) + [p.value - 1];
        TakeDedupSnoc(NamedPositions(init), p.value - 1);
      } else {
        assert NamedPositions(tokens) == NamedPositions(init);
      }
    }
  }

  /** One more value: the first four distinct values gain it only when it is new and fewer than four are held. */
  lemma TakeDedupSnoc(s: seq<nat>, x: nat)
    ensures var prev := Take(Dedup(s), 4);
      Take(Dedup(s + [x]), 4) == if |prev| < 4 && x !in prev then prev + [x] else prev
  {
    var d := Dedup(s);
    assert (s + [x])[..|s|] == s;
    assert Dedup(s + [x]) == if x in d then d else d + [x];
    if |d| >= 4 {
      assert (d + [x])[..4] == d[..4];
    }
  }

  /** The named positions all lie in 0..4, and exactly the tokens that parse to 1..5 name one. */
  lemma {:induction false} NamedPositionsSpec(tokens: seq<string>)
    ensures forall x :: x in NamedPositions(tokens) ==> x <= 4
    ensures forall x :: x in NamedPositions(tokens) ==> Some(x + 1) in ParsedTokens(tokens)
    ensures forall t :: t in tokens && ParseInt(t).Some? && 1 <= ParseInt(t).value <= 5 ==>
              ParseInt(t).value - 1 in NamedPositions(tokens)
  {
    if |tokens| > 0 {
      var init := tokens[..|tokens| - 1];
      NamedPositionsSpec(init);
      assert tokens == init + [tokens[|tokens| - 1]];
      assert ParsedTokens(tokens) == ParsedTokens(init) + [ParseInt(tokens[|tokens| - 1])];
    }
  }

  /** Each token run through Integer.parseInt. */
  function ParsedTokens(tokens: seq<string>): (r: seq<Option<int>>)
    ensures |r| == |tokens|
  {
    if |tokens| == 0 then [] else ParsedTokens(tokens[..|tokens| - 1]) + [ParseInt(tokens[|tokens| - 1])]
  }

  /** The first four distinct values of s: distinct, taken from s, and all of s when fewer than four. */
  lemma TakeDedupSpec(s: seq<nat>)
    ensures var r := Take(Dedup(s), 4);
      && |r| <= 4
      && (forall k, l :: 0 <= k < l < |r| ==> r[k] != r[l])
      && (forall k :: 0 <= k < |r| ==> r[k] in s)
      && (|r| < 4 ==> forall x :: x in s ==> x in r)
  {
    var d := Dedup(s);
    DedupSpec(s);
    var r := Take(d, 4);
    assert forall k :: 0 <= k < |r| ==> r[k] == d[k];
    assert |r| < 4 ==> r == d;
    forall k | 0 <= k < |r| ensures r[k] in s {
      assert r[k] in d;
    }
  }

  /**
   * The filter keeps at most four distinct positions in 0..4, each typed
   * (1-based) as a token, and, when fewer than four, every position typed.
   */
  lemma SwapFilterSpec(tokens: seq<string>)
    ensures var r := SwapFilter(tokens);
      && |r| <= 4
      && (forall k :: 0 <= k < |r| ==> r[k] <= 4)
      && (forall k, l :: 0 <= k < l < |r| ==> r[k] != r[l])
      && (forall k :: 0 <= k < |r| ==> Some(r[k] + 1) in ParsedTokens(tokens))
      && (|r| < 4 ==>
            forall t :: t in tokens && ParseInt(t).Some? && 1 <= ParseInt(t).value <= 5 ==>
              ParseInt(t).value - 1 in r)
  {
    var named := NamedPositions(tokens);
    SwapFilterIsFirstFourDistinct(tokens);
    TakeDedupSpec(named);
    NamedPositionsSpec(tokens);
  }

  /**
   * What a human's line selects: nothing for "0" or a blank line, otherwise
   * the first four distinct positions its whitespace-separated words name.
   */
  lemma HumanSwapsSpec(line: string)
    ensures Trim(line) == "0" || Trim(line) == "" ==> HumanSwaps(line) == []
    ensures Trim(line) != "0" && Trim(line) != "" ==>
      HumanSwaps(line) == Take(Dedup(NamedPositions(Words(Trim(line)))), 4)
    ensures |HumanSwaps(line)| <= 4
  {
    SwapFilterSpec(Words(Trim(line)));
    SwapFilterIsFirstFourDistinct(Words(Trim(line)));
  }
}
