/**
 * The hand exercise: five cards kept in an array sorted by rank, a linear
 * search for a card and the hand's text.
 */
module Hands {
  import opened Options
  import opened Cards
  import opened StableSort
  import opened JavaText

  /** The key Card.compareTo orders by: the rank alone. */
  function RankKey(c: Card): int
  {
    c.rank
  }

  /** Each card's long form followed by a space, in order. */
  function HandText(cs: seq<Card>): string
  {
    if |cs| == 0 then "" else ToString(cs[0]) + " " + HandText(cs[1..])
  }

  class Hand {
    const cards: array<Card>

    /**
     * A hand of the five given cards (random in the exercise), sorted
     * stably by rank as Arrays.sort does with Card.compareTo.
     */
    constructor (dealt: seq<Card>)
      requires |dealt| == 5
      ensures fresh(cards) && cards.Length == 5
      ensures cards[..] == SortBy(dealt, RankKey)
    {
      cards := new Card[5];
      new;
      for i := 0 to 5
        invariant cards[..i] == dealt[..i]
      {
        cards[i] := dealt[i];
        assert cards[..i + 1] == cards[..i] + [cards[i]];
      }
      assert cards[..] == dealt;
      SortCards();
    }

    /** Arrays.sort on the cards: the array ends holding the stable sort by rank. */
    method SortCards()
      modifies cards
      ensures cards[..] == SortBy(old(cards[..]), RankKey)
    {
      var sorted := SortBy(cards[..], RankKey);
      for i := 0 to cards.Length
        invariant cards[..i] == sorted[..i]
      {
        cards[i] := sorted[i];
        assert cards[..i + 1] == cards[..i] + [cards[i]];
      }
      assert cards[..] == cards[..cards.Length];
    }

    /**
     * The search loop of inHand: it stops at the first card equal to the
     * searched one, or past the end when there is none.
     */
    method Search(searchCard: Card) returns (found: bool, index: int)
      ensures 0 <= index <= cards.Length
      ensures found ==> index < cards.Length && Equals(cards[index], searchCard)
      ensures forall j :: 0 <= j < index ==> !Equals(cards[j], searchCard)
      ensures !found ==> index == cards.Length
    {
      found := false;
      index := 0;
      while !found && index < cards.Length
        invariant 0 <= index <= cards.Length
        invariant found ==> index < cards.Length && Equals(cards[index], searchCard)
        invariant forall j :: 0 <= j < index ==> !Equals(cards[j], searchCard)
        decreases cards.Length - index, if found then 0 else 1
      {
        if Equals(cards[index], searchCard) {
          found := true;
        } else {
          index := index + 1;
        }
      }
    }

    /** inHand as written: the search runs, but the answer is the constant false. */
    method InHand(searchCard: Card) returns (r: bool)
      ensures !r
    {
      var found, index := Search(searchCard);
      r := false;
    }

    /** inHand as evidently intended: the search's outcome. */
    method InHandCorrected(searchCard: Card) returns (r: bool)
      ensures r <==> searchCard in cards[..]
    {
      var found, index := Search(searchCard);
      if !found {
        forall j | 0 <= j < cards.Length ensures cards[j] != searchCard {
          EqualsIsValueEquality(cards[j], searchCard);
        }
      } else {
        EqualsIsValueEquality(cards[index], searchCard);
      }
      r := found;
    }

    /** toString: each card's long form and a space, for the five cards in order. */
    method ToText() returns (result: string)
      requires cards.Length == 5
      ensures result == HandText(cards[..])
    {
      result := "";
      for i := 0 to 5
        invariant result == HandText(cards[..i])
      {
        HandTextAppend(cards[..i], cards[i]);
        assert cards[..i + 1] == cards[..i] + [cards[i]];
        result := result + ToString(cards[i]) + " ";
      }
      assert cards[..5] == cards[..];
    }
  }

  /** A new hand is in non-decreasing rank order under compareTo and holds the dealt cards. */
  lemma NewHandSorted(dealt: seq<Card>)
    requires |dealt| == 5
    ensures var s := SortBy(dealt, RankKey);
      && (forall i, j :: 0 <= i < j < 5 ==> CompareTo(s[i], s[j]) <= 0)
      && multiset(s) == multiset(dealt)
  {
    var s := SortBy(dealt, RankKey);
    SortBySorted(dealt, RankKey);
    SortByPermutes(dealt, RankKey);
    forall i, j | 0 <= i < j < 5 ensures CompareTo(s[i], s[j]) <= 0 {
      assert RankKey(s[i]) <= RankKey(s[j]);
    }
  }

  /**
   * The search answer the source throws away is false for a card the hand
   * holds: on any hand, inHand misses the hand's first card, which the
   * corrected search finds.
   */
  method InHandMissesHeldCard(dealt: seq<Card>) returns (held: Card, reported: bool, corrected: bool)
    requires |dealt| == 5
    ensures held in dealt && !reported && corrected
  {
    var hand := new Hand(dealt);
    held := hand.cards[0];
    SortByPermutes(dealt, RankKey);
    assert held in multiset(hand.cards[..]);
    reported := hand.InHand(held);
    corrected := hand.InHandCorrected(held);
  }

  // ---------------------------------------------------------------------
  // Reading the text back
  // ---------------------------------------------------------------------

  lemma {:induction false} HandTextAppend(cs: seq<Card>, c: Card)
    ensures HandText(cs + [c]) == HandText(cs) + ToString(c) + " "
  {
    if |cs| > 0 {
      assert (cs + [c])[1..] == cs[1..] + [c];
      HandTextAppend(cs[1..], c);
    } else {
      assert [c][1..] == [];
    }
  }

  /**
   * Reads space-separated words back as cards: three words "rank of suit"
   * per card, the text ending with the empty word after the last space.
   */
  function DecodeWords(ws: seq<string>): Option<seq<Card>>
    decreases |ws|
  {
    if ws == [""] then Some([])
    else if |ws| < 4 || ws[1] != "of" then None
    else
      match (CardOfString(ws[0] + " of " + ws[2]), DecodeWords(ws[3..]))
      case (Some(c), Some(rest)) => Some([c] + rest)
      case _ => None
  }

  /** The hand's cards as read back from its text. */
  function DecodeHandText(s: string): Option<seq<Card>>
  {
    DecodeWords(Fields(s, ' '))
  }

  /** No rank or suit name contains a space. */
  lemma NamesHaveNoSpace(c: Card)
    ensures ' ' !in RankName(c) && ' ' !in SuitName(c)
  {
  }

  /** A word without spaces, a space and more text: the word comes first among the fields. */
  lemma OneWord(w: string, rest: string)
    requires ' ' !in w
    ensures Fields(w + [' '] + rest, ' ') == [w] + Fields(rest, ' ')
  {
    FieldsAppend(w, ' ', rest);
    FieldsNoSep(w, ' ');
  }

  /** "r of n " followed by text splits into the words r, "of" and n, then the text's words. */
  lemma ThreeWords(r: string, n: string, rest: string)
    requires ' ' !in r && ' ' !in n
    ensures Fields(r + " of " + n + " " + rest, ' ') == [r, "of", n] + Fields(rest, ' ')
  {
    var t2 := n + [' '] + rest;
    var t1 := "of" + [' '] + t2;
    assert r + " of " + n + " " + rest == r + [' '] + t1;
    OneWord(n, rest);
    OneWord("of", t2);
    OneWord(r, t1);
  }

  /** The text of a hand splits, at its spaces, into three words per card and a final empty word. */
  lemma HandTextFields(cs: seq<Card>)
    ensures |cs| > 0 ==>
      Fields(HandText(cs), ' ') == [RankName(cs[0]), "of", SuitName(cs[0])] + Fields(HandText(cs[1..]), ' ')
    ensures |cs| == 0 ==> Fields(HandText(cs), ' ') == [""]
  {
    if |cs| > 0 {
      NamesHaveNoSpace(cs[0]);
      ThreeWords(RankName(cs[0]), SuitName(cs[0]), HandText(cs[1..]));
    }
  }

  /** The hand's text reads back as the hand: distinct hands print differently. */
  lemma {:induction false} HandTextRoundTrip(cs: seq<Card>)
    ensures DecodeHandText(HandText(cs)) == Some(cs)
  {
    HandTextFields(cs);
    if |cs| > 0 {
      var ws := Fields(HandText(cs), ' ');
      HandTextRoundTrip(cs[1..]);
      ToStringRoundTrip(cs[0]);
      assert ws[0] + " of " + ws[2] == ToString(cs[0]);
      assert ws[3..] == Fields(HandText(cs[1..]), ' ');
      assert [cs[0]] + cs[1..] == cs;
    }
  }
}
