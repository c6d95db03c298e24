/**
 * The ranking exercise: five cards go into an array while the scan keeps
 * the highest rank seen and the first position holding it; then that card
 * is swapped into the last slot.
 */
module RankedCards {
  import opened Cards
  import opened Decks

  /**
   * The scan over the first cards: the highest rank seen and where it was
   * first seen, both -1 before any card. A later card replaces them only
   * when its rank is strictly higher.
   */
  function Biggest(s: seq<Card>): (r: (int, int))
    ensures |s| == 0 <==> r.1 == -1
    ensures -1 <= r.1 < |s|
  {
    if |s| == 0 then (-1, -1)
    else
      var prev := Biggest(s[..|s| - 1]);
      var last := s[|s| - 1];
      if last.rank > prev.0 then (last.rank, |s| - 1) else prev
  }

  /**
   * On a non-empty sequence the scan finds the maximum rank, at the first
   * position that holds it.
   */
  lemma {:induction false} BiggestIsFirstMaximum(s: seq<Card>)
    requires |s| > 0
    ensures var (value, pos) := Biggest(s);
      && 0 <= pos < |s| && s[pos].rank == value
      && (forall j :: 0 <= j < |s| ==> s[j].rank <= value)
      && (forall j :: 0 <= j < pos ==> s[j].rank < value)
  {
    var init := s[..|s| - 1];
    if |init| > 0 {
      BiggestIsFirstMaximum(init);
    }
    assert forall j :: 0 <= j < |init| ==> s[j] == init[j];
  }

  /**
   * Moving the biggest card last: the last slot then holds a card of the
   * maximum rank, the card that was last takes its place, no other slot
   * changes, and the five cards are the same.
   */
  lemma MoveBiggestLast(s: seq<Card>)
    requires |s| == 5
    ensures var pos := Biggest(s).1;
      var r := Swap(s, 4, pos);
      && (forall j :: 0 <= j < 5 ==> r[j].rank <= r[4].rank)
      && r[4] == s[pos] && r[pos] == s[4]
      && (forall j :: 0 <= j < 5 && j != 4 && j != pos ==> r[j] == s[j])
      && multiset(r) == multiset(s)
  {
    BiggestIsFirstMaximum(s);
    SwapPermutes(s, 4, Biggest(s).1);
  }

  /**
   * The exercise's main routine with its five random cards given as dealt:
   * fill the array while tracking the biggest rank, then swap.
   */
  method RankCards(dealt: seq<Card>) returns (myCards: array<Card>, biggestValue: int, biggestPos: int)
    requires |dealt| == 5
    ensures fresh(myCards) && myCards.Length == 5
    ensures (biggestValue, biggestPos) == Biggest(dealt)
    ensures myCards[..] == Swap(dealt, 4, biggestPos)
  {
    myCards := new Card[5];
    biggestValue, biggestPos := -1, -1;
    for i := 0 to 5
      invariant myCards[..i] == dealt[..i]
      invariant (biggestValue, biggestPos) == Biggest(dealt[..i])
      invariant -1 <= biggestPos < i
    {
      myCards[i] := dealt[i];
      assert dealt[..i + 1][..i] == dealt[..i];
      if myCards[i].rank > biggestValue {
        biggestValue := myCards[i].rank;
        biggestPos := i;
      }
      assert myCards[..i + 1] == myCards[..i] + [myCards[i]];
    }
    assert dealt[..5] == dealt;
    BiggestIsFirstMaximum(dealt);
    var tempCard := myCards[4];
    myCards[4] := myCards[biggestPos];
    myCards[biggestPos] := tempCard;
  }
}
