/**
 * How a turn's swap positions act on a hand: positions are visited in the
 * order given; a position inside the hand, while the deck still has cards,
 * removes the card there and appends the deck's first card; any other
 * position is skipped. Visiting distinct positions from the highest down
 * removes exactly the cards first chosen, whatever their number.
 */
module SwapApplication {
  import opened Cards
  import opened StableSort
  import opened Seqs

  /** A hand together with the deck it draws from. */
  datatype Swapped = Swapped(hand: seq<Card>, deck: seq<Card>)

  function RemoveAt<T>(s: seq<T>, i: nat): (r: seq<T>)
    requires i < |s|
    ensures |r| == |s| - 1
    ensures forall k :: 0 <= k < i ==> r[k] == s[k]
    ensures forall k :: i <= k < |r| ==> r[k] == s[k + 1]
  {
    s[..i] + s[i + 1..]
  }

  /** One visited position: remove-and-draw, or no change. */
  function SwapStep(hand: seq<Card>, deck: seq<Card>, pos: int): Swapped
  {
    if 0 <= pos < |hand| && |deck| > 0 then Swapped(RemoveAt(hand, pos) + [deck[0]], deck[1..])
    else Swapped(hand, deck)
  }

  /** All positions, visited first to last. */
  function ApplySwaps(hand: seq<Card>, deck: seq<Card>, positions: seq<int>): Swapped
    decreases |positions|
  {
    if |positions| == 0 then Swapped(hand, deck)
    else
      var step := SwapStep(hand, deck, positions[0]);
      ApplySwaps(step.hand, step.deck, positions[1..])
  }

  function Negate(x: int): int
  {
    -x
  }

  /** Inserts x before the first element strictly smaller than it. */
  function InsertDescending(x: int, s: seq<int>): seq<int>
  {
    if |s| == 0 then [x]
    else if x > s[0] then [x] + s
    else [s[0]] + InsertDescending(x, s[1..])
  }

  /**
   * Collections.sort with Collections.reverseOrder(): highest position first,
   * as the insertion sort on integers that DescendingIsReverseOrderSort
   * shows to be the stable sort by the negated value.
   */
  function Descending(positions: seq<int>): seq<int>
  {
    if |positions| == 0 then []
    else InsertDescending(positions[|positions| - 1], Descending(positions[..|positions| - 1]))
  }

  lemma {:induction false} InsertDescendingIsInsert(x: int, s: seq<int>)
    ensures InsertDescending(x, s) == Insert(x, s, Negate)
  {
    if |s| > 0 && x <= s[0] {
      InsertDescendingIsInsert(x, s[1..]);
    }
  }

  /** The integer insertion sort is the stable sort keyed by the negated value. */
  lemma {:induction false} DescendingIsReverseOrderSort(positions: seq<int>)
    ensures Descending(positions) == SortBy(positions, Negate)
  {
    if |positions| > 0 {
      var init := positions[..|positions| - 1];
      DescendingIsReverseOrderSort(init);
      InsertDescendingIsInsert(positions[|positions| - 1], Descending(init));
    }
  }

  ghost predicate StrictlyDescending(p: seq<int>)
  {
    forall i, j :: 0 <= i < j < |p| ==> p[i] > p[j]
  }

  ghost predicate DistinctInts(p: seq<int>)
  {
    forall i, j :: 0 <= i < j < |p| ==> p[i] != p[j]
  }

  /** The cards of h[..i] whose positions are not listed in removed, in order. */
  function KeepUpTo(h: seq<Card>, removed: seq<int>, i: nat): seq<Card>
    requires i <= |h|
  {
    if i == 0 then []
    else KeepUpTo(h, removed, i - 1) + (if i - 1 in removed then [] else [h[i - 1]])
  }

  /** The cards of h whose positions are not listed in removed, in order. */
  function Keep(h: seq<Card>, removed: seq<int>): seq<Card>
  {
    KeepUpTo(h, removed, |h|)
  }

  // ---------------------------------------------------------------------
  // One step and many steps
  // ---------------------------------------------------------------------

  /**
   * A visited position either swaps (the hand keeps its size, the deck
   * loses its first card, which ends the hand) or changes nothing; it swaps
   * exactly when the position is inside the hand and the deck is not empty.
   */
  lemma SwapStepSpec(hand: seq<Card>, deck: seq<Card>, pos: int)
    ensures var r := SwapStep(hand, deck, pos);
      if 0 <= pos < |hand| && |deck| > 0 then
        |r.hand| == |hand| && r.deck == deck[1..] && r.hand[|hand| - 1] == deck[0]
        && r.hand[..|hand| - 1] == hand[..pos] + hand[pos + 1..]
      else
        r == Swapped(hand, deck)
  {
  }

  /**
   * Swapping never changes the hand size, only takes cards from the front of
   * the deck, and never creates a card (a discarded card leaves the game).
   */
  lemma ApplySwapsFrame(hand: seq<Card>, deck: seq<Card>, positions: seq<int>)
    ensures var r := ApplySwaps(hand, deck, positions);
      && |r.hand| == |hand| && |r.deck| <= |deck|
      && |deck| - |r.deck| <= |positions|
      && multiset(r.hand) + multiset(r.deck) <= multiset(hand) + multiset(deck)
      && r.deck == deck[|deck| - |r.deck|..]
  {
    ApplySwapsHandSize(hand, deck, positions);
    ApplySwapsDeckSuffix(hand, deck, positions);
    ApplySwapsConserves(hand, deck, positions);
  }

  /** The hand keeps its size. */
  lemma {:induction false} ApplySwapsHandSize(hand: seq<Card>, deck: seq<Card>, positions: seq<int>)
    ensures |ApplySwaps(hand, deck, positions).hand| == |hand|
    decreases |positions|
  {
    if |positions| > 0 {
      var step := SwapStep(hand, deck, positions[0]);
      ApplySwapsHandSize(step.hand, step.deck, positions[1..]);
      StepSizes(hand, deck, positions[0]);
    }
  }

  /** The deck left is a suffix of the deck, at most one card shorter per position. */
  lemma {:induction false} ApplySwapsDeckSuffix(hand: seq<Card>, deck: seq<Card>, positions: seq<int>)
    ensures var rest := ApplySwaps(hand, deck, positions).deck;
      && |rest| <= |deck| && |deck| - |rest| <= |positions|
      && rest == deck[|deck| - |rest|..]
    decreases |positions|
  {
    if |positions| == 0 {
      assert deck[0..] == deck;
    } else {
      var step := SwapStep(hand, deck, positions[0]);
      var rest := ApplySwaps(step.hand, step.deck, positions[1..]).deck;
      assert ApplySwaps(hand, deck, positions).deck == rest;
      ApplySwapsDeckSuffix(step.hand, step.deck, positions[1..]);
      StepSizes(hand, deck, positions[0]);
      if step.deck != deck {
        SuffixOfTail(deck, step.deck, rest);
      }
    }
  }

  /** A suffix of the deck's tail is a suffix of the deck. */
  lemma SuffixOfTail(deck: seq<Card>, tail: seq<Card>, rest: seq<Card>)
    requires |deck| > 0 && tail == deck[1..] && |rest| <= |tail| && rest == tail[|tail| - |rest|..]
    ensures rest == deck[|deck| - |rest|..]
  {
    assert tail[|tail| - |rest|..] == deck[|deck| - |rest|..];
  }

  /** Hand and deck together end with no card they did not start with. */
  lemma {:induction false} ApplySwapsConserves(hand: seq<Card>, deck: seq<Card>, positions: seq<int>)
    ensures var r := ApplySwaps(hand, deck, positions);
      multiset(r.hand) + multiset(r.deck) <= multiset(hand) + multiset(deck)
    decreases |positions|
  {
    if |positions| > 0 {
      var r := ApplySwaps(hand, deck, positions);
      var step := SwapStep(hand, deck, positions[0]);
      assert r == ApplySwaps(step.hand, step.deck, positions[1..]);
      ApplySwapsConserves(step.hand, step.deck, positions[1..]);
      StepConserves(hand, deck, positions[0]);
    }
  }

  /** One step keeps the hand size and takes the deck's first card or nothing. */
  lemma StepSizes(hand: seq<Card>, deck: seq<Card>, pos: int)
    ensures var step := SwapStep(hand, deck, pos);
      && |step.hand| == |hand|
      && (step.deck == deck || (|deck| > 0 && step.deck == deck[1..]))
  {
  }

  /** One step discards at most the card at the position and draws the deck's first card. */
  lemma StepConserves(hand: seq<Card>, deck: seq<Card>, pos: int)
    ensures var step := SwapStep(hand, deck, pos);
      multiset(step.hand) + multiset(step.deck) <= multiset(hand) + multiset(deck)
  {
    var step := SwapStep(hand, deck, pos);
    if 0 <= pos < |hand| && |deck| > 0 {
      assert step == Swapped(RemoveAt(hand, pos) + [deck[0]], deck[1..]);
      assert hand == hand[..pos] + [hand[pos]] + hand[pos + 1..];
      assert deck == [deck[0]] + deck[1..];
    } else {
      assert step == Swapped(hand, deck);
    }
  }

  /** With an empty deck every position is skipped. */
  lemma {:induction false} ApplySwapsEmptyDeck(hand: seq<Card>, positions: seq<int>)
    ensures ApplySwaps(hand, [], positions) == Swapped(hand, [])
    decreases |positions|
  {
    if |positions| > 0 {
      ApplySwapsEmptyDeck(hand, positions[1..]);
    }
  }

  // ---------------------------------------------------------------------
  // Keep
  // ---------------------------------------------------------------------

  lemma {:induction false} KeepAgree(h: seq<Card>, r1: seq<int>, r2: seq<int>, i: nat)
    requires i <= |h|
    requires forall x :: 0 <= x < i ==> (x in r1 <==> x in r2)
    ensures KeepUpTo(h, r1, i) == KeepUpTo(h, r2, i)
  {
    if i > 0 {
      KeepAgree(h, r1, r2, i - 1);
    }
  }

  /** Nothing below i removed: the prefix survives whole. */
  lemma {:induction false} KeepUntouched(h: seq<Card>, removed: seq<int>, i: nat)
    requires i <= |h|
    requires forall x :: 0 <= x < i ==> x !in removed
    ensures KeepUpTo(h, removed, i) == h[..i]
  {
    if i > 0 {
      KeepUntouched(h, removed, i - 1);
      assert h[..i] == h[..i - 1] + [h[i - 1]];
    }
  }

  /**
   * Listing one more position p removes, from what is kept, the card that
   * sits at p in h: it is at index c, the number of kept cards before p.
   */
  lemma {:induction false} KeepRemoveOne(h: seq<Card>, removed: seq<int>, p: nat, i: nat)
    requires p < i <= |h| && p !in removed
    ensures var c := |KeepUpTo(h, removed, p)|;
      && c < |KeepUpTo(h, removed, i)|
      && KeepUpTo(h, removed, i)[c] == h[p]
      && KeepUpTo(h, removed + [p], i) == RemoveAt(KeepUpTo(h, removed, i), c)
  {
    var c := |KeepUpTo(h, removed, p)|;
    if i == p + 1 {
      KeepAgree(h, removed + [p], removed, p);
      assert KeepUpTo(h, removed, i) == KeepUpTo(h, removed, p) + [h[p]];
      assert p in removed + [p];
    } else {
      KeepRemoveOne(h, removed, p, i - 1);
      var a := KeepUpTo(h, removed, i - 1);
      var e := if i - 1 in removed then [] else [h[i - 1]];
      assert (i - 1 in removed + [p]) <==> (i - 1 in removed);
      assert KeepUpTo(h, removed + [p], i) == RemoveAt(a, c) + e;
      assert RemoveAt(a, c) + e == RemoveAt(a + e, c);
    }
  }

  // ---------------------------------------------------------------------
  // The descending-order theorem
  // ---------------------------------------------------------------------

  function Min(a: int, b: int): int
  {
    if a <= b then a else b
  }

  /**
   * Strictly descending positions inside the hand: with k = min(positions,
   * deck) swaps performed, the final hand is the cards at unchosen (or not
   * reached) positions in their original order followed by the first k deck
   * cards in draw order, and the deck has lost exactly those k cards.
   */
  lemma SwapsRemoveChosenCards(hand: seq<Card>, deck: seq<Card>, positions: seq<int>)
    requires StrictlyDescending(positions)
    requires forall i :: 0 <= i < |positions| ==> 0 <= positions[i] < |hand|
    ensures var k := Min(|positions|, |deck|);
      ApplySwaps(hand, deck, positions) == Swapped(Keep(hand, positions[..k]) + deck[..k], deck[k..])
  {
    ApplyFrom(hand, deck, positions, 0);
    assert positions[..0] == [] && positions[0..] == positions;
    KeepUntouched(hand, [], |hand|);
    assert hand[..|hand|] == hand;
    assert Keep(hand, positions[..0]) == hand;
    assert deck[..0] == [] && deck[0..] == deck;
    assert Keep(hand, positions[..0]) + deck[..0] == hand;
  }

  /** After j swaps the state is Keep(hand, positions[..j]) ++ deck[..j]; the rest follows. */
  lemma {:induction false} ApplyFrom(hand: seq<Card>, deck: seq<Card>, positions: seq<int>, j: nat)
    requires StrictlyDescending(positions)
    requires forall i :: 0 <= i < |positions| ==> 0 <= positions[i] < |hand|
    requires j <= Min(|positions|, |deck|)
    ensures var k := Min(|positions|, |deck|);
      ApplySwaps(Keep(hand, positions[..j]) + deck[..j], deck[j..], positions[j..])
        == Swapped(Keep(hand, positions[..k]) + deck[..k], deck[k..])
    decreases |positions| - j
  {
    var k := Min(|positions|, |deck|);
    if j == k {
      if k == |positions| {
        assert positions[j..] == [];
      } else {
        assert deck[j..] == [];
        ApplySwapsEmptyDeck(Keep(hand, positions[..j]) + deck[..j], positions[j..]);
      }
    } else {
      var p := positions[j];
      var removed := positions[..j];
      assert forall x :: 0 <= x < p ==> x !in removed;
      assert p !in removed;
      KeepUntouched(hand, removed, p);
      KeepRemoveOne(hand, removed, p, |hand|);
      assert positions[..j + 1] == removed + [p];
      var kept := Keep(hand, removed);
      var cur := kept + deck[..j];
      assert |KeepUpTo(hand, removed, p)| == p;
      assert p < |kept|;
      assert RemoveAt(cur, p) == RemoveAt(kept, p) + deck[..j];
      assert deck[j..][0] == deck[j] && deck[j..][1..] == deck[j + 1..];
      assert deck[..j + 1] == deck[..j] + [deck[j]];
      assert SwapStep(cur, deck[j..], p) == Swapped(Keep(hand, positions[..j + 1]) + deck[..j + 1], deck[j + 1..]);
      assert positions[j..][0] == p && positions[j..][1..] == positions[j + 1..];
      ApplyFrom(hand, deck, positions, j + 1);
    }
  }

  /** Each swap removes the card the position named in the original hand. */
  lemma SwapRemovesOriginalCard(hand: seq<Card>, positions: seq<int>, j: nat)
    requires StrictlyDescending(positions)
    requires forall i :: 0 <= i < |positions| ==> 0 <= positions[i] < |hand|
    requires j < |positions|
    ensures positions[j] < |Keep(hand, positions[..j])|
    ensures Keep(hand, positions[..j])[positions[j]] == hand[positions[j]]
    ensures Keep(hand, positions[..j + 1]) == RemoveAt(Keep(hand, positions[..j]), positions[j])
  {
    var p := positions[j];
    var removed := positions[..j];
    assert forall x :: 0 <= x < p ==> x !in removed;
    KeepUntouched(hand, removed, p);
    KeepRemoveOne(hand, removed, p, |hand|);
    assert positions[..j + 1] == removed + [p];
  }

  // ---------------------------------------------------------------------
  // Sorting the positions
  // ---------------------------------------------------------------------

  lemma {:induction false} DistinctCountInts(s: seq<int>, x: int)
    requires DistinctInts(s)
    ensures multiset(s)[x] <= 1
  {
    if |s| > 0 {
      var init := s[..|s| - 1];
      DistinctCountInts(init, x);
      assert s == init + [s[|s| - 1]];
      if s[|s| - 1] == x {
        assert x !in init;
      }
    }
  }

  /** Sorting distinct positions in reverse order makes them strictly descending, same set. */
  lemma DescendingSpec(positions: seq<int>)
    requires DistinctInts(positions)
    ensures StrictlyDescending(Descending(positions))
    ensures multiset(Descending(positions)) == multiset(positions)
  {
    var d := Descending(positions);
    DescendingIsReverseOrderSort(positions);
    SortBySorted(positions, Negate);
    SortByPermutes(positions, Negate);
    forall i, j | 0 <= i < j < |d| ensures d[i] > d[j] {
      assert Negate(d[i]) <= Negate(d[j]);
      if d[i] == d[j] {
        RepeatedCount(d, i, j);
        DistinctCountInts(positions, d[i]);
      }
    }
  }

  /** A descending sequence of distinct values is left as it is (what the round records). */
  lemma DescendingOfDescending(positions: seq<int>)
    requires StrictlyDescending(positions)
    ensures Descending(positions) == positions
  {
    DescendingIsReverseOrderSort(positions);
    SortBySortedIsIdentity(positions, Negate);
  }
}
