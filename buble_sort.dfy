/**
 * The bubble sort exercise: passes of adjacent compare-and-swap over a
 * shrinking prefix, the next pass stopping where the last swap happened,
 * with counts of the comparisons and swaps made.
 */
module Sorting {

  ghost predicate Sorted(s: seq<int>)
  {
    forall i, j :: 0 <= i < j < |s| ==> s[i] <= s[j]
  }

  /** How many elements of t are smaller than x. */
  function Smaller(x: int, t: seq<int>): nat
  {
    if |t| == 0 then 0 else (if x > t[0] then 1 else 0) + Smaller(x, t[1..])
  }

  /** The number of pairs i < j with s[i] > s[j]. */
  function Inversions(s: seq<int>): nat
  {
    if |s| == 0 then 0 else Smaller(s[0], s[1..]) + Inversions(s[1..])
  }

  /** Exchanges positions i and i + 1. */
  function SwapAdjacent(s: seq<int>, i: nat): (r: seq<int>)
    requires i + 1 < |s|
    ensures |r| == |s|
  {
    s[i := s[i + 1]][i + 1 := s[i]]
  }

  /** Swapping two neighbours does not change how many elements lie below x. */
  lemma {:induction false} SmallerSwap(x: int, t: seq<int>, i: nat)
    requires i + 1 < |t|
    ensures Smaller(x, SwapAdjacent(t, i)) == Smaller(x, t)
  {
    var u := SwapAdjacent(t, i);
    if i == 0 {
      assert u[1..][1..] == t[1..][1..];
    } else {
      assert u[1..] == SwapAdjacent(t[1..], i - 1);
      SmallerSwap(x, t[1..], i - 1);
    }
  }

  /** Swapping an out-of-order pair of neighbours removes exactly one inversion. */
  lemma {:induction false} InversionsSwap(s: seq<int>, i: nat)
    requires i + 1 < |s| && s[i] > s[i + 1]
    ensures Inversions(SwapAdjacent(s, i)) + 1 == Inversions(s)
  {
    var u := SwapAdjacent(s, i);
    if i == 0 {
      assert u[1..][1..] == s[1..][1..];
    } else {
      assert u[1..] == SwapAdjacent(s[1..], i - 1);
      InversionsSwap(s[1..], i - 1);
      SmallerSwap(s[0], s[1..], i - 1);
    }
  }

  lemma {:induction false} SmallerZero(x: int, t: seq<int>)
    ensures Smaller(x, t) == 0 <==> forall k :: 0 <= k < |t| ==> x <= t[k]
  {
    if |t| > 0 {
      SmallerZero(x, t[1..]);
      assert forall k :: 1 <= k < |t| ==> t[k] == t[1..][k - 1];
    }
  }

  /** A sequence is sorted exactly when it has no inversion. */
  lemma {:induction false} SortedIffNoInversions(s: seq<int>)
    ensures Sorted(s) <==> Inversions(s) == 0
  {
    if |s| > 0 {
      var t := s[1..];
      SortedIffNoInversions(t);
      SmallerZero(s[0], t);
      assert forall k :: 1 <= k < |s| ==> s[k] == t[k - 1];
      if Inversions(s) == 0 {
        forall i, j | 0 <= i < j < |s| ensures s[i] <= s[j] {
          if i > 0 {
            assert t[i - 1] <= t[j - 1];
          } else {
            assert s[0] <= t[j - 1];
          }
        }
      }
    }
  }

  /**
   * bubleSort on myArray, returning the two counters it prints. Each pass
   * compares neighbours from firstPos up to lastPos and swaps those out of
   * order; the last swap position bounds the next pass.
   */
  method BubleSort(myArray: array<int>) returns (numComparisons: nat, numSwaps: nat)
    modifies myArray
    ensures (myArray[..], numComparisons, numSwaps) == BubbleSorted(old(myArray[..]))
    ensures Sorted(myArray[..])
    ensures multiset(myArray[..]) == multiset(old(myArray[..]))
    ensures numSwaps == Inversions(old(myArray[..]))
    ensures Sorted(old(myArray[..])) ==>
      myArray[..] == old(myArray[..]) && numSwaps == 0 && numComparisons == (if myArray.Length == 0 then 0 else myArray.Length - 1)
  {
    var n := myArray.Length;
    ghost var input := myArray[..];
    var firstPos := 0;
    var lastPos := n - 1;
    numComparisons, numSwaps := 0, 0;
    while firstPos < lastPos
      invariant firstPos == 0 && -1 <= lastPos < n && |myArray[..]| == n
      invariant SortFrom(myArray[..], lastPos, numComparisons, numSwaps) == BubbleSorted(input)
      decreases lastPos
    {
      var lastSwapPos, comparisons, swaps := Pass(myArray, lastPos);
      numComparisons := numComparisons + comparisons;
      numSwaps := numSwaps + swaps;
      lastPos := lastSwapPos;
    }
    BubbleSortedSpec(input);
  }

  /**
   * The passes from one whose last compared position is lastPos on: while
   * lastPos is above 0, run a pass, add its comparisons and swaps, and let
   * its last swap position be the next lastPos.
   */
  function SortFrom(s: seq<int>, lastPos: int, comparisons: nat, swaps: nat): (seq<int>, nat, nat)
    requires -1 <= lastPos < |s|
    decreases lastPos
  {
    if lastPos <= 0 then (s, comparisons, swaps)
    else
      var r := BubblePass(s, lastPos);
      SortFrom(r.0, r.1, comparisons + lastPos, swaps + r.2)
  }

  /** The whole of bubleSort on s: the sorted sequence and the two counters. */
  function BubbleSorted(s: seq<int>): (seq<int>, nat, nat)
  {
    SortFrom(s, |s| - 1, 0, 0)
  }

  /** What bubleSort promises: sorted, a permutation, one swap per inversion, nothing done to sorted input. */
  lemma BubbleSortedSpec(s: seq<int>)
    ensures var r := BubbleSorted(s);
      && Sorted(r.0) && multiset(r.0) == multiset(s) && r.2 == Inversions(s)
      && (Sorted(s) ==> r == (s, if |s| == 0 then 0 else |s| - 1, 0))
  {
    var r := BubbleSorted(s);
    SortFromSorts(s, |s| - 1, 0, 0);
    SortFromPermutes(s, |s| - 1, 0, 0);
    SortFromInversions(s, |s| - 1, 0, 0);
    SortedIffNoInversions(r.0);
    if Sorted(s) && |s| > 1 {
      PassFromSorted(s, 0, |s| - 1, 0, 0);
    }
  }

  /**
   * When everything after lastPos is sorted and no smaller than anything
   * up to lastPos, the remaining passes leave the sequence sorted.
   */
  lemma {:induction false} SortFromSorts(s: seq<int>, lastPos: int, comparisons: nat, swaps: nat)
    requires -1 <= lastPos < |s|
    requires forall k, l :: lastPos < k < l < |s| ==> s[k] <= s[l]
    requires forall k, l :: 0 <= k <= lastPos < l < |s| ==> s[k] <= s[l]
    ensures Sorted(SortFrom(s, lastPos, comparisons, swaps).0)
    decreases lastPos
  {
    if lastPos <= 0 {
      forall k, l | 0 <= k < l < |s| ensures s[k] <= s[l] {
      }
    } else {
      var r := BubblePass(s, lastPos);
      PassKeepsOrder(s, lastPos);
      SortFromSorts(r.0, r.1, comparisons + lastPos, swaps + r.2);
    }
  }

  lemma {:induction false} SortFromPermutes(s: seq<int>, lastPos: int, comparisons: nat, swaps: nat)
    requires -1 <= lastPos < |s|
    ensures multiset(SortFrom(s, lastPos, comparisons, swaps).0) == multiset(s)
    decreases lastPos
  {
    if lastPos > 0 {
      var r := BubblePass(s, lastPos);
      PassFromPermutes(s, 0, lastPos, 0, 0);
      SortFromPermutes(r.0, r.1, comparisons + lastPos, swaps + r.2);
    }
  }

  lemma {:induction false} SortFromInversions(s: seq<int>, lastPos: int, comparisons: nat, swaps: nat)
    requires -1 <= lastPos < |s|
    ensures var r := SortFrom(s, lastPos, comparisons, swaps);
      r.2 + Inversions(r.0) == swaps + Inversions(s)
    decreases lastPos
  {
    if lastPos > 0 {
      var r := BubblePass(s, lastPos);
      PassFromInversions(s, 0, lastPos, 0, 0);
      SortFromInversions(r.0, r.1, comparisons + lastPos, swaps + r.2);
    }
  }

  /**
   * The rest of a pass from position i: compare s[i] with s[i + 1], swap
   * them when out of order (recording i as the last swap position and
   * counting the swap), and go on until position lastPos. The result is the
   * final sequence, the last swap position and the swap count.
   */
  function PassFrom(s: seq<int>, i: nat, lastPos: nat, lastSwapPos: nat, swaps: nat): (r: (seq<int>, nat, nat))
    requires i <= lastPos < |s| && lastSwapPos <= i
    ensures |r.0| == |s| && r.1 <= lastPos && (r.1 < lastPos || r.1 == lastSwapPos)
    decreases lastPos - i
  {
    if i == lastPos then (s, lastSwapPos, swaps)
    else if s[i] > s[i + 1] then PassFrom(SwapAdjacent(s, i), i + 1, lastPos, i, swaps + 1)
    else PassFrom(s, i + 1, lastPos, lastSwapPos, swaps)
  }

  /** A whole pass over positions 0..lastPos. */
  function BubblePass(s: seq<int>, lastPos: nat): (r: (seq<int>, nat, nat))
    requires 0 < lastPos < |s|
    ensures |r.0| == |s| && r.1 < lastPos
  {
    PassFrom(s, 0, lastPos, 0, 0)
  }

  /** One pass of bubleSort's inner loop over positions 0..lastPos, comparing lastPos neighbour pairs. */
  method Pass(myArray: array<int>, lastPos: int) returns (lastSwapPos: int, numComparisons: nat, numSwaps: nat)
    requires 0 < lastPos < myArray.Length
    modifies myArray
    ensures (myArray[..], lastSwapPos, numSwaps) == BubblePass(old(myArray[..]), lastPos)
    ensures numComparisons == lastPos
  {
    lastSwapPos := 0;
    numComparisons, numSwaps := 0, 0;
    ghost var input := myArray[..];
    for i := 0 to lastPos
      invariant 0 <= lastSwapPos <= i && |myArray[..]| == |input|
      invariant PassFrom(myArray[..], i, lastPos, lastSwapPos, numSwaps) == BubblePass(input, lastPos)
      invariant numComparisons == i
    {
      numComparisons := numComparisons + 1;
      if myArray[i] > myArray[i + 1] {
        ghost var before := myArray[..];
        numSwaps := numSwaps + 1;
        var temp := myArray[i + 1];
        myArray[i + 1] := myArray[i];
        myArray[i] := temp;
        assert myArray[..] == SwapAdjacent(before, i);
        lastSwapPos := i;
      }
    }
  }

  /**
   * What a pass over positions up to lastPos knows after comparing up to
   * position i: s[i] is the largest of s[..i + 1], the stretch after the
   * last swap position is sorted, everything up to that position is no
   * larger than the stretch's first element, the positions after lastPos
   * still hold the input's values, and everything up to lastPos is no
   * larger than the first of those.
   */
  ghost predicate PassState(s: seq<int>, input: seq<int>, i: nat, lastSwapPos: nat, lastPos: nat)
  {
    && |s| == |input| && i <= lastPos < |s|
    && lastSwapPos <= i && (lastSwapPos == 0 || lastSwapPos < i)
    && (forall k :: 0 <= k <= i ==> s[k] <= s[i])
    && (forall k, l :: lastSwapPos < k < l <= i ==> s[k] <= s[l])
    && (lastSwapPos < i ==> forall k :: 0 <= k <= lastSwapPos ==> s[k] <= s[lastSwapPos + 1])
    && (forall l :: lastPos < l < |s| ==> s[l] == input[l])
    && (lastPos + 1 < |s| ==> forall k :: 0 <= k <= lastPos ==> s[k] <= s[lastPos + 1])
  }

  /** Swapping an out-of-order pair moves the last swap position to it and keeps the pass's knowledge. */
  lemma PassSwap(s: seq<int>, input: seq<int>, i: nat, lastSwapPos: nat, lastPos: nat)
    requires PassState(s, input, i, lastSwapPos, lastPos) && i < lastPos && s[i] > s[i + 1]
    ensures PassState(SwapAdjacent(s, i), input, i + 1, i, lastPos)
  {
  }

  /** Leaving an ordered pair keeps the pass's knowledge. */
  lemma PassKeep(s: seq<int>, input: seq<int>, i: nat, lastSwapPos: nat, lastPos: nat)
    requires PassState(s, input, i, lastSwapPos, lastPos) && i < lastPos && s[i] <= s[i + 1]
    ensures PassState(s, input, i + 1, lastSwapPos, lastPos)
  {
  }

  /** The rest of a pass ends knowing what PassState says at lastPos. */
  lemma {:induction false} PassFromState(input: seq<int>, s: seq<int>, i: nat, lastPos: nat, lastSwapPos: nat, swaps: nat)
    requires PassState(s, input, i, lastSwapPos, lastPos)
    ensures var r := PassFrom(s, i, lastPos, lastSwapPos, swaps);
      PassState(r.0, input, lastPos, r.1, lastPos)
    decreases lastPos - i
  {
    if i < lastPos {
      if s[i] > s[i + 1] {
        PassSwap(s, input, i, lastSwapPos, lastPos);
        PassFromState(input, SwapAdjacent(s, i), i + 1, lastPos, i, swaps + 1);
      } else {
        PassKeep(s, input, i, lastSwapPos, lastPos);
        PassFromState(input, s, i + 1, lastPos, lastSwapPos, swaps);
      }
    }
  }

  /** A pass only rearranges the elements. */
  lemma {:induction false} PassFromPermutes(s: seq<int>, i: nat, lastPos: nat, lastSwapPos: nat, swaps: nat)
    requires i <= lastPos < |s| && lastSwapPos <= i
    ensures multiset(PassFrom(s, i, lastPos, lastSwapPos, swaps).0) == multiset(s)
    decreases lastPos - i
  {
    if i < lastPos {
      if s[i] > s[i + 1] {
        SwapAdjacentPermutes(s, i);
        PassFromPermutes(SwapAdjacent(s, i), i + 1, lastPos, i, swaps + 1);
      } else {
        PassFromPermutes(s, i + 1, lastPos, lastSwapPos, swaps);
      }
    }
  }

  /** Every swap a pass counts removes one inversion. */
  lemma {:induction false} PassFromInversions(s: seq<int>, i: nat, lastPos: nat, lastSwapPos: nat, swaps: nat)
    requires i <= lastPos < |s| && lastSwapPos <= i
    ensures var r := PassFrom(s, i, lastPos, lastSwapPos, swaps);
      r.2 + Inversions(r.0) == swaps + Inversions(s)
    decreases lastPos - i
  {
    if i < lastPos {
      if s[i] > s[i + 1] {
        InversionsSwap(s, i);
        PassFromInversions(SwapAdjacent(s, i), i + 1, lastPos, i, swaps + 1);
      } else {
        PassFromInversions(s, i + 1, lastPos, lastSwapPos, swaps);
      }
    }
  }

  /** On a sorted sequence a pass swaps nothing. */
  lemma {:induction false} PassFromSorted(s: seq<int>, i: nat, lastPos: nat, lastSwapPos: nat, swaps: nat)
    requires i <= lastPos < |s| && lastSwapPos <= i && Sorted(s)
    ensures PassFrom(s, i, lastPos, lastSwapPos, swaps) == (s, lastSwapPos, swaps)
    decreases lastPos - i
  {
    if i < lastPos {
      assert s[i] <= s[i + 1];
      PassFromSorted(s, i + 1, lastPos, lastSwapPos, swaps);
    }
  }

  /**
   * bubleSort's loop invariant survives a pass: when everything after
   * lastPos is sorted and no smaller than anything up to lastPos, the pass
   * stops its last swap before lastPos and the same holds of that position.
   */
  lemma PassKeepsOrder(s: seq<int>, lastPos: nat)
    requires 0 < lastPos < |s|
    requires forall k, l :: lastPos < k < l < |s| ==> s[k] <= s[l]
    requires forall k, l :: 0 <= k <= lastPos < l < |s| ==> s[k] <= s[l]
    ensures var r := BubblePass(s, lastPos);
      && r.1 < lastPos && |r.0| == |s|
      && (forall k, l :: r.1 < k < l < |s| ==> r.0[k] <= r.0[l])
      && (forall k, l :: 0 <= k <= r.1 < l < |s| ==> r.0[k] <= r.0[l])
  {
    assert PassState(s, s, 0, 0, lastPos);
    PassFromState(s, s, 0, lastPos, 0, 0);
    var r := BubblePass(s, lastPos);
    var t, p := r.0, r.1;
    forall k, l | p < k < l < |s| ensures t[k] <= t[l] {
      if l > lastPos && k <= lastPos {
        assert t[k] <= t[lastPos + 1] <= t[l];
      }
    }
    forall k, l | 0 <= k <= p < l < |s| ensures t[k] <= t[l] {
      assert t[k] <= t[p + 1] <= t[l];
    }
  }

  lemma SwapAdjacentPermutes(s: seq<int>, i: nat)
    requires i + 1 < |s|
    ensures multiset(SwapAdjacent(s, i)) == multiset(s)
  {
    assert SwapAdjacent(s, i) == s[..i] + [s[i + 1], s[i]] + s[i + 2..];
    assert s == s[..i] + [s[i], s[i + 1]] + s[i + 2..];
  }
}
