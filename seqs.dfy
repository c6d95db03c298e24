/** Facts about sequences shared by the proofs of the other modules. */
module Seqs {

  /** A non-empty sequence is its prefix without the last element, followed by that element. */
  lemma LastSplit<T>(s: seq<T>)
    requires |s| > 0
    ensures s[..|s| - 1] + [s[|s| - 1]] == s
  {
  }

  /** A value counted twice occurs at two different positions. */
  lemma {:induction false} TwoOccurrences<T>(s: seq<T>, x: T)
    requires multiset(s)[x] >= 2
    ensures exists i, j :: 0 <= i < j < |s| && s[i] == x && s[j] == x
  {
    var n := |s|;
    var init := s[..n - 1];
    assert s == init + [s[n - 1]];
    if s[n - 1] == x {
      assert x in multiset(init);
      var i :| 0 <= i < |init| && init[i] == x;
      assert s[i] == x && s[n - 1] == x;
    } else {
      TwoOccurrences(init, x);
      var i, j :| 0 <= i < j < |init| && init[i] == x && init[j] == x;
      assert s[i] == x && s[j] == x;
    }
  }

  /** A value at two different positions is counted at least twice. */
  lemma RepeatedCount<T>(s: seq<T>, i: nat, j: nat)
    requires i < j < |s| && s[i] == s[j]
    ensures multiset(s)[s[i]] >= 2
  {
    assert s == s[..j] + [s[j]] + s[j + 1..];
    assert s[i] in s[..j];
  }

  /**
   * In a chain of sequences, each one element longer than the one before and
   * starting with it, element k keeps the value it had when it was added.
   */
  lemma {:induction false} ChainKeeps<T>(rs: seq<seq<T>>, k: nat, i: nat)
    requires k < i < |rs|
    requires forall j :: 0 < j < |rs| ==> |rs[j]| == j && rs[j][..j - 1] == rs[j - 1]
    ensures rs[i][k] == rs[k + 1][k]
  {
    if i > k + 1 {
      ChainKeeps(rs, k, i - 1);
      assert rs[i][..i - 1][k] == rs[i][k];
    }
  }

  /** A sequence of sizes that shrinks by at most d per step has lost at most d·i after i steps. */
  lemma {:induction false} ShrinksByAtMost(sizes: seq<int>, d: int, i: nat)
    requires i < |sizes|
    requires forall j :: 0 < j < |sizes| ==> sizes[j] + d >= sizes[j - 1]
    ensures sizes[i] + d * i >= sizes[0]
  {
    if i > 0 {
      ShrinksByAtMost(sizes, d, i - 1);
      assert sizes[i] + d >= sizes[i - 1];
    }
  }
}
