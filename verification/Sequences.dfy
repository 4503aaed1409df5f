/** Facts about sequences that several components share. */
module Sequences {
  /** The sequence without its element at `j`. */
  function Without<T>(s: seq<T>, j: int): (r: seq<T>)
    requires 0 <= j < |s|
    ensures |r| == |s| - 1
    ensures forall k :: 0 <= k < |r| ==> r[k] == s[if k < j then k else k + 1]
  {
    s[..j] + s[j + 1..]
  }

  /** More than `n` distinct numbers below `n` cannot be. */
  lemma {:induction false} Crowded(s: seq<int>, n: nat)
    requires forall k :: 0 <= k < |s| ==> 0 <= s[k] < n
    requires forall j, k :: 0 <= j < k < |s| ==> s[j] != s[k]
    ensures |s| <= n
    decreases n
  {
    if s == [] {
    } else if j :| 0 <= j < |s| && s[j] == n - 1 {
      Crowded(Without(s, j), n - 1);
    } else {
      assert 0 <= s[0] < n;
      Crowded(s, n - 1);
    }
  }
}
