/** Counting different elements. */
module Counting {

  /** Different elements of a set are at most as many as the set. */
  lemma {:induction false} Pigeonhole(s: seq<int>, pigeons: set<int>)
    requires forall i :: 0 <= i < |s| ==> s[i] in pigeons
    requires forall i, j :: 0 <= i < j < |s| ==> s[i] != s[j]
    ensures |s| <= |pigeons|
    decreases |s|
  {
    if |s| > 0 {
      var last := s[|s| - 1];
      Pigeonhole(s[..|s| - 1], pigeons - {last});
    }
  }

  function Below(n: nat): (s: set<int>)
    ensures |s| == n && forall i :: i in s <==> 0 <= i < n
  {
    if n == 0 then {} else Below(n - 1) + {n - 1}
  }

  /** To contain all numbers below n takes n elements. */
  lemma {:induction false} Covering(s: seq<int>, n: nat)
    requires forall i :: 0 <= i < n ==> i in s
    ensures |s| >= n
    decreases n
  {
    if n > 0 {
      assert n - 1 in s;
      var q :| 0 <= q < |s| && s[q] == n - 1;
      var less := s[..q] + s[q + 1..];
      forall i | 0 <= i < n - 1 ensures i in less {
        assert i in s;
        var k :| 0 <= k < |s| && s[k] == i;
        assert less[if k < q then k else k - 1] == i;
      }
      Covering(less, n - 1);
    }
  }
}
