/**
  Run-length encoding. A byte string is a list of pairs, a count and a value; a trailing odd byte is ignored and a
  count of zero stands for nothing. Encoding takes each run as long as a byte can count, and that is shown to be the
  shortest string that decodes to the input.
 */
module Rle {
  import opened Bytes

  const MAX_RUN: nat := 255

  /** How many of the first cap elements of x, counted from the start without a gap, are v. */
  function Lead(x: seq<byte>, v: byte, cap: nat): (n: nat)
    ensures n <= |x| && n <= cap
  {
    if |x| == 0 || cap == 0 || x[0] != v then 0 else 1 + Lead(x[1..], v, cap - 1)
  }

  function FirstRun(x: seq<byte>): (n: nat)
    requires |x| > 0
    ensures 0 < n <= |x| && n <= MAX_RUN
  {
    1 + Lead(x[1..], x[0], MAX_RUN - 1)
  }

  function Compress(x: seq<byte>): (e: seq<byte>) {
    if |x| == 0 then [] else [FirstRun(x), x[0]] + Compress(x[FirstRun(x)..])
  }

  function Repeat(v: byte, n: nat): (s: seq<byte>)
    ensures |s| == n && forall i :: 0 <= i < n ==> s[i] == v
  {
    seq(n, _ => v)
  }

  function Decompress(e: seq<byte>): (x: seq<byte>) {
    if |e| < 2 then [] else Repeat(e[1], e[0]) + Decompress(e[2..])
  }

  // The loops.

  /** out is what the first i bytes contribute to the encoding. */
  ghost predicate Encoded(input: seq<byte>, i: nat, out: seq<byte>) {
    i <= |input| && out + Compress(input[i..]) == Compress(input)
  }

  /** The inner loop: how many bytes from i on are equal, up to 255. */
  method CountRun(input: seq<byte>, i: nat) returns (cnt: byte)
    requires i < |input|
    ensures 0 < cnt && i + cnt <= |input| && forall j :: i <= j < i + cnt ==> input[j] == input[i]
    ensures i + cnt == |input| || cnt == MAX_RUN || input[i + cnt] != input[i]
  {
    var val := input[i];
    cnt := 1;
    while i + cnt < |input| && input[i + cnt] == val && cnt < 255
      invariant 1 <= cnt && i + cnt <= |input|
      invariant forall j :: i <= j < i + cnt ==> input[j] == val
    {
      cnt := cnt + 1;
    }
  }

  method RleCompress(input: seq<byte>) returns (out: seq<byte>)
    ensures out == Compress(input)
  {
    out := [];
    var i := 0;
    assert input[0..] == input;
    while i < |input|
      invariant Encoded(input, i, out)
    {
      var cnt := CountRun(input, i);
      TakeRun(input, i, cnt, out);
      out := out + [cnt];
      out := out + [input[i]];
      i := i + cnt;
    }
    assert input[i..] == [];
  }

  lemma {:induction false} TakeRun(input: seq<byte>, i: nat, cnt: byte, out: seq<byte>)
    requires 0 < cnt && i + cnt <= |input| && forall j :: i <= j < i + cnt ==> input[j] == input[i]
    requires i + cnt == |input| || cnt == MAX_RUN || input[i + cnt] != input[i]
    requires Encoded(input, i, out)
    ensures Encoded(input, i + cnt, out + [cnt] + [input[i]])
  {
    FirstRunIs(input[i..], cnt);
    assert input[i..][cnt..] == input[i + cnt..];
    ConcatAssoc(out, [cnt, input[i]], Compress(input[i + cnt..]));
    assert out + [cnt, input[i]] == out + [cnt] + [input[i]];
  }

  lemma {:induction false} LeadIs(x: seq<byte>, v: byte, cap: nat, n: nat)
    requires n <= |x| && n <= cap && forall j :: 0 <= j < n ==> x[j] == v
    requires n == |x| || n == cap || x[n] != v
    ensures Lead(x, v, cap) == n
    decreases n
  {
    if n > 0 {
      LeadIs(x[1..], v, cap - 1, n - 1);
    }
  }

  lemma {:induction false} FirstRunIs(x: seq<byte>, n: nat)
    requires 0 < n <= |x| && n <= MAX_RUN && forall j :: 0 <= j < n ==> x[j] == x[0]
    requires n == |x| || n == MAX_RUN || x[n] != x[0]
    ensures FirstRun(x) == n
  {
    LeadIs(x[1..], x[0], MAX_RUN - 1, n - 1);
  }

  method RleDecompress(input: seq<byte>) returns (out: seq<byte>)
    ensures out == Decompress(input)
  {
    out := [];
    var i := 0;
    while i + 1 < |input|
      invariant i <= |input|
      invariant out + Decompress(input[i..]) == Decompress(input)
      decreases |input| - i
    {
      var cnt, val := input[i], input[i + 1];
      ghost var before := out;
      var j := 0;
      while j < cnt
        invariant 0 <= j <= cnt && out == before + Repeat(val, j)
      {
        out := out + [val];
        j := j + 1;
        assert Repeat(val, j) == Repeat(val, j - 1) + [val];
      }
      assert input[i..][2..] == input[i + 2..];
      ConcatAssoc(before, Repeat(val, cnt), Decompress(input[i + 2..]));
      i := i + 2;
    }
    assert |input[i..]| < 2;
  }

  // Round trip.

  lemma {:induction false} LeadAll(x: seq<byte>, v: byte, cap: nat)
    ensures forall j :: 0 <= j < Lead(x, v, cap) ==> x[j] == v
    ensures Lead(x, v, cap) < |x| && Lead(x, v, cap) < cap ==> x[Lead(x, v, cap)] != v
  {
    if |x| == 0 || cap == 0 || x[0] != v {
    } else {
      LeadAll(x[1..], v, cap - 1);
      forall j | 0 <= j < Lead(x, v, cap) ensures x[j] == v {
        assert j > 0 ==> x[j] == x[1..][j - 1];
      }
    }
  }

  lemma {:induction false} FirstRunAll(x: seq<byte>)
    requires |x| > 0
    ensures forall j :: 0 <= j < FirstRun(x) ==> x[j] == x[0]
    ensures FirstRun(x) < |x| && FirstRun(x) < MAX_RUN ==> x[FirstRun(x)] != x[0]
  {
    LeadAll(x[1..], x[0], MAX_RUN - 1);
    forall j | 0 <= j < FirstRun(x) ensures x[j] == x[0] {
      assert j > 0 ==> x[j] == x[1..][j - 1];
    }
  }

  /** Decoding undoes encoding. */
  lemma {:induction false} RoundTrip(x: seq<byte>)
    ensures Decompress(Compress(x)) == x
    decreases |x|
  {
    if |x| > 0 {
      var n := FirstRun(x);
      FirstRunAll(x);
      RoundTrip(x[n..]);
      assert Compress(x)[2..] == Compress(x[n..]);
      assert x == Repeat(x[0], n) + x[n..];
    }
  }

  // Optimality.

  /** Dropping a prefix never makes the encoding longer. */
  lemma {:induction false} SuffixNoLonger(x: seq<byte>, k: nat)
    requires k <= |x|
    ensures |Compress(x[k..])| <= |Compress(x)|
    decreases |x|
  {
    if 0 < k < |x| {
      var n := FirstRun(x);
      if k >= n {
        assert x[n..][k - n..] == x[k..];
        SuffixNoLonger(x[n..], k - n);
      } else {
        var m := FirstRun(x[k..]);
        InsideRun(x, k);
        assert x[k..][m..] == x[n..][k + m - n..];
        SuffixNoLonger(x[n..], k + m - n);
      }
    } else {
      assert k == 0 ==> x[k..] == x;
    }
  }

  lemma {:induction false} InsideRun(x: seq<byte>, k: nat)
    requires |x| > 0 && k < FirstRun(x)
    ensures FirstRun(x[k..]) >= FirstRun(x) - k
  {
    FirstRunAll(x);
    FirstRunAll(x[k..]);
    var m := FirstRun(x[k..]);
    if m < |x| - k && m < MAX_RUN {
      assert x[k..][m] == x[k + m] && x[k..][0] == x[k];
    }
  }

  /** No byte string that decodes to x is shorter than the encoding of x. */
  lemma {:induction false} Optimal(x: seq<byte>, e: seq<byte>)
    requires Decompress(e) == x
    ensures |Compress(x)| <= |e|
    decreases |e|
  {
    if |e| < 2 {
    } else {
      var c, rest := e[0], Decompress(e[2..]);
      Optimal(rest, e[2..]);
      if c == 0 {
        assert x == rest;
      } else {
        assert x[c..] == rest;
        LongestRun(x, c);
        var n := FirstRun(x);
        assert x[c..][n - c..] == x[n..];
        SuffixNoLonger(x[c..], n - c);
      }
    }
  }

  lemma {:induction false} LongestRun(x: seq<byte>, c: nat)
    requires 0 < c <= |x| && c <= MAX_RUN && forall j :: 0 <= j < c ==> x[j] == x[0]
    ensures FirstRun(x) >= c
  {
    FirstRunAll(x);
  }

  // Length.

  /** The length of the longest run at the start, not cut. */
  function WholeRun(x: seq<byte>): (n: nat)
    requires |x| > 0
    ensures 0 < n <= |x|
  {
    1 + Lead(x[1..], x[0], |x|)
  }

  /** The maximal runs, each counted once for every 255 elements or part of them. */
  function Runs(x: seq<byte>): nat {
    if |x| == 0 then 0 else (WholeRun(x) + MAX_RUN - 1) / MAX_RUN + Runs(x[WholeRun(x)..])
  }

  lemma {:induction false} WholeRunAll(x: seq<byte>)
    requires |x| > 0
    ensures forall j :: 0 <= j < WholeRun(x) ==> x[j] == x[0]
    ensures WholeRun(x) < |x| ==> x[WholeRun(x)] != x[0]
  {
    LeadAll(x[1..], x[0], |x|);
    forall j | 0 <= j < WholeRun(x) ensures x[j] == x[0] {
      assert j > 0 ==> x[j] == x[1..][j - 1];
    }
  }

  lemma {:induction false} WholeRunIs(x: seq<byte>, n: nat)
    requires 0 < n <= |x| && (forall j :: 0 <= j < n ==> x[j] == x[0]) && (n < |x| ==> x[n] != x[0])
    ensures WholeRun(x) == n
  {
    LeadIs(x[1..], x[0], |x|, n - 1);
  }

  /** A run that is cut goes on behind the cut. */
  lemma {:induction false} CutRun(x: seq<byte>)
    requires |x| > 0 && WholeRun(x) > MAX_RUN
    ensures FirstRun(x) == MAX_RUN && Runs(x) == 1 + Runs(x[MAX_RUN..])
  {
    WholeRunAll(x);
    FirstRunIs(x, MAX_RUN);
    var n, rest := WholeRun(x), x[MAX_RUN..];
    assert rest[0] == x[MAX_RUN] == x[0];
    WholeRunIs(rest, n - MAX_RUN);
    assert rest[n - MAX_RUN..] == x[n..];
    Parts(n);
  }

  lemma {:induction false} UncutRun(x: seq<byte>)
    requires |x| > 0 && WholeRun(x) <= MAX_RUN
    ensures FirstRun(x) == WholeRun(x) && Runs(x) == 1 + Runs(x[WholeRun(x)..])
  {
    WholeRunAll(x);
    FirstRunIs(x, WholeRun(x));
    Parts(WholeRun(x));
  }

  lemma {:induction false} Parts(n: nat)
    ensures n > MAX_RUN ==> (n + MAX_RUN - 1) / MAX_RUN == 1 + (n - MAX_RUN + MAX_RUN - 1) / MAX_RUN
    ensures 0 < n <= MAX_RUN ==> (n + MAX_RUN - 1) / MAX_RUN == 1
  {
  }

  lemma {:induction false} OnePair(x: seq<byte>)
    requires |x| > 0
    ensures |Compress(x)| == 2 + |Compress(x[FirstRun(x)..])|
  {
  }

  /** The encoding is exactly two bytes for every run, a run longer than 255 counted as often as it is cut. */
  lemma {:induction false} LengthExact(x: seq<byte>)
    ensures |Compress(x)| == 2 * Runs(x)
    decreases |x|
  {
    if |x| > 0 {
      OnePair(x);
      LengthExact(x[FirstRun(x)..]);
      if WholeRun(x) > MAX_RUN {
        CutRun(x);
      } else {
        UncutRun(x);
      }
    }
  }
}
