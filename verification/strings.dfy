/** The string searches and cuts that the line-based front ends are written with. */
module Strings {

  predicate Starts(s: string, prefix: string) {
    |prefix| <= |s| && s[..|prefix|] == prefix
  }

  predicate At(s: string, part: string, i: int) {
    0 <= i && i + |part| <= |s| && s[i..i + |part|] == part
  }

  /** The first place from i on where part stands, or -1. */
  function Find(s: string, part: string, i: nat): (r: int)
    ensures r == -1 || (i <= r && At(s, part, r))
    ensures forall j :: i <= j && (r == -1 || j < r) ==> !At(s, part, j)
    decreases |s| - i
  {
    if i + |part| > |s| then -1 else if At(s, part, i) then i
    else if i == |s| then -1 else Find(s, part, i + 1)
  }

  /** The last place where the character stands, or -1. */
  function FindLast(s: string, c: char): (r: int)
    ensures -1 <= r < |s|
    ensures r >= 0 ==> s[r] == c
    ensures forall j :: r < j < |s| ==> s[j] != c
  {
    if |s| == 0 then -1 else if s[|s| - 1] == c then |s| - 1 else FindLast(s[..|s| - 1], c)
  }

  /** There is only one first place. */
  lemma {:induction false} FindIs(s: string, part: string, i: nat)
    requires At(s, part, i) && forall j :: 0 <= j < i ==> !At(s, part, j)
    ensures Find(s, part, 0) == i
  {
  }

  /** What a front end takes for blank. */
  type Blanks = set<char>

  const SPACE_AND_TAB: Blanks := {' ', '\t'}

  predicate AllBlank(s: string, ws: Blanks) {
    forall i :: 0 <= i < |s| ==> s[i] in ws
  }

  function TrimLeft(s: string, ws: Blanks): (t: string)
    ensures |t| <= |s|
  {
    if |s| > 0 && s[0] in ws then TrimLeft(s[1..], ws) else s
  }

  function TrimRight(s: string, ws: Blanks): (t: string)
    ensures |t| <= |s|
  {
    if |s| > 0 && s[|s| - 1] in ws then TrimRight(s[..|s| - 1], ws) else s
  }

  function Trim(s: string, ws: Blanks): string {
    TrimRight(TrimLeft(s, ws), ws)
  }

  /** Neither starts nor ends with a blank. */
  predicate Tight(s: string, ws: Blanks) {
    |s| > 0 ==> s[0] !in ws && s[|s| - 1] !in ws
  }

  lemma {:induction false} TrimLeftBlanks(blanks: string, s: string, ws: Blanks)
    requires AllBlank(blanks, ws) && (|s| > 0 ==> s[0] !in ws)
    ensures TrimLeft(blanks + s, ws) == s
    decreases |blanks|
  {
    if |blanks| == 0 {
      assert blanks + s == s;
    } else {
      assert (blanks + s)[1..] == blanks[1..] + s;
      TrimLeftBlanks(blanks[1..], s, ws);
    }
  }

  lemma {:induction false} TrimRightBlanks(s: string, blanks: string, ws: Blanks)
    requires AllBlank(blanks, ws) && (|s| > 0 ==> s[|s| - 1] !in ws)
    ensures TrimRight(s + blanks, ws) == s
    decreases |blanks|
  {
    if |blanks| == 0 {
      assert s + blanks == s;
    } else {
      assert (s + blanks)[..|s + blanks| - 1] == s + blanks[..|blanks| - 1];
      TrimRightBlanks(s, blanks[..|blanks| - 1], ws);
    }
  }

  /** Trimming takes away just the blanks around. */
  lemma {:induction false} TrimAround(before: string, s: string, after: string, ws: Blanks)
    requires AllBlank(before, ws) && AllBlank(after, ws) && Tight(s, ws)
    ensures Trim(before + s + after, ws) == s
  {
    if |s| == 0 {
      assert before + s + after == (before + after) + s;
      TrimLeftBlanks(before + after, s, ws);
    } else {
      assert before + s + after == before + (s + after);
      TrimLeftBlanks(before, s + after, ws);
      TrimRightBlanks(s, after, ws);
    }
  }

  /** Two trimming loops, over one set of blanks. */
  method TrimBoth(s: string, ws: Blanks) returns (t: string)
    ensures t == Trim(s, ws)
  {
    var b := 0;
    while b < |s| && s[b] in ws
      invariant b <= |s| && TrimLeft(s[b..], ws) == TrimLeft(s, ws)
    {
      assert s[b..][1..] == s[b + 1..];
      b := b + 1;
    }
    var e := |s|;
    assert s[b..e] == s[b..] == TrimLeft(s, ws);
    while e > b && s[e - 1] in ws
      invariant b <= e <= |s| && TrimRight(s[b..e], ws) == TrimRight(TrimLeft(s, ws), ws)
    {
      assert s[b..e][..e - b - 1] == s[b..e - 1];
      e := e - 1;
    }
    t := s[b..e];
  }

  /** All the strings, one behind the other. */
  function Joined(ss: seq<string>): string {
    if |ss| == 0 then "" else ss[0] + Joined(ss[1..])
  }
}
