/**
  Greedy register colouring: variables in order, each the lowest of 16 colours that no neighbour shows at that moment.
  When it succeeds, what it then has found, and how many neighbours it takes to make it fail.
 */
module Coloring {

  const K: nat := 16

  datatype Variable = Variable(name: string, color: int)

  type Conflicts = seq<(nat, nat)>

  function Colors(vars: seq<Variable>): (cs: seq<int>)
    ensures |cs| == |vars|
  {
    seq(|vars|, i requires 0 <= i < |vars| => vars[i].color)
  }

  /** Conflicts name two different variables among the first n. */
  ghost predicate Among(conflicts: Conflicts, n: nat) {
    forall p :: p in conflicts ==> p.0 < n && p.1 < n && p.0 != p.1
  }

  /** The colours that may be present when colouring starts: none, or a register. */
  predicate InRange(colors: seq<int>) {
    forall i :: 0 <= i < |colors| ==> -1 <= colors[i] < K
  }

  predicate Conflict(conflicts: Conflicts, i: nat, j: nat) {
    (i, j) in conflicts || (j, i) in conflicts
  }

  /** Some neighbour of i shows colour k. */
  predicate Blocked(conflicts: Conflicts, colors: seq<int>, i: nat, k: int) {
    exists j :: 0 <= j < |colors| && Conflict(conflicts, i, j) && colors[j] == k
  }

  /** Some lower-numbered neighbour of i shows colour k. */
  predicate BlockedBelow(conflicts: Conflicts, colors: seq<int>, i: nat, k: int)
    requires i <= |colors|
  {
    exists j :: 0 <= j < i && Conflict(conflicts, i, j) && colors[j] == k
  }

  /** The lowest colour from k on that no neighbour of i shows, or -1. */
  function Lowest(conflicts: Conflicts, colors: seq<int>, i: nat, k: nat): (c: int)
    requires k <= K
    ensures c == -1 || k <= c < K
    ensures c == -1 ==> forall l :: k <= l < K ==> Blocked(conflicts, colors, i, l)
    ensures c != -1 ==> !Blocked(conflicts, colors, i, c) && forall l :: k <= l < c ==> Blocked(conflicts, colors, i, l)
    decreases K - k
  {
    if k == K then -1 else if Blocked(conflicts, colors, i, k) then Lowest(conflicts, colors, i, k + 1) else k
  }

  /** Colouring the variables from i on. */
  function ColoredFrom(conflicts: Conflicts, colors: seq<int>, i: nat): (r: (seq<int>, bool))
    requires i <= |colors|
    ensures |r.0| == |colors|
    decreases |colors| - i
  {
    if i == |colors| then (colors, true)
    else
      var c := Lowest(conflicts, colors, i, 0);
      if c == -1 then (colors, false) else ColoredFrom(conflicts, colors[i := c], i + 1)
  }

  class RegisterColoring {
    var vars: seq<Variable>
    var conflicts: Conflicts

    constructor ()
      ensures vars == [] && conflicts == []
    {
      vars := [];
      conflicts := [];
    }

    method AddVar(name: string) returns (index: nat)
      modifies this
      ensures vars == old(vars) + [Variable(name, -1)] && conflicts == old(conflicts) && index == |old(vars)|
    {
      vars := vars + [Variable(name, -1)];
      index := |vars| - 1;
    }

    method AddConflict(a: nat, b: nat)
      modifies this
      ensures vars == old(vars) && conflicts == if a == b then old(conflicts) else old(conflicts) + [(a, b)]
    {
      if a != b {
        conflicts := conflicts + [(a, b)];
      }
    }

    /** The colours that the neighbours of variable i show. */
    method UsedColors(i: nat) returns (used: seq<bool>)
      requires Among(conflicts, |vars|) && InRange(Colors(vars))
      ensures |used| == K && forall k :: 0 <= k < K ==> (used[k] <==> Blocked(conflicts, Colors(vars), i, k))
    {
      used := seq(K, _ => false);
      for n := 0 to |conflicts|
        invariant |used| == K
        invariant forall k :: 0 <= k < K ==> (used[k] <==> Blocked(conflicts[..n], Colors(vars), i, k))
      {
        var (a, b) := conflicts[n];
        assert (a, b) in conflicts;
        assert Colors(vars)[a] == vars[a].color && Colors(vars)[b] == vars[b].color;
        if a == i && vars[b].color >= 0 {
          used := used[vars[b].color := true];
        }
        if b == i && vars[a].color >= 0 {
          used := used[vars[a].color := true];
        }
        BlockedNext(conflicts, n, Colors(vars), i);
      }
      assert conflicts[..|conflicts|] == conflicts;
    }

    method Color() returns (ok: bool)
      requires Among(conflicts, |vars|) && InRange(Colors(vars))
      modifies this
      ensures conflicts == old(conflicts) && |vars| == |old(vars)|
      ensures forall i :: 0 <= i < |vars| ==> vars[i].name == old(vars)[i].name
      ensures (Colors(vars), ok) == ColoredFrom(conflicts, old(Colors(vars)), 0)
    {
      ghost var goal := ColoredFrom(conflicts, Colors(vars), 0);
      var i := 0;
      while i < |vars|
        invariant i <= |vars| == |old(vars)| && conflicts == old(conflicts)
        invariant forall j :: 0 <= j < |vars| ==> vars[j].name == old(vars)[j].name
        invariant InRange(Colors(vars)) && ColoredFrom(conflicts, Colors(vars), i) == goal
      {
        var used := UsedColors(i);
        var c := -1;
        var k := 0;
        while k < K
          invariant 0 <= k <= K && c == -1
          invariant Lowest(conflicts, Colors(vars), i, k) == Lowest(conflicts, Colors(vars), i, 0)
        {
          if !used[k] {
            c := k;
            break;
          }
          k := k + 1;
        }
        if c == -1 {
          return false;
        }
        ghost var before := Colors(vars);
        vars := vars[i := vars[i].(color := c)];
        assert Colors(vars) == before[i := c];
        i := i + 1;
      }
      return true;
    }
  }

  lemma {:induction false} BlockedNext(conflicts: Conflicts, n: nat, colors: seq<int>, i: nat)
    requires n < |conflicts| && Among(conflicts, |colors|)
    ensures var (a, b) := conflicts[n];
      && a < |colors| && b < |colors|
      && forall k :: Blocked(conflicts[..n + 1], colors, i, k)
           <==> Blocked(conflicts[..n], colors, i, k) || (a == i && colors[b] == k) || (b == i && colors[a] == k)
  {
    var (a, b) := conflicts[n];
    assert conflicts[n] in conflicts;
    assert conflicts[..n + 1] == conflicts[..n] + [(a, b)];
    forall j: nat ensures Conflict(conflicts[..n + 1], i, j)
      <==> Conflict(conflicts[..n], i, j) || (a == i && b == j) || (b == i && a == j)
    {
    }
    forall k ensures Blocked(conflicts[..n + 1], colors, i, k)
      <==> Blocked(conflicts[..n], colors, i, k) || (a == i && colors[b] == k) || (b == i && colors[a] == k)
    {
      if Blocked(conflicts[..n], colors, i, k) {
        var j :| 0 <= j < |colors| && Conflict(conflicts[..n], i, j) && colors[j] == k;
        assert Conflict(conflicts[..n + 1], i, j);
      }
      if a == i && colors[b] == k {
        assert Conflict(conflicts[..n + 1], i, b);
      }
      if b == i && colors[a] == k {
        assert Conflict(conflicts[..n + 1], i, a);
      }
    }
  }

  // Success means a proper colouring.

  /** Every variable has a register and no two that conflict share one. */
  /** Every variable has one of the 16 colours, and no conflict joins two of one colour. */
  ghost predicate Proper(conflicts: Conflicts, colors: seq<int>)
    requires Among(conflicts, |colors|)
  {
    && (forall i :: 0 <= i < |colors| ==> 0 <= colors[i] < 16)
    && (forall p :: p in conflicts ==> colors[p.0] != colors[p.1])
  }

  lemma {:induction false} ProperPairs(conflicts: Conflicts, colors: seq<int>)
    requires Among(conflicts, |colors|)
    ensures Proper(conflicts, colors) <==> NeighboursDiffer(conflicts, colors)
  {
    if NeighboursDiffer(conflicts, colors) {
      forall p | p in conflicts ensures colors[p.0] != colors[p.1] {
        assert Conflict(conflicts, p.0, p.1) && Conflict(conflicts, p.1, p.0);
      }
    }
    if Proper(conflicts, colors) {
      forall i: nat, j: nat | i < j < |colors| && Conflict(conflicts, i, j) ensures colors[i] != colors[j] {
        assert (i, j) in conflicts || (j, i) in conflicts;
      }
    }
  }

  ghost predicate NeighboursDiffer(conflicts: Conflicts, colors: seq<int>) {
    ProperBelow(conflicts, colors, |colors|)
  }

  ghost predicate ProperBelow(conflicts: Conflicts, colors: seq<int>, n: nat)
    requires n <= |colors|
  {
    && (forall i :: 0 <= i < n ==> 0 <= colors[i] < K)
    && (forall i, j :: 0 <= i < j < n && Conflict(conflicts, i, j) ==> colors[i] != colors[j])
  }

  /** All 16 colours show among the neighbours of i. */
  predicate Stuck(conflicts: Conflicts, colors: seq<int>, i: nat) {
    forall k :: 0 <= k < K ==> Blocked(conflicts, colors, i, k)
  }

  lemma {:induction false} OneMore(conflicts: Conflicts, colors: seq<int>, i: nat)
    requires i < |colors| && Among(conflicts, |colors|) && ProperBelow(conflicts, colors, i)
    requires Lowest(conflicts, colors, i, 0) != -1
    ensures ProperBelow(conflicts, colors[i := Lowest(conflicts, colors, i, 0)], i + 1)
  {
    var c := Lowest(conflicts, colors, i, 0);
    forall j | 0 <= j < i && Conflict(conflicts, j, i) ensures colors[j] != c {
      assert Conflict(conflicts, i, j);
    }
  }

  lemma {:induction false} FromHere(conflicts: Conflicts, colors: seq<int>, i: nat)
    requires i <= |colors| && Among(conflicts, |colors|) && ProperBelow(conflicts, colors, i)
    ensures var r := ColoredFrom(conflicts, colors, i);
      if r.1 then NeighboursDiffer(conflicts, r.0) else exists j :: i <= j < |colors| && Stuck(conflicts, r.0, j)
    decreases |colors| - i
  {
    if i < |colors| {
      var c := Lowest(conflicts, colors, i, 0);
      if c == -1 {
        assert Stuck(conflicts, colors, i);
      } else {
        OneMore(conflicts, colors, i);
        FromHere(conflicts, colors[i := c], i + 1);
      }
    }
  }

  lemma {:induction false} StuckIsImproper(conflicts: Conflicts, colors: seq<int>, i: nat)
    requires i < |colors| && Among(conflicts, |colors|) && Stuck(conflicts, colors, i)
    ensures !NeighboursDiffer(conflicts, colors)
  {
    if 0 <= colors[i] < K {
      assert Blocked(conflicts, colors, i, colors[i]);
      var j :| 0 <= j < |colors| && Conflict(conflicts, i, j) && colors[j] == colors[i];
      assert Conflict(conflicts, j, i);
      assert i != j;
    }
  }

  /** From any starting colours: success, a proper colouring, and no variable whose neighbours show all 16 colours are
      the same thing. */
  lemma {:induction false} SuccessExact(conflicts: Conflicts, colors: seq<int>)
    requires Among(conflicts, |colors|)
    ensures var r := ColoredFrom(conflicts, colors, 0);
      && (r.1 <==> Proper(conflicts, r.0))
      && (r.1 <==> !exists i :: 0 <= i < |colors| && Stuck(conflicts, r.0, i))
  {
    var r := ColoredFrom(conflicts, colors, 0);
    FromHere(conflicts, colors, 0);
    ProperPairs(conflicts, r.0);
    forall i | 0 <= i < |colors| && Stuck(conflicts, r.0, i) ensures !NeighboursDiffer(conflicts, r.0) {
      StuckIsImproper(conflicts, r.0, i);
    }
  }

  // Neighbours and colours.

  ghost function Neighbours(conflicts: Conflicts, i: nat, n: nat): (s: set<int>)
    ensures forall j :: j in s <==> 0 <= j < n && Conflict(conflicts, i, j)
  {
    set j | 0 <= j < n && Conflict(conflicts, i, j)
  }

  predicate Shows(colors: seq<int>, some: set<int>, k: int) {
    exists j :: j in some && 0 <= j < |colors| && colors[j] == k
  }

  /** Variables that show all colours below c are at least c. */
  lemma {:induction false} ColorsNeedNeighbours(some: set<int>, colors: seq<int>, c: nat)
    requires forall k :: 0 <= k < c ==> Shows(colors, some, k)
    ensures c <= |some|
    decreases c
  {
    if c > 0 {
      assert Shows(colors, some, c - 1);
      var j :| j in some && 0 <= j < |colors| && colors[j] == c - 1;
      forall k | 0 <= k < c - 1 ensures Shows(colors, some - {j}, k) {
        assert Shows(colors, some, k);
        var l :| l in some && 0 <= l < |colors| && colors[l] == k;
        assert l in some - {j};
      }
      ColorsNeedNeighbours(some - {j}, colors, c - 1);
    }
  }

  /** Fewer than 16 different neighbours everywhere are enough, whatever colours were there before. */
  lemma {:induction false} FewNeighboursSucceed(conflicts: Conflicts, colors: seq<int>)
    requires Among(conflicts, |colors|)
    requires forall i :: 0 <= i < |colors| ==> |Neighbours(conflicts, i, |colors|)| < 16
    ensures ColoredFrom(conflicts, colors, 0).1
  {
    var r := ColoredFrom(conflicts, colors, 0);
    SuccessExact(conflicts, colors);
    forall i | 0 <= i < |colors| && Stuck(conflicts, r.0, i) ensures false {
      var some := Neighbours(conflicts, i, |colors|);
      forall k | 0 <= k < K ensures Shows(r.0, some, k) {
        assert Blocked(conflicts, r.0, i, k);
        var j :| 0 <= j < |r.0| && Conflict(conflicts, i, j) && r.0[j] == k;
        assert j in some;
      }
      ColorsNeedNeighbours(some, r.0, K);
    }
  }

  // First fit.

  /** Every variable has the lowest colour that its lower-numbered neighbours leave. */
  ghost predicate FirstFitBelow(conflicts: Conflicts, colors: seq<int>, n: nat)
    requires n <= |colors|
  {
    forall i :: 0 <= i < n ==>
      && 0 <= colors[i] < K
      && !BlockedBelow(conflicts, colors, i, colors[i])
      && (forall k :: 0 <= k < colors[i] ==> BlockedBelow(conflicts, colors, i, k))
  }

  ghost predicate FirstFit(conflicts: Conflicts, colors: seq<int>) {
    FirstFitBelow(conflicts, colors, |colors|)
  }

  predicate UncoloredFrom(colors: seq<int>, n: nat) {
    forall i :: n <= i < |colors| ==> colors[i] == -1
  }

  lemma {:induction false} FitOneMore(conflicts: Conflicts, colors: seq<int>, i: nat)
    requires i < |colors| && Among(conflicts, |colors|)
    requires FirstFitBelow(conflicts, colors, i) && UncoloredFrom(colors, i)
    requires Lowest(conflicts, colors, i, 0) != -1
    ensures FirstFitBelow(conflicts, colors[i := Lowest(conflicts, colors, i, 0)], i + 1)
  {
    var c := Lowest(conflicts, colors, i, 0);
    var next := colors[i := c];
    BlockedBelowSame(conflicts, colors, next, i);
    forall k: int ensures BlockedBelow(conflicts, next, i, k) <==> k != -1 && Blocked(conflicts, colors, i, k) {
      BlockedAtOnceBelow(conflicts, colors, next, i, k);
    }
  }

  lemma {:induction false} BlockedBelowSame(conflicts: Conflicts, a: seq<int>, b: seq<int>, n: nat)
    requires |a| == |b| && n <= |a| && forall j :: 0 <= j < n ==> a[j] == b[j]
    ensures forall i, k :: 0 <= i <= n ==> (BlockedBelow(conflicts, a, i, k) <==> BlockedBelow(conflicts, b, i, k))
  {
    forall i, k | 0 <= i <= n ensures BlockedBelow(conflicts, a, i, k) <==> BlockedBelow(conflicts, b, i, k) {
      if BlockedBelow(conflicts, a, i, k) {
        var j :| 0 <= j < i && Conflict(conflicts, i, j) && a[j] == k;
        assert b[j] == k;
      }
      if BlockedBelow(conflicts, b, i, k) {
        var j :| 0 <= j < i && Conflict(conflicts, i, j) && b[j] == k;
        assert a[j] == k;
      }
    }
  }

  /** Above i there is no colour yet. */
  lemma {:induction false} BlockedAtOnceBelow(conflicts: Conflicts, colors: seq<int>, next: seq<int>, i: nat, k: int)
    requires i < |colors| == |next| && Among(conflicts, |colors|) && UncoloredFrom(colors, i)
    requires forall j :: 0 <= j < i ==> colors[j] == next[j] != -1
    ensures BlockedBelow(conflicts, next, i, k) <==> k != -1 && Blocked(conflicts, colors, i, k)
  {
    if k != -1 && Blocked(conflicts, colors, i, k) {
      var j :| 0 <= j < |colors| && Conflict(conflicts, i, j) && colors[j] == k;
      assert next[j] == k;
    }
    if BlockedBelow(conflicts, next, i, k) {
      var j :| 0 <= j < i && Conflict(conflicts, i, j) && next[j] == k;
      assert colors[j] == k;
    }
  }

  lemma {:induction false} FitFromHere(conflicts: Conflicts, colors: seq<int>, i: nat)
    requires i <= |colors| && Among(conflicts, |colors|)
    requires FirstFitBelow(conflicts, colors, i) && UncoloredFrom(colors, i)
    ensures var r := ColoredFrom(conflicts, colors, i); r.1 ==> FirstFit(conflicts, r.0)
    decreases |colors| - i
  {
    if i < |colors| && Lowest(conflicts, colors, i, 0) != -1 {
      FitOneMore(conflicts, colors, i);
      FitFromHere(conflicts, colors[i := Lowest(conflicts, colors, i, 0)], i + 1);
    }
  }

  /** Started without colours, success gives the first-fit colouring. */
  lemma {:induction false} FreshIsFirstFit(conflicts: Conflicts, colors: seq<int>)
    requires Among(conflicts, |colors|) && UncoloredFrom(colors, 0)
    ensures var r := ColoredFrom(conflicts, colors, 0); r.1 ==> FirstFit(conflicts, r.0)
  {
    FitFromHere(conflicts, colors, 0);
  }

  /** There is only one first-fit colouring. */
  lemma {:induction false} FirstFitUnique(conflicts: Conflicts, a: seq<int>, b: seq<int>, n: nat)
    requires |a| == |b| && n <= |a| && FirstFit(conflicts, a) && FirstFit(conflicts, b)
    ensures a[..n] == b[..n]
  {
    if n > 0 {
      FirstFitUnique(conflicts, a, b, n - 1);
      var i := n - 1;
      forall j | 0 <= j < i ensures a[j] == b[j] {
        assert a[..i][j] == b[..i][j];
      }
      FitNoLower(conflicts, a, b, i);
      FitNoLower(conflicts, b, a, i);
    }
  }

  lemma {:induction false} FitNoLower(conflicts: Conflicts, a: seq<int>, b: seq<int>, i: nat)
    requires |a| == |b| && i < |a| && FirstFit(conflicts, a) && FirstFit(conflicts, b)
    requires forall j :: 0 <= j < i ==> a[j] == b[j]
    ensures a[i] >= b[i]
  {
    BlockedBelowSame(conflicts, a, b, i);
  }

  /** Colouring a first-fit colouring again succeeds and changes nothing. */
  lemma {:induction false} AgainChangesNothing(conflicts: Conflicts, colors: seq<int>, i: nat)
    requires i <= |colors| && Among(conflicts, |colors|) && FirstFit(conflicts, colors)
    ensures ColoredFrom(conflicts, colors, i) == (colors, true)
    decreases |colors| - i
  {
    if i < |colors| {
      KeepsItsColor(conflicts, colors, i);
      assert colors[i := colors[i]] == colors;
      AgainChangesNothing(conflicts, colors, i + 1);
    }
  }

  lemma {:induction false} FirstFitIsProper(conflicts: Conflicts, colors: seq<int>)
    requires FirstFit(conflicts, colors)
    ensures NeighboursDiffer(conflicts, colors)
  {
    forall i, j | 0 <= i < j < |colors| && Conflict(conflicts, i, j) ensures colors[i] != colors[j] {
      assert Conflict(conflicts, j, i);
      assert BlockedBelow(conflicts, colors, j, colors[i]);
    }
  }

  lemma {:induction false} KeepsItsColor(conflicts: Conflicts, colors: seq<int>, i: nat)
    requires i < |colors| && Among(conflicts, |colors|) && FirstFit(conflicts, colors)
    ensures Lowest(conflicts, colors, i, 0) == colors[i]
  {
    FirstFitIsProper(conflicts, colors);
    forall j | 0 <= j < |colors| && Conflict(conflicts, i, j) ensures colors[j] != colors[i] {
      assert Conflict(conflicts, j, i);
    }
    assert !Blocked(conflicts, colors, i, colors[i]);
    forall k | 0 <= k < colors[i] ensures Blocked(conflicts, colors, i, k) {
      assert BlockedBelow(conflicts, colors, i, k);
    }
  }

  /** In a first-fit colouring no colour exceeds the number of different lower-numbered neighbours. */
  lemma {:induction false} ColorBound(conflicts: Conflicts, colors: seq<int>, i: nat)
    requires i < |colors| && FirstFit(conflicts, colors)
    ensures colors[i] <= |Neighbours(conflicts, i, i)|
  {
    var some := Neighbours(conflicts, i, i);
    forall k | 0 <= k < colors[i] ensures Shows(colors, some, k) {
      assert BlockedBelow(conflicts, colors, i, k);
      var j :| 0 <= j < i && Conflict(conflicts, i, j) && colors[j] == k;
      assert j in some;
    }
    ColorsNeedNeighbours(some, colors, colors[i]);
  }

  /** Blocked for good: as long as nothing above i has a colour, it takes 16 lower-numbered neighbours. */
  lemma {:induction false} StuckNeedsLower(conflicts: Conflicts, colors: seq<int>, i: nat)
    requires i < |colors| && Among(conflicts, |colors|) && UncoloredFrom(colors, i)
    requires Lowest(conflicts, colors, i, 0) == -1
    ensures |Neighbours(conflicts, i, i)| >= K
  {
    var some := Neighbours(conflicts, i, i);
    forall k | 0 <= k < K ensures Shows(colors, some, k) {
      assert Blocked(conflicts, colors, i, k);
      var j :| 0 <= j < |colors| && Conflict(conflicts, i, j) && colors[j] == k;
      assert j in some;
    }
    ColorsNeedNeighbours(some, colors, K);
  }

  lemma {:induction false} FewLowerFromHere(conflicts: Conflicts, colors: seq<int>, i: nat)
    requires i <= |colors| && Among(conflicts, |colors|) && UncoloredFrom(colors, i)
    requires forall j :: i <= j < |colors| ==> |Neighbours(conflicts, j, j)| < K
    ensures ColoredFrom(conflicts, colors, i).1
    decreases |colors| - i
  {
    if i < |colors| {
      if Lowest(conflicts, colors, i, 0) == -1 {
        StuckNeedsLower(conflicts, colors, i);
      } else {
        FewLowerFromHere(conflicts, colors[i := Lowest(conflicts, colors, i, 0)], i + 1);
      }
    }
  }

  /** Started without colours, fewer than 16 different lower-numbered neighbours everywhere are enough. */
  lemma {:induction false} FewLowerSucceed(conflicts: Conflicts, colors: seq<int>)
    requires Among(conflicts, |colors|) && UncoloredFrom(colors, 0)
    requires forall i :: 0 <= i < |colors| ==> |Neighbours(conflicts, i, i)| < 16
    ensures ColoredFrom(conflicts, colors, 0).1
  {
    FewLowerFromHere(conflicts, colors, 0);
  }

  lemma {:induction false} OnlyFirstFit(conflicts: Conflicts, colors: seq<int>, other: seq<int>)
    requires |colors| == |other| && FirstFit(conflicts, colors) && FirstFit(conflicts, other)
    ensures colors == other
  {
    FirstFitUnique(conflicts, colors, other, |colors|);
    assert colors[..|colors|] == colors && other[..|other|] == other;
  }

  /** A graph as its users build it. */
  method Build(names: seq<string>, conflicts: Conflicts) returns (g: RegisterColoring)
    requires Among(conflicts, |names|)
    ensures fresh(g) && g.conflicts == conflicts && |g.vars| == |names| && UncoloredFrom(Colors(g.vars), 0)
  {
    g := new RegisterColoring();
    for n := 0 to |names|
      invariant |g.vars| == n && UncoloredFrom(Colors(g.vars), 0) && g.conflicts == []
      invariant fresh(g)
    {
      ghost var earlier := Colors(g.vars);
      var index := g.AddVar(names[n]);
      assert Colors(g.vars) == earlier + [-1];
    }
    for n := 0 to |conflicts|
      invariant |g.vars| == |names| && UncoloredFrom(Colors(g.vars), 0) && g.conflicts == conflicts[..n]
      invariant fresh(g)
    {
      assert conflicts[n] in conflicts;
      g.AddConflict(conflicts[n].0, conflicts[n].1);
    }
    assert conflicts[..|conflicts|] == conflicts;
  }

  /** From fresh variables, colouring twice. */
  method ColorFresh(names: seq<string>, conflicts: Conflicts)
    returns (colors: seq<int>, ok: bool, again: seq<int>, okAgain: bool)
    requires Among(conflicts, |names|)
    ensures |colors| == |names|
    ensures ok <==> Proper(conflicts, colors)
    ensures ok ==> FirstFit(conflicts, colors)
    ensures ok ==> forall other :: |other| == |names| && FirstFit(conflicts, other) ==> other == colors
    ensures ok ==> forall i :: 0 <= i < |colors| ==> colors[i] <= |Neighbours(conflicts, i, i)|
    ensures (forall i :: 0 <= i < |names| ==> |Neighbours(conflicts, i, i)| < 16) ==> ok
    ensures ok ==> okAgain && again == colors
  {
    var g := Build(names, conflicts);
    ghost var before := Colors(g.vars);
    ok := g.Color();
    colors := Colors(g.vars);
    SuccessExact(conflicts, before);
    FreshIsFirstFit(conflicts, before);
    if forall i :: 0 <= i < |names| ==> |Neighbours(conflicts, i, i)| < 16 {
      FewLowerSucceed(conflicts, before);
    }
    if !ok {
      return colors, ok, colors, ok;
    }
    forall other | |other| == |names| && FirstFit(conflicts, other) ensures other == colors {
      OnlyFirstFit(conflicts, colors, other);
    }
    forall i | 0 <= i < |colors| ensures colors[i] <= |Neighbours(conflicts, i, i)| {
      ColorBound(conflicts, colors, i);
    }
    AgainChangesNothing(conflicts, colors, 0);
    okAgain := g.Color();
    again := Colors(g.vars);
  }
}
