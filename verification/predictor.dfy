/**
  The branch predictor: a table of 256 two-bit counters. How often it can be wrong, for every run.
 */
module Predictor {
  import opened Bytes

  const HISTORY: nat := 256

  datatype Branch = Branch(pc: byte, taken: bool)

  type Counter = c: nat | c <= 3

  function Predicts(c: Counter): bool {
    c >= 2
  }

  function Updated(c: Counter, taken: bool): Counter {
    if taken then if c < 3 then c + 1 else c
    else if c > 0 then c - 1 else c
  }

  class BranchPredictor {
    const table: array<Counter>

    constructor ()
      ensures table.Length == HISTORY && fresh(table) && forall i :: 0 <= i < HISTORY ==> table[i] == 0
    {
      table := new Counter[HISTORY](_ => 0);
    }

    method Predict(pcHash: byte) returns (taken: bool)
      requires table.Length == HISTORY
      ensures taken == Predicts(table[pcHash])
    {
      taken := table[pcHash % HISTORY] >= 2;
    }

    method Update(pcHash: byte, taken: bool)
      requires table.Length == HISTORY
      modifies table
      ensures table[..] == old(table[..])[pcHash as int := Updated(old(table[pcHash]), taken)]
    {
      var entry := table[pcHash % HISTORY];
      if taken && entry < 3 {
        table[pcHash % HISTORY] := entry + 1;
      } else if !taken && entry > 0 {
        table[pcHash % HISTORY] := entry - 1;
      }
    }
  }

  // Runs: predict, then update, branch after branch.

  /** The counter of an entry after a run from a cold table. */
  function CounterAfter(run: seq<Branch>, pc: byte): Counter {
    if |run| == 0 then 0
    else
      var before, last := CounterAfter(run[..|run| - 1], pc), run[|run| - 1];
      if last.pc == pc then Updated(before, last.taken) else before
  }

  /** Taken branches at an entry less those not taken. */
  function Balance(run: seq<Branch>, pc: byte): int {
    if |run| == 0 then 0
    else
      var last := run[|run| - 1];
      Balance(run[..|run| - 1], pc) + if last.pc != pc then 0 else if last.taken then 1 else -1
  }

  /** From i on the balance is at least v, and from any later point on at least v - 3. */
  ghost predicate ReachedFrom(run: seq<Branch>, pc: byte, v: int, i: nat)
    requires i <= |run|
  {
    Balance(run[i..], pc) >= v && forall j :: i <= j <= |run| ==> Balance(run[j..], pc) >= v - 3
  }

  ghost predicate Reached(run: seq<Branch>, pc: byte, v: int) {
    exists i: nat :: i <= |run| && ReachedFrom(run, pc, v, i)
  }

  lemma {:induction false} BalanceFrom(run: seq<Branch>, pc: byte, i: nat)
    requires i < |run|
    ensures var last := run[|run| - 1];
      Balance(run[i..], pc)
      == Balance(run[..|run| - 1][i..], pc) + if last.pc != pc then 0 else if last.taken then 1 else -1
  {
    assert run[i..][..|run| - 1 - i] == run[..|run| - 1][i..];
  }

  /** What one more branch does to the reach: it shifts it, and nothing reaches 4. */
  lemma {:induction false} ReachedLast(run: seq<Branch>, pc: byte, v: int)
    requires |run| > 0 && 0 <= v <= 4
    ensures var front, last := run[..|run| - 1], run[|run| - 1];
      Reached(run, pc, v)
      <==> v == 0 || (v <= 3 && Reached(front, pc, v - if last.pc != pc then 0 else if last.taken then 1 else -1))
  {
    var front, n := run[..|run| - 1], |run|;
    var last := run[n - 1];
    var d := if last.pc != pc then 0 else if last.taken then 1 else -1;
    assert run[n..] == [];
    forall i: nat | i < n ensures Balance(run[i..], pc) == Balance(front[i..], pc) + d {
      BalanceFrom(run, pc, i);
    }
    if v == 0 {
      assert ReachedFrom(run, pc, v, n);
    }
    if i: nat :| i <= n && ReachedFrom(run, pc, v, i) {
      if i < n {
        assert ReachedFrom(front, pc, v - d, i);
      }
    }
    if v <= 3 && Reached(front, pc, v - d) {
      var i: nat :| i <= |front| && ReachedFrom(front, pc, v - d, i);
      assert ReachedFrom(run, pc, v, i);
    }
  }

  /** The counter in closed form: it is at least v exactly when some recent stretch of the entry's branches has a
      balance of v or more, none of whose own ends has a balance below v - 3. */
  lemma {:induction false} CounterExact(run: seq<Branch>, pc: byte, v: int)
    requires 0 <= v <= 4
    ensures CounterAfter(run, pc) >= v <==> Reached(run, pc, v)
    decreases |run|
  {
    if |run| == 0 {
      assert v == 0 ==> ReachedFrom(run, pc, v, 0);
    } else {
      var last := run[|run| - 1];
      ReachedLast(run, pc, v);
      var w := v - if last.pc != pc then 0 else if last.taken then 1 else -1;
      if 0 <= w <= 4 {
        CounterExact(run[..|run| - 1], pc, w);
      }
    }
  }

  /** Mispredictions at the entries in some. */
  function Missed(run: seq<Branch>, some: set<byte>): nat {
    if |run| == 0 then 0
    else
      var front, last := run[..|run| - 1], run[|run| - 1];
      Missed(front, some)
      + if last.pc in some && Predicts(CounterAfter(front, last.pc)) != last.taken then 1 else 0
  }

  /** Branches at the entries in some that went that way. */
  function Went(run: seq<Branch>, some: set<byte>, taken: bool): nat {
    if |run| == 0 then 0
    else
      var last := run[|run| - 1];
      Went(run[..|run| - 1], some, taken) + if last.pc in some && last.taken == taken then 1 else 0
  }

  function Used(run: seq<Branch>): set<byte> {
    set b | b in run :: b.pc
  }

  /** What a counter is worth: how many mispredictions of branches not taken it can still cause. */
  function Debt(c: Counter): nat {
    if c == 0 then 2 else if c == 1 then 1 else 0
  }

  /** An entry's mispredictions are at most twice its taken branches, less the counter; and at most two more than
      twice its branches not taken, less the debt. */
  lemma {:induction false} EntryBound(run: seq<Branch>, pc: byte)
    ensures Missed(run, {pc}) + CounterAfter(run, pc) <= 2 * Went(run, {pc}, true)
    ensures Missed(run, {pc}) + Debt(CounterAfter(run, pc)) <= 2 + 2 * Went(run, {pc}, false)
    decreases |run|
  {
    if |run| > 0 {
      EntryBound(run[..|run| - 1], pc);
    }
  }

  lemma {:induction false} Split(run: seq<Branch>, some: set<byte>, pc: byte)
    requires pc in some
    ensures Missed(run, some) == Missed(run, some - {pc}) + Missed(run, {pc})
    ensures forall taken :: Went(run, some, taken) == Went(run, some - {pc}, taken) + Went(run, {pc}, taken)
    decreases |run|
  {
    if |run| > 0 {
      Split(run[..|run| - 1], some, pc);
    }
  }

  lemma {:induction false} None(run: seq<Branch>)
    ensures Missed(run, {}) == 0 && forall taken :: Went(run, {}, taken) == 0
    decreases |run|
  {
    if |run| > 0 {
      None(run[..|run| - 1]);
    }
  }

  /** The same for any set of entries. */
  lemma {:induction false} SetBound(run: seq<Branch>, some: set<byte>)
    ensures Missed(run, some) <= 2 * Went(run, some, true)
    ensures Missed(run, some) <= 2 * |some| + 2 * Went(run, some, false)
    decreases |some|
  {
    if some == {} {
      None(run);
    } else {
      var pc :| pc in some;
      Split(run, some, pc);
      SetBound(run, some - {pc});
      EntryBound(run, pc);
    }
  }

  /** The table's mispredictions over a run are at most twice the taken branches, and at most twice the entries used
      plus twice the branches not taken. */
  lemma {:induction false} TableBound(run: seq<Branch>)
    ensures Missed(run, Used(run)) <= 2 * Went(run, Used(run), true)
    ensures Missed(run, Used(run)) <= 2 * |Used(run)| + 2 * Went(run, Used(run), false)
  {
    SetBound(run, Used(run));
  }

  /** So an entry predicts a taken branch exactly when some recent stretch has two more taken branches than others, and
      no end of it more than one less. */
  lemma {:induction false} PredictionExact(run: seq<Branch>, pc: byte)
    ensures Predicts(CounterAfter(run, pc)) <==> Reached(run, pc, 2)
  {
    CounterExact(run, pc, 2);
  }

  /** What the branches at an entry did. */
  function Outcomes(run: seq<Branch>, pc: byte): seq<bool> {
    if |run| == 0 then []
    else
      var last := run[|run| - 1];
      Outcomes(run[..|run| - 1], pc) + if last.pc == pc then [last.taken] else []
  }

  predicate EndsWith(outcomes: seq<bool>, taken: bool, n: nat) {
    n <= |outcomes| && forall k :: |outcomes| - n <= k < |outcomes| ==> outcomes[k] == taken
  }

  /** Equal outcomes drive the counter to their end of the scale. */
  lemma {:induction false} Driven(run: seq<Branch>, pc: byte, taken: bool, n: nat)
    requires n <= 3 && EndsWith(Outcomes(run, pc), taken, n)
    ensures if taken then CounterAfter(run, pc) >= n else CounterAfter(run, pc) <= 3 - n
    decreases |run|
  {
    if n > 0 {
      var front, last := run[..|run| - 1], run[|run| - 1];
      if last.pc == pc {
        var before := Outcomes(front, pc);
        assert Outcomes(run, pc) == before + [last.taken];
        assert forall k :: 0 <= k < |before| ==> before[k] == Outcomes(run, pc)[k];
        assert Outcomes(run, pc)[|before|] == last.taken;
        Driven(front, pc, taken, n - 1);
      } else {
        assert Outcomes(run, pc) == Outcomes(front, pc);
        Driven(front, pc, taken, n);
      }
    }
  }

  /** Hysteresis: whatever happened before, after three equal outcomes at an entry one opposite outcome does not change
      its prediction, and two do. */
  lemma {:induction false} Hysteresis(run: seq<Branch>, pc: byte, taken: bool)
    requires EndsWith(Outcomes(run, pc), taken, 3)
    ensures var other := Branch(pc, !taken);
      && Predicts(CounterAfter(run, pc)) == taken
      && Predicts(CounterAfter(run + [other], pc)) == taken
      && Predicts(CounterAfter(run + [other] + [other], pc)) != taken
  {
    var other := Branch(pc, !taken);
    Driven(run, pc, taken, 3);
    OneMore(run, other);
    OneMore(run + [other], other);
  }

  /** Twice taken, then not taken and taken in turn. */
  function Worst(pc: byte, k: nat): seq<Branch> {
    if k == 0 then [Branch(pc, true), Branch(pc, true)]
    else Worst(pc, k - 1) + [Branch(pc, false)] + [Branch(pc, true)]
  }

  lemma {:induction false} OneMore(run: seq<Branch>, b: Branch)
    ensures forall pc ::
      CounterAfter(run + [b], pc)
      == if b.pc == pc then Updated(CounterAfter(run, pc), b.taken) else CounterAfter(run, pc)
    ensures forall some ::
      Missed(run + [b], some)
      == Missed(run, some) + if b.pc in some && Predicts(CounterAfter(run, b.pc)) != b.taken then 1 else 0
    ensures forall some, taken ::
      Went(run + [b], some, taken) == Went(run, some, taken) + if b.pc in some && b.taken == taken then 1 else 0
  {
    assert (run + [b])[..|run|] == run;
  }

  /** Both bounds are reached: in this run every single prediction is wrong. */
  lemma {:induction false} WorstIsReached(pc: byte, k: nat)
    ensures var run := Worst(pc, k);
      && |run| == 2 + 2 * k && Missed(run, {pc}) == |run|
      && CounterAfter(run, pc) == 2
      && Missed(run, {pc}) == 2 + 2 * Went(run, {pc}, false)
      && Missed(run, {pc}) + CounterAfter(run, pc) == 2 * Went(run, {pc}, true)
  {
    if k == 0 {
      var t := Branch(pc, true);
      OneMore([], t);
      OneMore([t], t);
      assert [] + [t] == [t] && Worst(pc, 0) == [t] + [t];
    } else {
      WorstIsReached(pc, k - 1);
      var before := Worst(pc, k - 1);
      OneMore(before, Branch(pc, false));
      OneMore(before + [Branch(pc, false)], Branch(pc, true));
    }
  }

  /** A run on the real table: what is predicted before each branch, and how often that is wrong. */
  method Simulate(run: seq<Branch>) returns (guesses: seq<bool>, wrong: nat)
    ensures |guesses| == |run| && forall i :: 0 <= i < |run| ==> (guesses[i] <==> Reached(run[..i], run[i].pc, 2))
    ensures wrong == Missed(run, Used(run))
    ensures wrong <= 2 * Went(run, Used(run), true)
    ensures wrong <= 2 * |Used(run)| + 2 * Went(run, Used(run), false)
  {
    var predictor := new BranchPredictor();
    guesses, wrong := [], 0;
    for i := 0 to |run|
      invariant fresh(predictor.table) && predictor.table.Length == HISTORY
      invariant forall pc: byte :: predictor.table[pc] == CounterAfter(run[..i], pc)
      invariant |guesses| == i && forall k :: 0 <= k < i ==> (guesses[k] <==> Reached(run[..k], run[k].pc, 2))
      invariant wrong == Missed(run[..i], Used(run))
    {
      assert run[..i + 1] == run[..i] + [run[i]];
      OneMore(run[..i], run[i]);
      assert run[i] in run;
      assert run[i].pc in Used(run);
      var guess := predictor.Predict(run[i].pc);
      PredictionExact(run[..i], run[i].pc);
      guesses := guesses + [guess];
      if guess != run[i].taken {
        wrong := wrong + 1;
      }
      predictor.Update(run[i].pc, run[i].taken);
      forall pc: byte ensures predictor.table[pc] == CounterAfter(run[..i + 1], pc) {
        assert predictor.table[pc] == predictor.table[..][pc];
      }
    }
    assert run[..|run|] == run;
    TableBound(run);
  }
}
