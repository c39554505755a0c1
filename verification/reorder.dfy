/**
  The reordering pass: again and again the first instruction left that does not read what the last one wrote. What it
  guarantees, and that it guarantees no more.
 */
module Reorder {
  import Counting

  const REGISTERS: nat := 64

  datatype Inst = Inst(op: nat, src1: int, src2: int, dst: int)

  /** The register an operand names. */
  function Reg(operand: int): (r: nat)
    ensures r < REGISTERS
  {
    operand % REGISTERS
  }

  predicate Reads(i: Inst, register: int) {
    Reg(i.src1) == register || Reg(i.src2) == register
  }

  /** The register written last; -1 before anything is. */
  function LastWritten(insts: seq<Inst>, order: seq<nat>): int
    requires forall k :: 0 <= k < |order| ==> order[k] < |insts|
  {
    if |order| == 0 then -1 else Reg(insts[order[|order| - 1]].dst)
  }

  /** The first instruction from i on that is not scheduled and does not read the register; the length if none. */
  function Pick(insts: seq<Inst>, order: seq<nat>, last: int, i: nat): (n: nat)
    requires i <= |insts|
    ensures i <= n <= |insts|
    ensures n < |insts| ==> n !in order && !Reads(insts[n], last)
    ensures forall j: nat :: i <= j < n ==> j in order || Reads(insts[j], last)
    decreases |insts| - i
  {
    if i == |insts| || (i !in order && !Reads(insts[i], last)) then i else Pick(insts, order, last, i + 1)
  }

  function NextOrder(insts: seq<Inst>, before: seq<nat>): (order: seq<nat>)
    requires forall k :: 0 <= k < |before| ==> before[k] < |insts|
    ensures forall k :: 0 <= k < |order| ==> order[k] < |insts|
    ensures |before| <= |order| <= |before| + 1
  {
    var n := Pick(insts, before, LastWritten(insts, before), 0);
    if n < |insts| then before + [n] else before
  }

  /** The positions scheduled by so many passes. */
  function Order(insts: seq<Inst>, passes: nat): (order: seq<nat>)
    ensures |order| <= passes
    ensures forall k :: 0 <= k < |order| ==> order[k] < |insts|
  {
    if passes == 0 then [] else NextOrder(insts, Order(insts, passes - 1))
  }

  function Select(insts: seq<Inst>, order: seq<nat>): (out: seq<Inst>)
    requires forall k :: 0 <= k < |order| ==> order[k] < |insts|
    ensures |out| == |order|
  {
    seq(|order|, k requires 0 <= k < |order| => insts[order[k]])
  }

  function Reordered(insts: seq<Inst>): seq<Inst> {
    Select(insts, Order(insts, |insts|))
  }

  /** lastWrite holds, for each register, the length of the output right after it was written: that of now for the
      register written last, and an earlier one for any other. */
  ghost predicate Stamps(insts: seq<Inst>, order: seq<nat>, lastWrite: seq<int>)
    requires forall k :: 0 <= k < |order| ==> order[k] < |insts|
  {
    && |lastWrite| == REGISTERS
    && forall r :: 0 <= r < REGISTERS ==>
         if r == LastWritten(insts, order) then lastWrite[r] == |order| else lastWrite[r] < |order|
  }

  /** Everything the pass keeps up to date. */
  ghost predicate Scheduled(insts: seq<Inst>, order: seq<nat>, scheduled: seq<bool>, lastWrite: seq<int>) {
    && (forall k :: 0 <= k < |order| ==> order[k] < |insts|)
    && |scheduled| == |insts| && (forall i: nat :: i < |insts| ==> (scheduled[i] <==> i in order))
    && Stamps(insts, order, lastWrite)
  }

  lemma {:induction false} ScheduleOne(insts: seq<Inst>, order: seq<nat>, scheduled: seq<bool>,
          lastWrite: seq<int>, i: nat)
    requires Scheduled(insts, order, scheduled, lastWrite) && i < |insts|
    ensures Scheduled(insts, order + [i], scheduled[i := true], lastWrite[Reg(insts[i].dst) := |order| + 1])
    ensures Select(insts, order + [i]) == Select(insts, order) + [insts[i]]
  {
  }

  /** One pass. */
  method FindReady(insts: seq<Inst>, scheduled: array<bool>, lastWrite: array<int>, size: nat, ghost order: seq<nat>)
    returns (i: nat)
    requires Scheduled(insts, order, scheduled[..], lastWrite[..]) && size == |order|
    ensures i == Pick(insts, order, LastWritten(insts, order), 0)
  {
    i := 0;
    while i < |insts|
      invariant i <= |insts|
      invariant Pick(insts, order, LastWritten(insts, order), i) == Pick(insts, order, LastWritten(insts, order), 0)
    {
      var inst := insts[i];
      assert scheduled[..][i] == scheduled[i];
      if !scheduled[i] {
        var first, second := Reg(inst.src1), Reg(inst.src2);
        assert lastWrite[..][first] == lastWrite[first] && lastWrite[..][second] == lastWrite[second];
        if lastWrite[first] < size && lastWrite[second] < size {
          return;
        }
      }
      i := i + 1;
    }
  }

  /** One pass of the outer loop. */
  method DoPass(insts: seq<Inst>, out: seq<Inst>, scheduled: array<bool>, lastWrite: array<int>, ghost order: seq<nat>)
    returns (more: seq<Inst>)
    requires Scheduled(insts, order, scheduled[..], lastWrite[..]) && out == Select(insts, order)
    modifies scheduled, lastWrite
    ensures Scheduled(insts, NextOrder(insts, order), scheduled[..], lastWrite[..])
    ensures more == Select(insts, NextOrder(insts, order))
  {
    var i := FindReady(insts, scheduled, lastWrite, |out|, order);
    more := out;
    if i < |insts| {
      ghost var marks, stamps := scheduled[..], lastWrite[..];
      ScheduleOne(insts, order, marks, stamps, i);
      more := more + [insts[i]];
      lastWrite[Reg(insts[i].dst)] := |more|;
      assert lastWrite[..] == stamps[Reg(insts[i].dst) := |more|];
      scheduled[i] := true;
      assert scheduled[..] == marks[i := true];
    }
  }

  method DoReorder(instructions: seq<Inst>) returns (out: seq<Inst>)
    ensures out == Reordered(instructions)
  {
    out := [];
    var scheduled := new bool[|instructions|](_ => false);
    var lastWrite := new int[REGISTERS](_ => -1);
    for pass := 0 to |instructions|
      invariant out == Select(instructions, Order(instructions, pass))
      invariant Scheduled(instructions, Order(instructions, pass), scheduled[..], lastWrite[..])
    {
      out := DoPass(instructions, out, scheduled, lastWrite, Order(instructions, pass));
    }
  }

  // Guarantees.

  lemma {:induction false} PickIs(insts: seq<Inst>, order: seq<nat>, last: int, n: nat)
    requires n <= |insts| && (n < |insts| ==> n !in order && !Reads(insts[n], last))
    requires forall j: nat :: j < n ==> j in order || Reads(insts[j], last)
    ensures Pick(insts, order, last, 0) == n
  {
  }

  predicate NoAdjacentRead(insts: seq<Inst>) {
    forall k :: 0 <= k < |insts| - 1 ==> !Reads(insts[k + 1], Reg(insts[k].dst))
  }

  predicate Distinct(order: seq<nat>) {
    forall j, k :: 0 <= j < k < |order| ==> order[j] != order[k]
  }

  lemma {:induction false} NextSafe(insts: seq<Inst>, before: seq<nat>)
    requires forall k :: 0 <= k < |before| ==> before[k] < |insts|
    requires Distinct(before) && NoAdjacentRead(Select(insts, before))
    ensures Distinct(NextOrder(insts, before)) && NoAdjacentRead(Select(insts, NextOrder(insts, before)))
  {
    var n := Pick(insts, before, LastWritten(insts, before), 0);
    if n < |insts| {
      var was, out := Select(insts, before), Select(insts, before + [n]);
      assert forall k :: 0 <= k < |was| ==> out[k] == was[k];
    }
  }

  /** Each position at most once, and nothing right behind a write that it reads. */
  lemma {:induction false} OrderSafe(insts: seq<Inst>, passes: nat)
    ensures var order := Order(insts, passes);
      Distinct(order) && NoAdjacentRead(Select(insts, order))
  {
    if passes > 0 {
      OrderSafe(insts, passes - 1);
      NextSafe(insts, Order(insts, passes - 1));
    }
  }

  /** A pass that finds nothing is the last that could. */
  lemma {:induction false} StoppedShort(insts: seq<Inst>, passes: nat)
    ensures var order := Order(insts, passes);
      |order| < passes ==> Pick(insts, order, LastWritten(insts, order), 0) == |insts|
  {
    if passes > 0 {
      StoppedShort(insts, passes - 1);
    }
  }

  /** The output has no adjacent read after write, uses no instruction twice, and leaves some out only if every one of
      those reads what the last one scheduled writes. */
  lemma {:induction false} ReorderGuarantees(insts: seq<Inst>)
    ensures var order, out := Order(insts, |insts|), Reordered(insts);
      && Distinct(order) && NoAdjacentRead(out)
      && (|out| < |insts| ==>
            forall i: nat :: i < |insts| && i !in order ==> Reads(insts[i], LastWritten(insts, order)))
  {
    OrderSafe(insts, |insts|);
    StoppedShort(insts, |insts|);
  }

  /** As long as the input, the output is a permutation of it. */
  lemma {:induction false} CompleteIsPermutation(insts: seq<Inst>)
    requires |Reordered(insts)| == |insts|
    ensures var order := Order(insts, |insts|);
      Distinct(order) && forall i: nat :: i < |insts| ==> i in order
  {
    var order := Order(insts, |insts|);
    OrderSafe(insts, |insts|);
    forall i: nat | i < |insts| ensures i in order {
      if i !in order {
        Counting.Pigeonhole(order, Counting.Below(|insts|) - {i});
      }
    }
  }

  lemma {:induction false} InOrder(insts: seq<Inst>, passes: nat)
    requires NoAdjacentRead(insts) && passes <= |insts|
    ensures Order(insts, passes) == seq(passes, k requires 0 <= k < passes => k)
  {
    if passes > 0 {
      InOrder(insts, passes - 1);
      NextInOrder(insts, Order(insts, passes - 1), passes - 1);
    }
  }

  lemma {:induction false} NextInOrder(insts: seq<Inst>, before: seq<nat>, n: nat)
    requires NoAdjacentRead(insts) && n < |insts| && before == seq(n, k requires 0 <= k < n => k)
    ensures NextOrder(insts, before) == seq(n + 1, k requires 0 <= k < n + 1 => k)
  {
    forall j: nat | j < n ensures j in before {
      assert before[j] == j;
    }
    if n > 0 {
      var k := n - 1;
      assert before[k] == k && !Reads(insts[k + 1], Reg(insts[k].dst));
    }
    PickIs(insts, before, LastWritten(insts, before), n);
  }

  /** The input comes back unchanged if and only if it has no adjacent read after write. */
  lemma {:induction false} UnchangedExact(insts: seq<Inst>)
    ensures Reordered(insts) == insts <==> NoAdjacentRead(insts)
  {
    if NoAdjacentRead(insts) {
      InOrder(insts, |insts|);
    } else {
      OrderSafe(insts, |insts|);
    }
  }

  // When instructions are lost.

  /** Every instruction left reads what was written last. */
  ghost predicate Stuck(insts: seq<Inst>, order: seq<nat>)
    requires forall k :: 0 <= k < |order| ==> order[k] < |insts|
  {
    forall i: nat :: i < |insts| && i !in order ==> Reads(insts[i], LastWritten(insts, order))
  }

  ghost predicate NothingReady(insts: seq<Inst>, pass: nat) {
    Stuck(insts, Order(insts, pass))
  }

  ghost predicate OrderIs(insts: seq<Inst>, passes: nat, order: seq<nat>) {
    Order(insts, passes) == order
  }

  ghost predicate StuckAt(insts: seq<Inst>, passes: nat, order: seq<nat>) {
    OrderIs(insts, passes, order) && Stuck(insts, Order(insts, passes))
  }

  lemma {:induction false} StaysStuck(insts: seq<Inst>, order: seq<nat>, passes: nat, more: nat)
    requires StuckAt(insts, passes, order) && passes <= more
    ensures StuckAt(insts, more, order)
    decreases more
  {
    if passes < more {
      StaysStuck(insts, order, passes, more - 1);
      StuckAgain(insts, order, more);
    }
  }

  lemma {:induction false} StuckAgain(insts: seq<Inst>, order: seq<nat>, passes: nat)
    requires passes > 0 && StuckAt(insts, passes - 1, order)
    ensures StuckAt(insts, passes, order)
  {
    StuckHere(insts, order);
  }

  lemma {:induction false} StuckHere(insts: seq<Inst>, order: seq<nat>)
    requires forall k :: 0 <= k < |order| ==> order[k] < |insts|
    requires Stuck(insts, order)
    ensures NextOrder(insts, order) == order
  {
    PickIs(insts, order, LastWritten(insts, order), |insts|);
  }

  /** The first pass that finds nothing ready, if the order is short. */
  lemma {:induction false} FirstStuck(insts: seq<Inst>, passes: nat) returns (p: nat)
    requires |Order(insts, passes)| < passes
    ensures p < passes && NothingReady(insts, p)
  {
    if |Order(insts, passes - 1)| < passes - 1 {
      p := FirstStuck(insts, passes - 1);
    } else {
      p := passes - 1;
    }
  }

  /** Instructions are lost if and only if some pass finds every instruction left reading what was written last. */
  lemma {:induction false} LosesExact(insts: seq<Inst>)
    ensures |Reordered(insts)| < |insts| <==> exists p: nat :: p < |insts| && NothingReady(insts, p)
  {
    if |Reordered(insts)| < |insts| {
      var p := FirstStuck(insts, |insts|);
    }
    if p: nat :| p < |insts| && NothingReady(insts, p) {
      StaysStuck(insts, Order(insts, p), p, |insts|);
    }
  }

  /** Register numbers are the same modulo 64. */
  lemma {:induction false} SameRegister(x: int, y: int)
    ensures Reg(x) == Reg(y) <==> (x - y) % 64 == 0
  {
    var k, l := x / 64, y / 64;
    assert x - y == 64 * (k - l) + (Reg(x) - Reg(y));
  }

  /** Two instructions keep both exactly when the second does not read what the first writes: registers whose numbers
      differ by a multiple of 64 are one. */
  lemma {:induction false} PairExact(a: Inst, b: Inst)
    ensures Reordered([a, b])
         == if (b.src1 - a.dst) % 64 == 0 || (b.src2 - a.dst) % 64 == 0 then [a] else [a, b]
  {
    SameRegister(b.src1, a.dst);
    SameRegister(b.src2, a.dst);
    var insts := [a, b];
    UnchangedExact(insts);
    assert NoAdjacentRead(insts) <==> !Reads(insts[0 + 1], Reg(insts[0].dst));
    if Reads(b, Reg(a.dst)) {
      PickIs(insts, [], -1, 0);
      assert Order(insts, 0) == [];
      assert Order(insts, 1) == [] + [0] == [0];
      PickIs(insts, [0], Reg(a.dst), 2);
      assert Order(insts, 2) == [0];
    }
  }

  /** Wherever an instruction reads what the one before it writes, the next one can be taken in between, and the one
      after that follows the delayed one. */
  ghost predicate Spaced(insts: seq<Inst>) {
    forall i :: Delayed(insts, i) ==> SpacedAt(insts, i)
  }

  /** Instruction i reads what the one before it writes. */
  predicate Delayed(insts: seq<Inst>, i: int) {
    1 <= i < |insts| && Reads(insts[i], Reg(insts[i - 1].dst))
  }

  predicate SpacedAt(insts: seq<Inst>, i: int)
    requires Delayed(insts, i)
  {
    && i + 1 < |insts|
    && !Reads(insts[i + 1], Reg(insts[i - 1].dst)) && !Reads(insts[i], Reg(insts[i + 1].dst))
    && (i + 2 < |insts| ==> !Reads(insts[i + 2], Reg(insts[i].dst)))
  }

  /** Only a delayed instruction and its successor have changed places. */
  ghost predicate OnlySwaps(insts: seq<Inst>, order: seq<nat>) {
    forall a, b :: 0 <= a < b < |order| && order[a] > order[b] ==> order[a] == order[b] + 1 && Delayed(insts, order[b])
  }

  lemma {:induction false} SwapsGrow(insts: seq<Inst>, order: seq<nat>, x: nat)
    requires OnlySwaps(insts, order) && forall y: nat :: y in order && y > x ==> y == x + 1 && Delayed(insts, x)
    ensures OnlySwaps(insts, order + [x])
  {
    var next := order + [x];
    forall a, b | 0 <= a < b < |next| && next[a] > next[b] ensures next[a] == next[b] + 1 && Delayed(insts, next[b]) {
      assert next[a] in order;
    }
  }

  /** After so many passes all instructions up to there are scheduled, or all but a delayed one whose successor has
      just been taken. */
  ghost predicate OnPace(insts: seq<Inst>, order: seq<nat>, p: nat) {
    && |order| == p && p <= |insts| && (forall k :: 0 <= k < p ==> order[k] < |insts|)
    && (CaughtUp(insts, order, p) || OneBehind(insts, order, p))
  }

  ghost predicate CaughtUp(insts: seq<Inst>, order: seq<nat>, p: nat)
    requires |order| == p && forall k :: 0 <= k < p ==> order[k] < |insts|
  {
    && (forall i: nat :: i in order <==> i < p)
    && (0 < p < |insts| ==> order[p - 1] == p - 1 || !Reads(insts[p], LastWritten(insts, order)))
  }

  ghost predicate OneBehind(insts: seq<Inst>, order: seq<nat>, p: nat)
    requires |order| == p
  {
    && 2 <= p < |insts| && Delayed(insts, p - 1) && order[p - 1] == p
    && (forall i: nat :: i in order <==> i < p - 1 || i == p)
  }

  lemma {:induction false} CatchUp(insts: seq<Inst>, order: seq<nat>, p: nat)
    requires Spaced(insts) && OnPace(insts, order, p) && OneBehind(insts, order, p) && OnlySwaps(insts, order)
    ensures OnPace(insts, NextOrder(insts, order), p + 1) && OnlySwaps(insts, NextOrder(insts, order))
  {
    assert SpacedAt(insts, p - 1);
    PickIs(insts, order, LastWritten(insts, order), p - 1);
    var next := order + [p - 1];
    SwapsGrow(insts, order, p - 1);
    forall i: nat ensures i in next <==> i < p + 1 {
    }
  }

  /** What a pass takes when all before p are scheduled. */
  lemma {:induction false} PickNear(insts: seq<Inst>, order: seq<nat>, p: nat) returns (x: nat)
    requires Spaced(insts) && OnPace(insts, order, p) && CaughtUp(insts, order, p) && p < |insts|
    ensures NextOrder(insts, order) == order + [x]
    ensures x == p || (x == p + 1 < |insts| && p > 0 && Delayed(insts, p))
  {
    var last := LastWritten(insts, order);
    x := p;
    if Reads(insts[p], last) {
      assert Delayed(insts, p) && SpacedAt(insts, p);
      x := p + 1;
    }
    PickIs(insts, order, last, x);
  }

  lemma {:induction false} GoOn(insts: seq<Inst>, order: seq<nat>, p: nat)
    requires Spaced(insts) && OnPace(insts, order, p) && CaughtUp(insts, order, p) && p < |insts|
    requires OnlySwaps(insts, order)
    ensures OnPace(insts, NextOrder(insts, order), p + 1) && OnlySwaps(insts, NextOrder(insts, order))
  {
    var x := PickNear(insts, order, p);
    SwapsGrow(insts, order, x);
    var next := order + [x];
    forall i: nat ensures i in next <==> i < p || i == x {
    }
  }

  lemma {:induction false} SpacedOrder(insts: seq<Inst>, p: nat)
    requires Spaced(insts) && p <= |insts|
    ensures OnPace(insts, Order(insts, p), p) && OnlySwaps(insts, Order(insts, p))
  {
    if p > 0 {
      SpacedOrder(insts, p - 1);
      if OneBehind(insts, Order(insts, p - 1), p - 1) {
        CatchUp(insts, Order(insts, p - 1), p - 1);
      } else {
        GoOn(insts, Order(insts, p - 1), p - 1);
      }
    }
  }

  /** Nothing is lost of an input whose adjacent reads are spaced; an input without any is one. */
  lemma {:induction false} SpacedLosesNothing(insts: seq<Inst>)
    requires Spaced(insts)
    ensures |Reordered(insts)| == |insts|
  {
    SpacedOrder(insts, |insts|);
  }

  lemma {:induction false} SpacedIsWider(insts: seq<Inst>)
    requires NoAdjacentRead(insts)
    ensures Spaced(insts)
  {
    forall i | 1 <= i < |insts| ensures !Delayed(insts, i) {
      var k := i - 1;
      assert !Reads(insts[k + 1], Reg(insts[k].dst));
    }
  }
}
