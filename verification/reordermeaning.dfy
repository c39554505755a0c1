/**
  What reordering does to the meaning of a program, for instructions that stand for any operation at all: when the
  reordered program computes the same, whatever the operations and the registers, and when not.
 */
module ReorderMeaning {
  import opened Counting
  import opened Reorder

  // Meaning.

  type Regs<V> = seq<V>

  /** One instruction, its operation given by f. */
  function Effect<V>(f: (nat, V, V) -> V, i: Inst, regs: Regs<V>): (r: Regs<V>)
    requires |regs| == REGISTERS
    ensures |r| == REGISTERS
  {
    regs[Reg(i.dst) := f(i.op, regs[Reg(i.src1)], regs[Reg(i.src2)])]
  }

  function Run<V>(f: (nat, V, V) -> V, insts: seq<Inst>, regs: Regs<V>): (r: Regs<V>)
    requires |regs| == REGISTERS
    ensures |r| == REGISTERS
  {
    if |insts| == 0 then regs else Effect(f, insts[|insts| - 1], Run(f, insts[..|insts| - 1], regs))
  }

  /** The same registers in the end, for every operation on integers and all registers at the start. */
  ghost predicate SameMeaning(a: seq<Inst>, b: seq<Inst>) {
    forall f: (nat, int, int) -> int, regs: Regs<int> :: |regs| == REGISTERS ==> Run(f, a, regs) == Run(f, b, regs)
  }

  lemma {:induction false} RunConcat<V>(f: (nat, V, V) -> V, a: seq<Inst>, b: seq<Inst>, regs: Regs<V>)
    requires |regs| == REGISTERS
    ensures Run(f, a + b, regs) == Run(f, b, Run(f, a, regs))
    decreases |b|
  {
    if |b| == 0 {
      assert a + b == a;
    } else {
      assert (a + b)[..|a + b| - 1] == a + b[..|b| - 1];
      RunConcat(f, a, b[..|b| - 1], regs);
    }
  }

  // Dependent instructions that keep their order.

  /** No register that one writes is read or written by the other. */
  predicate Independent(x: Inst, y: Inst) {
    Reg(x.dst) != Reg(y.dst) && !Reads(x, Reg(y.dst)) && !Reads(y, Reg(x.dst))
  }

  ghost predicate InRange(order: seq<nat>, n: nat) {
    forall k :: 0 <= k < |order| ==> order[k] < n
  }

  /** Only independent instructions have changed places. */
  ghost predicate KeepsDependences(insts: seq<Inst>, order: seq<nat>)
    requires InRange(order, |insts|)
  {
    forall a, b :: 0 <= a < b < |order| && order[a] > order[b] ==> Independent(insts[order[a]], insts[order[b]])
  }

  lemma {:induction false} Commute<V>(f: (nat, V, V) -> V, x: Inst, y: Inst, regs: Regs<V>)
    requires |regs| == REGISTERS && Independent(x, y)
    ensures Effect(f, y, Effect(f, x, regs)) == Effect(f, x, Effect(f, y, regs))
  {
  }

  /** An instruction can go behind all that are independent of it. */
  lemma {:induction false} MoveToEnd<V>(f: (nat, V, V) -> V, x: Inst, rest: seq<Inst>, regs: Regs<V>)
    requires |regs| == REGISTERS && forall k :: 0 <= k < |rest| ==> Independent(x, rest[k])
    ensures Run(f, [x] + rest, regs) == Run(f, rest + [x], regs)
    decreases |rest|
  {
    if |rest| == 0 {
      assert [x] + rest == rest + [x];
    } else {
      var init, y := rest[..|rest| - 1], rest[|rest| - 1];
      MoveToEnd(f, x, init, regs);
      assert ([x] + rest)[..|rest|] == [x] + init;
      assert (rest + [x])[..|rest|] == rest && (init + [x])[..|init|] == init;
      Commute(f, x, y, Run(f, init, regs));
    }
  }

  lemma {:induction false} TakeOut<V>(f: (nat, V, V) -> V, front: seq<Inst>, x: Inst, rest: seq<Inst>, regs: Regs<V>)
    requires |regs| == REGISTERS && forall k :: 0 <= k < |rest| ==> Independent(x, rest[k])
    ensures Run(f, front + [x] + rest, regs) == Effect(f, x, Run(f, front + rest, regs))
  {
    assert front + [x] + rest == front + ([x] + rest);
    RunConcat(f, front, [x] + rest, regs);
    MoveToEnd(f, x, rest, Run(f, front, regs));
    RunConcat(f, front, rest + [x], regs);
    assert (front + (rest + [x]))[..|front + rest|] == front + rest;
  }

  ghost predicate Permutation(order: seq<nat>, n: nat) {
    |order| == n && InRange(order, n) && Distinct(order)
  }

  lemma {:induction false} AllThere(order: seq<nat>, n: nat, i: nat)
    requires Permutation(order, n) && i < n
    ensures i in order
  {
    if i !in order {
      Pigeonhole(order, Below(n) - {i});
    }
  }

  /** The order without its largest position. */
  lemma {:induction false} WithoutLast(insts: seq<Inst>, order: seq<nat>, q: nat)
    requires Permutation(order, |insts|) && KeepsDependences(insts, order) && q < |order| && order[q] == |insts| - 1
    ensures var n := |insts| - 1;
      var less := order[..q] + order[q + 1..];
      && Permutation(less, n) && KeepsDependences(insts[..n], less)
      && Select(insts[..n], less) == Select(insts, order[..q]) + Select(insts, order[q + 1..])
      && (forall k :: q < k < |order| ==> Independent(insts[n], insts[order[k]]))
  {
    var n := |insts| - 1;
    var less := order[..q] + order[q + 1..];
    forall k | 0 <= k < n ensures less[k] == order[if k < q then k else k + 1] && less[k] < n {
      assert k < q ==> order[k] != order[q];
      assert k >= q ==> order[q] != order[k + 1];
    }
    forall j, k | 0 <= j < k < n ensures less[j] != less[k] {
      assert order[if j < q then j else j + 1] != order[if k < q then k else k + 1];
    }
  }

  /** Any complete order that keeps dependences computes the same, for every operation. */
  lemma {:induction false} KeptDependencesKeepMeaning<V>(f: (nat, V, V) -> V, insts: seq<Inst>, order: seq<nat>,
                                                         regs: Regs<V>)
    requires |regs| == REGISTERS && Permutation(order, |insts|) && KeepsDependences(insts, order)
    ensures Run(f, Select(insts, order), regs) == Run(f, insts, regs)
    decreases |insts|
  {
    var n := |insts|;
    if n == 0 {
      assert Select(insts, order) == insts;
    } else {
      AllThere(order, n, n - 1);
      var q :| 0 <= q < n && order[q] == n - 1;
      WithoutLast(insts, order, q);
      var front, rest := Select(insts, order[..q]), Select(insts, order[q + 1..]);
      assert Select(insts, order) == front + [insts[n - 1]] + rest;
      TakeOut(f, front, insts[n - 1], rest, regs);
      KeptDependencesKeepMeaning(f, insts[..n - 1], order[..q] + order[q + 1..], regs);
    }
  }

  /** What reorder returns computes the same if nothing is lost and dependences are kept. */
  lemma {:induction false} ReorderKeepsMeaning(insts: seq<Inst>)
    requires |Reordered(insts)| == |insts| && KeepsDependences(insts, Order(insts, |insts|))
    ensures SameMeaning(Reordered(insts), insts)
  {
    OrderSafe(insts, |insts|);
    forall f: (nat, int, int) -> int, regs: Regs<int> | |regs| == REGISTERS
      ensures Run(f, Reordered(insts), regs) == Run(f, insts, regs)
    {
      KeptDependencesKeepMeaning(f, insts, Order(insts, |insts|), regs);
    }
  }

  /** Told from the input alone: adjacent reads are spaced, and each delayed instruction is independent of the one
      that is taken before it. */
  lemma {:induction false} SpacedKeepsMeaning(insts: seq<Inst>)
    requires Spaced(insts)
    requires forall i :: Delayed(insts, i) && i + 1 < |insts| ==> Independent(insts[i + 1], insts[i])
    ensures SameMeaning(Reordered(insts), insts)
  {
    SpacedOrder(insts, |insts|);
    SwapsKeepDependences(insts, Order(insts, |insts|));
    ReorderKeepsMeaning(insts);
  }

  lemma {:induction false} SwapsKeepDependences(insts: seq<Inst>, order: seq<nat>)
    requires InRange(order, |insts|) && OnlySwaps(insts, order)
    requires forall i :: Delayed(insts, i) && i + 1 < |insts| ==> Independent(insts[i + 1], insts[i])
    ensures KeepsDependences(insts, order)
  {
    forall a, b | 0 <= a < b < |order| && order[a] > order[b] ensures Independent(insts[order[a]], insts[order[b]]) {
      assert Delayed(insts, order[b]);
    }
  }

  // One run that decides all.

  /** What a register holds, spelled out: its value at the start, or an operation on such terms. */
  datatype Term = Var(register: nat) | App(op: nat, left: Term, right: Term)

  function Build(op: nat, left: Term, right: Term): Term {
    App(op, left, right)
  }

  function Vars(): (regs: Regs<Term>)
    ensures |regs| == REGISTERS
  {
    seq(REGISTERS, r requires 0 <= r < REGISTERS => Var(r))
  }

  /** The symbolic run. */
  function Terms(insts: seq<Inst>): (r: Regs<Term>)
    ensures |r| == REGISTERS
  {
    Run(Build, insts, Vars())
  }

  function Eval<V>(f: (nat, V, V) -> V, t: Term, regs: Regs<V>): V
    requires |regs| == REGISTERS
  {
    match t
    case Var(r) => regs[r % REGISTERS]
    case App(op, left, right) => f(op, Eval(f, left, regs), Eval(f, right, regs))
  }

  lemma {:induction false} RunIsEval<V>(f: (nat, V, V) -> V, insts: seq<Inst>, regs: Regs<V>)
    requires |regs| == REGISTERS
    ensures forall r :: 0 <= r < REGISTERS ==> Run(f, insts, regs)[r] == Eval(f, Terms(insts)[r], regs)
    decreases |insts|
  {
    if |insts| > 0 {
      RunIsEval(f, insts[..|insts| - 1], regs);
    }
  }

  // Integers can spell terms, so no two terms are equal under every operation on them.

  function Triangle(s: nat): nat {
    if s == 0 then 0 else Triangle(s - 1) + s
  }

  function Pair(x: nat, y: nat): nat {
    Triangle(x + y) + y
  }

  lemma {:induction false} TriangleGap(s: nat, t: nat)
    requires s < t
    ensures Triangle(s) + s < Triangle(t)
  {
    if s + 1 < t {
      TriangleGap(s, t - 1);
    }
  }

  lemma {:induction false} PairInjective(x: nat, y: nat, u: nat, v: nat)
    requires Pair(x, y) == Pair(u, v)
    ensures x == u && y == v
  {
    if x + y < u + v {
      TriangleGap(x + y, u + v);
    } else if u + v < x + y {
      TriangleGap(u + v, x + y);
    }
  }

  function Spell(op: nat, x: int, y: int): int {
    if x < 0 || y < 0 then 0 else REGISTERS + Pair(op, Pair(x, y))
  }

  function Numbers(): (regs: Regs<int>)
    ensures |regs| == REGISTERS
  {
    seq(REGISTERS, r requires 0 <= r < REGISTERS => r)
  }

  /** Terms over the registers. */
  predicate Proper(t: Term) {
    match t
    case Var(r) => r < REGISTERS
    case App(_, left, right) => Proper(left) && Proper(right)
  }

  lemma {:induction false} SpelledOut(t: Term)
    requires Proper(t)
    ensures if t.Var? then Eval(Spell, t, Numbers()) == t.register
      else Eval(Spell, t.left, Numbers()) >= 0 && Eval(Spell, t.right, Numbers()) >= 0
           && Eval(Spell, t, Numbers()) >= REGISTERS
  {
    match t {
      case Var(r) =>
      case App(op, left, right) =>
        SpelledOut(left);
        SpelledOut(right);
    }
  }

  lemma {:induction false} SpellInjective(s: Term, t: Term)
    requires Proper(s) && Proper(t) && Eval(Spell, s, Numbers()) == Eval(Spell, t, Numbers())
    ensures s == t
  {
    SpelledOut(s);
    SpelledOut(t);
    if s.App? && t.App? {
      var a, b := Eval(Spell, s.left, Numbers()), Eval(Spell, s.right, Numbers());
      var c, d := Eval(Spell, t.left, Numbers()), Eval(Spell, t.right, Numbers());
      PairInjective(s.op, Pair(a, b), t.op, Pair(c, d));
      PairInjective(a, b, c, d);
      SpellInjective(s.left, t.left);
      SpellInjective(s.right, t.right);
    }
  }

  lemma {:induction false} TermsProper(insts: seq<Inst>)
    ensures forall r :: 0 <= r < REGISTERS ==> Proper(Terms(insts)[r])
    decreases |insts|
  {
    if |insts| > 0 {
      TermsProper(insts[..|insts| - 1]);
      assert Terms(insts) == Effect(Build, insts[|insts| - 1], Terms(insts[..|insts| - 1]));
    }
  }

  /** Two programs compute the same under every operation if and only if their symbolic runs agree. */
  lemma {:induction false} MeaningIsTerms(a: seq<Inst>, b: seq<Inst>)
    ensures SameMeaning(a, b) <==> Terms(a) == Terms(b)
  {
    if Terms(a) == Terms(b) {
      forall f: (nat, int, int) -> int, regs: Regs<int> | |regs| == REGISTERS
        ensures Run(f, a, regs) == Run(f, b, regs)
      {
        RunIsEval(f, a, regs);
        RunIsEval(f, b, regs);
      }
    }
    if SameMeaning(a, b) {
      assert Run(Spell, a, Numbers()) == Run(Spell, b, Numbers());
      RunIsEval(Spell, a, Numbers());
      RunIsEval(Spell, b, Numbers());
      TermsProper(a);
      TermsProper(b);
      forall r | 0 <= r < REGISTERS ensures Terms(a)[r] == Terms(b)[r] {
        SpellInjective(Terms(a)[r], Terms(b)[r]);
      }
    }
  }

  // Where every register is written at most once.

  predicate SingleAssignment(insts: seq<Inst>) {
    forall j, k :: 0 <= j < k < |insts| ==> Reg(insts[j].dst) != Reg(insts[k].dst)
  }

  predicate Writes(insts: seq<Inst>, register: int) {
    exists k :: 0 <= k < |insts| && Reg(insts[k].dst) == register
  }

  /** A register holds an operation's result exactly if some instruction has written it. */
  lemma {:induction false} WrittenIsApp(insts: seq<Inst>, r: nat)
    requires r < REGISTERS
    ensures Terms(insts)[r].App? <==> Writes(insts, r)
    decreases |insts|
  {
    if |insts| > 0 {
      var init, last := insts[..|insts| - 1], insts[|insts| - 1];
      WrittenIsApp(init, r);
      assert Terms(insts) == Effect(Build, last, Terms(init));
      if Writes(insts, r) && Reg(last.dst) != r {
        var k :| 0 <= k < |insts| && Reg(insts[k].dst) == r;
        assert init[k] == insts[k];
      }
      if Writes(init, r) {
        var k :| 0 <= k < |init| && Reg(init[k].dst) == r;
        assert insts[k] == init[k];
      }
    }
  }

  /** What one instruction computes stays in its register. */
  lemma {:induction false} ResultStays(insts: seq<Inst>, p: nat)
    requires SingleAssignment(insts) && p < |insts|
    ensures var before := Terms(insts[..p]);
      Terms(insts)[Reg(insts[p].dst)] == App(insts[p].op, before[Reg(insts[p].src1)], before[Reg(insts[p].src2)])
    decreases |insts|
  {
    var init, last := insts[..|insts| - 1], insts[|insts| - 1];
    assert Terms(insts) == Effect(Build, last, Terms(init));
    if p < |init| {
      assert init[..p] == insts[..p];
      ResultStays(init, p);
    } else {
      assert insts[..p] == init;
    }
  }

  lemma {:induction false} SelectSingle(insts: seq<Inst>, order: seq<nat>)
    requires SingleAssignment(insts) && InRange(order, |insts|) && Distinct(order)
    ensures SingleAssignment(Select(insts, order))
  {
    var out := Select(insts, order);
    forall j, k | 0 <= j < k < |out| ensures Reg(out[j].dst) != Reg(out[k].dst) {
      assert order[j] != order[k];
      assert order[j] < order[k] || order[k] < order[j];
    }
  }

  /** An instruction left out leaves its register as it was. */
  lemma {:induction false} SameTermsComplete(insts: seq<Inst>, order: seq<nat>, i: nat)
    requires SingleAssignment(insts) && InRange(order, |insts|) && Distinct(order)
    requires Terms(Select(insts, order)) == Terms(insts) && i < |insts|
    ensures i in order
  {
    var r := Reg(insts[i].dst);
    WrittenIsApp(insts, r);
    WrittenIsApp(Select(insts, order), r);
    var k :| 0 <= k < |order| && Reg(Select(insts, order)[k].dst) == r;
    assert order[k] == i;
  }

  /** Whether an operand has been written before its reader, in both orders. */
  lemma {:induction false} SameTermsOperands(insts: seq<Inst>, order: seq<nat>, a: nat)
    requires SingleAssignment(insts) && InRange(order, |insts|) && Distinct(order)
    requires Terms(Select(insts, order)) == Terms(insts) && a < |order|
    ensures var i := order[a];
      forall r: nat :: r < REGISTERS && Reads(insts[i], r) ==>
        (Writes(Select(insts, order)[..a], r) <==> Writes(insts[..i], r))
  {
    var i, out := order[a], Select(insts, order);
    SelectSingle(insts, order);
    ResultStays(insts, i);
    ResultStays(out, a);
    forall r: nat | r < REGISTERS && Reads(insts[i], r) ensures Writes(out[..a], r) <==> Writes(insts[..i], r) {
      WrittenIsApp(insts[..i], r);
      WrittenIsApp(out[..a], r);
    }
  }

  lemma {:induction false} SameTermsKeep(insts: seq<Inst>, order: seq<nat>, a: nat, b: nat)
    requires SingleAssignment(insts) && InRange(order, |insts|) && Distinct(order)
    requires Terms(Select(insts, order)) == Terms(insts) && a < b < |order| && order[a] > order[b]
    ensures Independent(insts[order[a]], insts[order[b]])
  {
    var i, j, out := order[a], order[b], Select(insts, order);
    var ri, rj := Reg(insts[i].dst), Reg(insts[j].dst);
    SameTermsOperands(insts, order, a);
    SameTermsOperands(insts, order, b);
    // Only j writes rj; it comes before i in the program and behind it in the order.
    assert insts[..i][j] == insts[j];
    assert Writes(insts[..i], rj);
    assert !Writes(out[..a], rj) by { OnlyWriter(insts, order, a, j); }
    // Only i writes ri; it comes behind j in the program and before it in the order.
    assert out[..b][a] == insts[i];
    assert Writes(out[..b], ri);
    assert forall k :: 0 <= k < j ==> insts[..j][k] == insts[k];
    assert !Writes(insts[..j], ri);
  }

  lemma {:induction false} OnlyWriter(insts: seq<Inst>, order: seq<nat>, a: nat, j: nat)
    requires SingleAssignment(insts) && InRange(order, |insts|) && a <= |order| && j < |insts| && j !in order[..a]
    ensures !Writes(Select(insts, order)[..a], Reg(insts[j].dst))
  {
    forall k | 0 <= k < a ensures Reg(Select(insts, order)[..a][k].dst) != Reg(insts[j].dst) {
      assert order[..a][k] == order[k];
      assert order[k] < j || j < order[k];
    }
  }

  /** If no register is written twice, reorder keeps the meaning under every operation if and only if it loses nothing
      and keeps all dependent pairs in order. */
  lemma {:induction false} SingleAssignmentExact(insts: seq<Inst>)
    requires SingleAssignment(insts)
    ensures SameMeaning(Reordered(insts), insts)
      <==> |Reordered(insts)| == |insts| && KeepsDependences(insts, Order(insts, |insts|))
  {
    var order := Order(insts, |insts|);
    OrderSafe(insts, |insts|);
    MeaningIsTerms(Reordered(insts), insts);
    if SameMeaning(Reordered(insts), insts) {
      forall i: nat | i < |insts| ensures i in order {
        SameTermsComplete(insts, order, i);
      }
      Covering(order, |insts|);
      forall a, b | 0 <= a < b < |order| && order[a] > order[b] ensures Independent(insts[order[a]], insts[order[b]]) {
        SameTermsKeep(insts, order, a, b);
      }
    } else if |Reordered(insts)| == |insts| && KeepsDependences(insts, order) {
      ReorderKeepsMeaning(insts);
    }
  }

  /** Without that condition keeping dependences is enough but not needed: here two writes of register 2 change places,
      and a third makes up for it. */
  lemma {:induction false} KeepingIsNotNeeded()
    ensures var insts := [Inst(5, 0, 0, 1), Inst(5, 1, 1, 2), Inst(5, 3, 3, 2), Inst(5, 4, 4, 2)];
      !KeepsDependences(insts, Order(insts, 4)) && SameMeaning(Reordered(insts), insts)
  {
    var a, b, c, d := Inst(5, 0, 0, 1), Inst(5, 1, 1, 2), Inst(5, 3, 3, 2), Inst(5, 4, 4, 2);
    var insts := [a, b, c, d];
    MadeUpOrder(insts);
    assert Reordered(insts) == [a, c, b, d];
    forall f: (nat, int, int) -> int, regs: Regs<int> | |regs| == REGISTERS
      ensures Run(f, [a, c, b, d], regs) == Run(f, insts, regs)
    {
      MadeUpFor(f, a, b, c, d, regs);
    }
    assert !Independent(insts[Order(insts, 4)[1]], insts[Order(insts, 4)[2]]);
  }

  lemma {:induction false} MadeUpOrder(insts: seq<Inst>)
    requires insts == [Inst(5, 0, 0, 1), Inst(5, 1, 1, 2), Inst(5, 3, 3, 2), Inst(5, 4, 4, 2)]
    ensures Order(insts, 4) == [0, 2, 1, 3]
  {
    HoistedOrder(insts);
    PickIs(insts, [0, 2, 1], 2, 3);
    assert Order(insts, 4) == [0, 2, 1] + [3];
  }

  lemma {:induction false} MadeUpFor<V>(f: (nat, V, V) -> V, a: Inst, b: Inst, c: Inst, d: Inst, regs: Regs<V>)
    requires |regs| == REGISTERS && Reg(b.dst) == Reg(c.dst) == Reg(d.dst)
    requires !Reads(b, Reg(b.dst)) && !Reads(c, Reg(b.dst)) && !Reads(d, Reg(b.dst))
    ensures Run(f, [a, c, b, d], regs) == Run(f, [a, b, c, d], regs)
  {
    FourRun(f, a, c, b, d, regs);
    FourRun(f, a, b, c, d, regs);
  }

  lemma {:induction false} ThreeRun<V>(f: (nat, V, V) -> V, a: Inst, b: Inst, c: Inst, regs: Regs<V>)
    requires |regs| == REGISTERS
    ensures Run(f, [a, b, c], regs) == Effect(f, c, Effect(f, b, Effect(f, a, regs)))
  {
    assert [a, b, c][..2] == [a, b] && [a, b][..1] == [a] && [a][..0] == [];
    assert Run(f, [a], regs) == Effect(f, a, regs);
    assert Run(f, [a, b], regs) == Effect(f, b, Effect(f, a, regs));
  }

  lemma {:induction false} FourRun<V>(f: (nat, V, V) -> V, a: Inst, b: Inst, c: Inst, d: Inst, regs: Regs<V>)
    requires |regs| == REGISTERS
    ensures Run(f, [a, b, c, d], regs) == Effect(f, d, Effect(f, c, Effect(f, b, Effect(f, a, regs))))
  {
    assert [a, b, c, d][..3] == [a, b, c];
    ThreeRun(f, a, b, c, regs);
  }

  /** The second of the first three reads what the first writes, and the third does not. */
  lemma {:induction false} HoistedOrder(insts: seq<Inst>)
    requires |insts| >= 3 && Reads(insts[1], Reg(insts[0].dst)) && !Reads(insts[2], Reg(insts[0].dst))
    requires !Reads(insts[1], Reg(insts[2].dst))
    ensures Order(insts, 3) == [0, 2, 1]
  {
    PickIs(insts, [], -1, 0);
    assert Order(insts, 0) == [];
    assert NextOrder(insts, []) == [] + [0] == [0];
    PickIs(insts, [0], Reg(insts[0].dst), 2);
    assert NextOrder(insts, [0]) == [0] + [2] == [0, 2];
    PickIs(insts, [0, 2], Reg(insts[2].dst), 1);
    assert NextOrder(insts, [0, 2]) == [0, 2] + [1] == [0, 2, 1];
    assert Order(insts, 1) == [0];
    assert Order(insts, 2) == [0, 2];
  }

  function Add(op: nat, x: int, y: int): int {
    x + y
  }

  function Double(regs: Regs<int>, from: nat, to: nat): (r: Regs<int>)
    requires |regs| == REGISTERS && from < REGISTERS && to < REGISTERS
    ensures |r| == REGISTERS
  {
    regs[to := regs[from] + regs[from]]
  }

  function DoubleInst(from: nat, to: nat): Inst {
    Inst(5, from, from, to)
  }

  lemma {:induction false} ThreeDoublings(regs: Regs<int>, s0: nat, d0: nat, s1: nat, d1: nat, s2: nat, d2: nat)
    requires |regs| == REGISTERS && s0 < REGISTERS && d0 < REGISTERS
    requires s1 < REGISTERS && d1 < REGISTERS && s2 < REGISTERS && d2 < REGISTERS
    ensures Run(Add, [DoubleInst(s0, d0), DoubleInst(s1, d1), DoubleInst(s2, d2)], regs)
         == Double(Double(Double(regs, s0, d0), s1, d1), s2, d2)
  {
    ThreeRun(Add, DoubleInst(s0, d0), DoubleInst(s1, d1), DoubleInst(s2, d2), regs);
    DoubleEffect(regs, s0, d0);
    DoubleEffect(Double(regs, s0, d0), s1, d1);
    DoubleEffect(Double(Double(regs, s0, d0), s1, d1), s2, d2);
  }

  lemma {:induction false} DoubleEffect(regs: Regs<int>, from: nat, to: nat)
    requires |regs| == REGISTERS && from < REGISTERS && to < REGISTERS
    ensures Effect(Add, DoubleInst(from, to), regs) == Double(regs, from, to)
  {
  }

  /** The last of three is hoisted. */
  lemma {:induction false} HoistedThree(a: Inst, b: Inst, c: Inst)
    requires Reads(b, Reg(a.dst)) && !Reads(c, Reg(a.dst)) && !Reads(b, Reg(c.dst))
    ensures Reordered([a, b, c]) == [a, c, b]
  {
    HoistedOrder([a, b, c]);
  }

  /** An instruction is hoisted over the one that computes its operand: the third of these additions reads register 2
      before the second has written it, and only some registers at the start hide it. */
  lemma {:induction false} ReadHoistedOverWrite(regs: Regs<int>)
    requires |regs| == REGISTERS
    ensures var a, b, c := DoubleInst(0, 1), DoubleInst(1, 2), DoubleInst(2, 3);
      && Reordered([a, b, c]) == [a, c, b]
      && (Run(Add, [a, c, b], regs) == Run(Add, [a, b, c], regs) <==> regs[2] == 4 * regs[0])
  {
    HoistedThree(DoubleInst(0, 1), DoubleInst(1, 2), DoubleInst(2, 3));
    ThreeDoublings(regs, 0, 1, 1, 2, 2, 3);
    ThreeDoublings(regs, 0, 1, 2, 3, 1, 2);
    var u, v := Double(Double(Double(regs, 0, 1), 1, 2), 2, 3), Double(Double(Double(regs, 0, 1), 2, 3), 1, 2);
    SameButOne(u, v, 3);
  }

  lemma {:induction false} SameButOne(u: Regs<int>, v: Regs<int>, i: nat)
    requires |u| == |v| == REGISTERS && i < REGISTERS && forall k :: 0 <= k < REGISTERS && k != i ==> u[k] == v[k]
    ensures u == v <==> u[i] == v[i]
  {
  }

  /** A later write of a register is hoisted over an earlier one: register 2 ends with the earlier value. */
  lemma {:induction false} WriteHoistedOverWrite(regs: Regs<int>)
    requires |regs| == REGISTERS
    ensures var a, b, c := DoubleInst(0, 1), DoubleInst(1, 2), DoubleInst(3, 2);
      && Reordered([a, b, c]) == [a, c, b]
      && (Run(Add, [a, c, b], regs) == Run(Add, [a, b, c], regs) <==> regs[3] == 2 * regs[0])
  {
    HoistedThree(DoubleInst(0, 1), DoubleInst(1, 2), DoubleInst(3, 2));
    ThreeDoublings(regs, 0, 1, 1, 2, 3, 2);
    ThreeDoublings(regs, 0, 1, 3, 2, 1, 2);
    var u, v := Double(Double(Double(regs, 0, 1), 1, 2), 3, 2), Double(Double(Double(regs, 0, 1), 3, 2), 1, 2);
    SameButOne(u, v, 2);
  }
}
