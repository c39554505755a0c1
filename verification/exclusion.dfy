/**
  What the detector's answers and tables mean over whole runs: a resource is granted to one thread at a time, and the
  tables say who was granted what and who still waits.
 */
module Exclusion {
  import opened Deadlock

  // Holding.

  /** Operation i asks for a resource and is told that it has it. */
  ghost predicate Granted(ops: seq<Op>, i: int) {
    0 <= i < |ops| && ops[i].Acquire? && Acquired(After(ops[..i]), ops[i].thread, ops[i].resource).1
  }

  predicate ReleasedBetween(ops: seq<Op>, i: int, n: int, t: Index, r: Index) {
    exists k :: 0 <= k < |ops| && i < k < n && ops[k] == Release(t, r)
  }

  /** t was granted r by operation i, and has not released it before n. */
  ghost predicate HasSince(ops: seq<Op>, i: int, n: int, t: Index, r: Index) {
    i < n && Granted(ops, i) && ops[i] == Acquire(t, r) && !ReleasedBetween(ops, i, n, t, r)
  }

  ghost predicate Has(ops: seq<Op>, n: int, t: Index, r: Index) {
    exists i :: HasSince(ops, i, n, t, r)
  }

  lemma {:induction false} AfterNext(ops: seq<Op>, n: nat)
    requires n < |ops|
    ensures After(ops[..n + 1]) == Apply(After(ops[..n]), ops[n])
  {
    assert ops[..n + 1][..n] == ops[..n];
  }

  lemma {:induction false} HasNext(ops: seq<Op>, n: nat, next: nat, t: Index, r: Index)
    requires n < |ops| && next == n + 1
    ensures Has(ops, next, t, r)
       <==> (Granted(ops, n) && ops[n] == Acquire(t, r)) || (Has(ops, n, t, r) && ops[n] != Release(t, r))
  {
    if i :| HasSince(ops, i, next, t, r) {
      if i < n {
        assert HasSince(ops, i, n, t, r);
      }
    }
    if i :| HasSince(ops, i, n, t, r) && ops[n] != Release(t, r) {
      assert HasSince(ops, i, next, t, r);
    }
    if Granted(ops, n) && ops[n] == Acquire(t, r) {
      assert HasSince(ops, n, next, t, r);
    }
  }

  lemma {:induction false} HolderStep(g: Graph, op: Op, t: Index, r: Index)
    requires Valid(g)
    ensures Apply(g, op).holder[r] == t
       <==> (op == Acquire(t, r) && Acquired(g, t, r).1) || (g.holder[r] == t && op != Release(t, r))
  {
  }

  /** At every moment of every run a thread holds a resource in the table if and only if it was granted it and has not
      released it since. */
  lemma {:induction false} HolderExact(ops: seq<Op>, n: nat, t: Index, r: Index)
    requires n <= |ops|
    ensures After(ops[..n]).holder[r] == t <==> Has(ops, n, t, r)
    decreases n
  {
    if n == 0 {
      assert ops[..0] == [];
    } else {
      AfterNext(ops, n - 1);
      HasNext(ops, n - 1, n, t, r);
      HolderExact(ops, n - 1, t, r);
      HolderStep(After(ops[..n - 1]), ops[n - 1], t, r);
    }
  }

  ghost predicate Free(ops: seq<Op>, n: int, r: Index) {
    forall t: Index :: !Has(ops, n, t, r)
  }

  /** A request is granted if and only if nobody has the resource: neither another thread nor the one that asks. */
  lemma {:induction false} GrantedExact(ops: seq<Op>, j: nat)
    requires j < |ops| && ops[j].Acquire?
    ensures Granted(ops, j) <==> Free(ops, j, ops[j].resource)
  {
    var g, r := After(ops[..j]), ops[j].resource;
    forall t: Index ensures g.holder[r] == t <==> Has(ops, j, t, r) {
      HolderExact(ops, j, t, r);
    }
    if g.holder[r] != -1 {
      var u: Index := g.holder[r];
      assert Has(ops, j, u, r);
    }
  }

  /** Between two grants of one resource the thread that was granted it first has released it. */
  lemma {:induction false} MutualExclusion(ops: seq<Op>, i: nat, j: nat)
    requires i < j && Granted(ops, i) && Granted(ops, j) && ops[i].resource == ops[j].resource
    ensures ReleasedBetween(ops, i, j, ops[i].thread, ops[i].resource)
  {
    GrantedExact(ops, j);
    assert !Has(ops, j, ops[i].thread, ops[i].resource);
    assert !HasSince(ops, i, j, ops[i].thread, ops[i].resource);
  }

  // Waiting.

  ghost predicate TurnedDown(g: Graph, op: Op)
    requires Valid(g)
  {
    RevisitsBelow(Waits(g, op.thread, op.resource), op.thread, MAX_RES)
  }

  /** Operation i asks for a resource that somebody has, and the walk along the links does not come back. */
  ghost predicate StartsWait(ops: seq<Op>, i: int) {
    0 <= i < |ops| && ops[i].Acquire? && !Granted(ops, i) && !TurnedDown(After(ops[..i]), ops[i])
  }

  /** Operation k ends whatever wait t is in: a request that is not granted, or the release of something it has. */
  ghost predicate EndsWait(ops: seq<Op>, k: int, t: Index) {
    && 0 <= k < |ops| && ops[k].thread == t
    && if ops[k].Acquire? then !Granted(ops, k) else Has(ops, k, t, ops[k].resource)
  }

  ghost predicate WaitsSince(ops: seq<Op>, i: int, n: int, t: Index, r: Index) {
    && i < n && StartsWait(ops, i) && ops[i] == Acquire(t, r)
    && forall k :: i < k < n ==> !EndsWait(ops, k, t)
  }

  ghost predicate StillWaits(ops: seq<Op>, n: int, t: Index, r: Index) {
    exists i :: WaitsSince(ops, i, n, t, r)
  }

  lemma {:induction false} StillWaitsNext(ops: seq<Op>, n: nat, next: nat, t: Index, r: Index)
    requires n < |ops| && next == n + 1
    ensures StillWaits(ops, next, t, r)
       <==> (StartsWait(ops, n) && ops[n] == Acquire(t, r)) || (StillWaits(ops, n, t, r) && !EndsWait(ops, n, t))
  {
    if i :| WaitsSince(ops, i, next, t, r) {
      if i < n {
        assert WaitsSince(ops, i, n, t, r);
      }
    }
    if i :| WaitsSince(ops, i, n, t, r) && !EndsWait(ops, n, t) {
      assert WaitsSince(ops, i, next, t, r);
    }
    if StartsWait(ops, n) && ops[n] == Acquire(t, r) {
      assert WaitsSince(ops, n, next, t, r);
    }
  }

  ghost predicate Ends(g: Graph, op: Op, t: Index)
    requires Valid(g)
  {
    op.thread == t && if op.Acquire? then !Acquired(g, t, op.resource).1 else g.holder[op.resource] == t
  }

  lemma {:induction false} WaiterStep(g: Graph, op: Op, t: Index, r: Index)
    requires Valid(g)
    ensures Apply(g, op).waiting[t] == r
       <==> || (op == Acquire(t, r) && !Acquired(g, t, r).1 && !TurnedDown(g, op))
            || (g.waiting[t] == r && !Ends(g, op, t))
  {
  }

  lemma {:induction false} EndsSame(ops: seq<Op>, n: nat, t: Index)
    requires n < |ops|
    ensures EndsWait(ops, n, t) <==> Ends(After(ops[..n]), ops[n], t)
  {
    HolderExact(ops, n, ops[n].thread, ops[n].resource);
  }

  /** At every moment of every run a thread is down as waiting for a resource if and only if it started to wait for it
      and has neither been turned down again nor released anything since. A grant does not end a wait. */
  lemma {:induction false} WaiterExact(ops: seq<Op>, n: nat, t: Index, r: Index)
    requires n <= |ops|
    ensures After(ops[..n]).waiting[t] == r <==> StillWaits(ops, n, t, r)
    decreases n
  {
    if n == 0 {
      assert ops[..0] == [];
    } else {
      AfterNext(ops, n - 1);
      StillWaitsNext(ops, n - 1, n, t, r);
      WaiterExact(ops, n - 1, t, r);
      EndsSame(ops, n - 1, t);
      WaiterStep(After(ops[..n - 1]), ops[n - 1], t, r);
    }
  }

  // The detector itself.

  ghost predicate TellGranted(ops: seq<Op>, answers: seq<bool>) {
    |answers| <= |ops| && forall i :: 0 <= i < |answers| && ops[i].Acquire? ==> (answers[i] <==> Granted(ops, i))
  }

  /** A request is answered with yes exactly when nobody has the resource. */
  ghost predicate TellFree(ops: seq<Op>, answers: seq<bool>)
    requires |answers| == |ops|
  {
    forall i :: 0 <= i < |ops| && ops[i].Acquire? ==> (answers[i] <==> Free(ops, i, ops[i].resource))
  }

  /** Operation i is a request for r that is answered with yes. */
  predicate Yes(ops: seq<Op>, answers: seq<bool>, i: int, r: Index)
    requires |answers| == |ops|
  {
    0 <= i < |ops| && ops[i].Acquire? && ops[i].resource == r && answers[i]
  }

  ghost predicate Exclusive(ops: seq<Op>, answers: seq<bool>)
    requires |answers| == |ops|
  {
    forall r: Index, i: int, j: int :: Yes(ops, answers, i, r) && Yes(ops, answers, j, r) && i < j ==>
      ReleasedBetween(ops, i, j, ops[i].thread, r)
  }

  method PerformOne(detector: DeadlockDetector, op: Op) returns (answer: bool)
    requires detector.Ok()
    modifies detector.holder, detector.waiting
    ensures detector.Ok() && detector.View() == Apply(old(detector.View()), op)
    ensures op.Acquire? ==> answer == Acquired(old(detector.View()), op.thread, op.resource).1
  {
    answer := false;
    match op {
      case Acquire(t, r) => answer := detector.TryAcquire(t, r);
      case Release(t, r) => detector.Release(t, r);
    }
  }

  lemma {:induction false} TellNext(ops: seq<Op>, answers: seq<bool>, answer: bool)
    requires TellGranted(ops, answers) && |answers| < |ops|
    requires ops[|answers|].Acquire? ==> (answer <==> Granted(ops, |answers|))
    ensures TellGranted(ops, answers + [answer])
  {
  }

  /** The operations, one after the other, on a new detector: who is told yes has the resource for itself until it
      releases it. */
  method Perform(ops: seq<Op>) returns (answers: seq<bool>)
    ensures |answers| == |ops| && TellFree(ops, answers) && Exclusive(ops, answers)
  {
    var detector := new DeadlockDetector();
    answers := [];
    assert ops[..0] == [];
    for n := 0 to |ops|
      invariant fresh(detector.holder) && fresh(detector.waiting)
      invariant detector.Ok() && detector.View() == After(ops[..n])
      invariant |answers| == n && TellGranted(ops, answers)
    {
      AfterNext(ops, n);
      var answer := PerformOne(detector, ops[n]);
      TellNext(ops, answers, answer);
      answers := answers + [answer];
    }
    AnswersMean(ops, answers);
  }

  lemma {:induction false} AnswersMean(ops: seq<Op>, answers: seq<bool>)
    requires |answers| == |ops| && TellGranted(ops, answers)
    ensures TellFree(ops, answers) && Exclusive(ops, answers)
  {
    forall i | 0 <= i < |ops| && ops[i].Acquire? ensures answers[i] <==> Free(ops, i, ops[i].resource) {
      GrantedExact(ops, i);
    }
    forall r: Index, i: int, j: int | Yes(ops, answers, i, r) && Yes(ops, answers, j, r) && i < j
      ensures ReleasedBetween(ops, i, j, ops[i].thread, r)
    {
      MutualExclusion(ops, i, j);
    }
  }
}
