/**
  The deadlock detector: who holds each resource, what each thread waits for, and a bounded walk along the wait-for
  links. Exactly when the walk is right, and exactly which successful acquires let a deadlock form unseen.
 */
module Deadlock {
  import opened Counting

  const MAX_RES: nat := 32

  /** holder maps resources to threads, waiting maps threads to resources; -1 is none. */
  datatype Graph = Graph(holder: seq<int>, waiting: seq<int>)

  ghost predicate Valid(g: Graph) {
    && |g.holder| == MAX_RES && |g.waiting| == MAX_RES
    && (forall r :: 0 <= r < MAX_RES ==> -1 <= g.holder[r] < MAX_RES)
    && (forall t :: 0 <= t < MAX_RES ==> -1 <= g.waiting[t] < MAX_RES)
  }

  function Empty(): (g: Graph)
    ensures Valid(g)
  {
    Graph(seq(MAX_RES, _ => -1), seq(MAX_RES, _ => -1))
  }

  /** Whom t waits for; -1 when it waits for nothing or for a free resource. */
  function Next(g: Graph, t: int): (u: int)
    requires Valid(g) && 0 <= t < MAX_RES
    ensures -1 <= u < MAX_RES
  {
    if g.waiting[t] < 0 then -1 else g.holder[g.waiting[t]]
  }

  /** Where k wait-for links lead from t. */
  function Walk(g: Graph, t: int, k: nat): (u: int)
    requires Valid(g) && -1 <= t < MAX_RES
    ensures -1 <= u < MAX_RES
  {
    if k == 0 then t
    else
      var u := Walk(g, t, k - 1);
      if u < 0 then -1 else Next(g, u)
  }

  /** The links from t come back to a thread already passed, at a step below the bound. */
  ghost predicate RevisitsBelow(g: Graph, t: int, bound: nat)
    requires Valid(g) && -1 <= t < MAX_RES
  {
    exists j: nat, k: nat :: j < k < bound && Walk(g, t, j) == Walk(g, t, k) >= 0
  }

  ghost predicate Revisits(g: Graph, t: int)
    requires Valid(g) && -1 <= t < MAX_RES
  {
    exists j: nat, k: nat :: j < k && Walk(g, t, j) == Walk(g, t, k) >= 0
  }

  /** The first 32 threads of the walk are 32 different threads. */
  ghost predicate CoversAll(g: Graph, t: int)
    requires Valid(g) && -1 <= t < MAX_RES
  {
    && (forall k :: 0 <= k < MAX_RES ==> Walk(g, t, k) >= 0)
    && (forall j, k :: 0 <= j < k < MAX_RES ==> Walk(g, t, j) != Walk(g, t, k))
  }

  /** t waits, over at least one other thread, for itself. */
  ghost predicate Deadlocked(g: Graph, t: int)
    requires Valid(g) && 0 <= t < MAX_RES
  {
    Next(g, t) != t && exists k: nat :: k > 0 && Walk(g, t, k) == t
  }

  ghost predicate DeadlockFree(g: Graph)
    requires Valid(g)
  {
    forall t :: 0 <= t < MAX_RES ==> !Deadlocked(g, t)
  }

  // Operations on values.

  /** The wait that t wants to start. */
  ghost function Waits(g: Graph, t: int, r: int): (h: Graph)
    requires Valid(g) && 0 <= t < MAX_RES && 0 <= r < MAX_RES
  {
    g.(waiting := g.waiting[t := r])
  }

  ghost function Acquired(g: Graph, t: nat, r: nat): (res: (Graph, bool))
    requires Valid(g) && t < MAX_RES && r < MAX_RES
    ensures Valid(res.0)
  {
    if g.holder[r] == -1 then (g.(holder := g.holder[r := t]), true)
    else
      if RevisitsBelow(Waits(g, t, r), t, MAX_RES) then (g.(waiting := g.waiting[t := -1]), false)
      else (Waits(g, t, r), false)
  }

  ghost function Released(g: Graph, t: nat, r: nat): (h: Graph)
    requires Valid(g) && t < MAX_RES && r < MAX_RES
    ensures Valid(h)
  {
    if g.holder[r] == t then Graph(g.holder[r := -1], g.waiting[t := -1]) else g
  }

  /** marks holds exactly the threads of the first steps of the walk. */
  ghost predicate Marked(g: Graph, t: int, step: nat, marks: seq<bool>)
    requires Valid(g) && -1 <= t < MAX_RES
  {
    && |marks| == MAX_RES
    && (forall j :: 0 <= j < step ==> Walk(g, t, j) >= 0 && marks[Walk(g, t, j)])
    && (forall u :: 0 <= u < MAX_RES && marks[u] ==> exists j :: 0 <= j < step && Walk(g, t, j) == u)
  }

  lemma {:induction false} MarkNext(g: Graph, t: int, step: nat, marks: seq<bool>)
    requires Valid(g) && -1 <= t < MAX_RES && Marked(g, t, step, marks) && !RevisitsBelow(g, t, step)
    requires Walk(g, t, step) >= 0 && !marks[Walk(g, t, step)]
    ensures Marked(g, t, step + 1, marks[Walk(g, t, step) := true]) && !RevisitsBelow(g, t, step + 1)
  {
    var more := marks[Walk(g, t, step) := true];
    forall u | 0 <= u < MAX_RES && more[u] ensures exists j :: 0 <= j < step + 1 && Walk(g, t, j) == u {
      if u != Walk(g, t, step) {
        assert marks[u];
      }
    }
  }

  lemma {:induction false} MarkFound(g: Graph, t: int, step: nat, marks: seq<bool>)
    requires Valid(g) && -1 <= t < MAX_RES && Marked(g, t, step, marks) && step < MAX_RES
    requires Walk(g, t, step) >= 0 && marks[Walk(g, t, step)]
    ensures RevisitsBelow(g, t, MAX_RES)
  {
    var j :| 0 <= j < step && Walk(g, t, j) == Walk(g, t, step);
  }

  /** Before round number step the detector stands on cur, with the threads passed marked and none met twice. */
  ghost predicate Round(g: Graph, t: int, step: nat, cur: int, marks: seq<bool>)
    requires Valid(g) && -1 <= t < MAX_RES
  {
    cur == Walk(g, t, step) && Marked(g, t, step, marks) && !RevisitsBelow(g, t, step)
  }

  /** One round of the detector's loop. */
  lemma {:induction false} RoundOn(g: Graph, t: int, step: nat, cur: int, marks: seq<bool>)
    requires Valid(g) && -1 <= t < MAX_RES && step < MAX_RES && Round(g, t, step, cur, marks)
    ensures cur < 0 ==> !RevisitsBelow(g, t, MAX_RES)
    ensures cur >= 0 && marks[cur] ==> RevisitsBelow(g, t, MAX_RES)
    ensures cur >= 0 && !marks[cur] ==>
      if g.waiting[cur] < 0 then !RevisitsBelow(g, t, MAX_RES)
      else Round(g, t, step + 1, g.holder[g.waiting[cur]], marks[cur := true])
  {
    if cur < 0 {
      NoRevisitPast(g, t, step);
    } else if marks[cur] {
      MarkFound(g, t, step, marks);
    } else {
      MarkNext(g, t, step, marks);
      if g.waiting[cur] < 0 {
        NoRevisitPast(g, t, step + 1);
      }
    }
  }

  /** The detector. */
  class DeadlockDetector {
    const holder: array<int>
    const waiting: array<int>

    constructor ()
      ensures Ok() && View() == Empty() && fresh(holder) && fresh(waiting)
    {
      holder := new int[MAX_RES](_ => -1);
      waiting := new int[MAX_RES](_ => -1);
      new;
      assert holder[..] == Empty().holder && waiting[..] == Empty().waiting;
    }

    ghost function View(): Graph
      reads holder, waiting
    {
      Graph(holder[..], waiting[..])
    }

    ghost predicate Ok()
      reads holder, waiting
    {
      holder != waiting && Valid(View())
    }

    /** The bounded walk. */
    method HasCycle(startThread: int) returns (r: bool)
      requires Ok() && -1 <= startThread < MAX_RES
      ensures r <==> RevisitsBelow(View(), startThread, MAX_RES)
    {
      var visited := new bool[MAX_RES](_ => false);
      var cur := startThread;
      ghost var g := View();
      for step := 0 to MAX_RES
        invariant holder[..] == g.holder && waiting[..] == g.waiting
        invariant Round(g, startThread, step, cur, visited[..])
      {
        RoundOn(g, startThread, step, cur, visited[..]);
        if cur < 0 {
          return false;
        }
        if visited[cur] {
          return true;
        }
        ghost var marks := visited[..];
        visited[cur] := true;
        assert visited[..] == marks[cur := true];
        var res := waiting[cur];
        if res < 0 {
          return false;
        }
        cur := holder[res];
      }
      return false;
    }

    method TryAcquire(threadId: nat, resource: nat) returns (ok: bool)
      requires Ok() && threadId < MAX_RES && resource < MAX_RES
      modifies holder, waiting
      ensures Ok() && (View(), ok) == Acquired(old(View()), threadId, resource)
      ensures ok <==> old(holder[resource]) == -1
      ensures holder[..] == if ok then old(holder[..])[resource := threadId] else old(holder[..])
      ensures waiting[..] == if ok then old(waiting[..]) else old(waiting[..])[threadId := waiting[threadId]]
      ensures !ok ==> waiting[threadId] == -1 || waiting[threadId] == resource
    {
      if holder[resource] == -1 {
        holder[resource] := threadId;
        return true;
      }
      waiting[threadId] := resource;
      assert View() == old(View()).(waiting := old(View()).waiting[threadId := resource]);
      var cycle := HasCycle(threadId);
      if cycle {
        waiting[threadId] := -1;
        assert View().waiting == old(View()).waiting[threadId := -1];
        return false;
      }
      return false;
    }

    method Release(threadId: nat, resource: nat)
      requires Ok() && threadId < MAX_RES && resource < MAX_RES
      modifies holder, waiting
      ensures Ok() && View() == Released(old(View()), threadId, resource)
      ensures old(holder[resource]) != threadId ==> View() == old(View())
      ensures old(holder[resource]) == threadId ==>
        holder[..] == old(holder[..])[resource := -1] && waiting[..] == old(waiting[..])[threadId := -1]
    {
      if holder[resource] == threadId {
        holder[resource] := -1;
        waiting[threadId] := -1;
      }
    }
  }

  // Walks.

  lemma {:induction false} FirstStep(g: Graph, t: int)
    requires Valid(g) && 0 <= t < MAX_RES
    ensures Walk(g, t, 0) == t && Walk(g, t, 1) == Next(g, t)
  {
    assert Walk(g, t, 0) == t;
  }

  lemma {:induction false} WalkAdd(g: Graph, t: int, a: nat, b: nat)
    requires Valid(g) && -1 <= t < MAX_RES
    ensures Walk(g, t, a + b) == if Walk(g, t, a) < 0 then -1 else Walk(g, Walk(g, t, a), b)
    decreases b
  {
    if b > 0 {
      WalkAdd(g, t, a, b - 1);
    } else if Walk(g, t, a) < 0 {
      assert Walk(g, t, a) == -1;
    }
  }

  /** Once a walk has ended it stays so. */
  lemma {:induction false} WalkEnded(g: Graph, t: int, a: nat, b: nat)
    requires Valid(g) && -1 <= t < MAX_RES && a <= b && Walk(g, t, b) >= 0
    ensures Walk(g, t, a) >= 0
  {
    WalkAdd(g, t, a, b - a);
  }

  lemma {:induction false} NoRevisitPast(g: Graph, t: int, step: nat)
    requires Valid(g) && -1 <= t < MAX_RES && Walk(g, t, step) < 0 && !RevisitsBelow(g, t, step)
    ensures !Revisits(g, t) && forall bound: nat :: !RevisitsBelow(g, t, bound)
  {
    forall j: nat, k: nat | j < k && Walk(g, t, j) == Walk(g, t, k) >= 0 ensures k < step {
      if k >= step {
        WalkEnded(g, t, step, k);
      }
    }
  }

  /** A walk that comes back to its start never ends. */
  lemma {:induction false} LoopNeverEnds(g: Graph, t: int, n: nat, k: nat)
    requires Valid(g) && 0 <= t < MAX_RES && n > 0 && Walk(g, t, n) == t
    ensures Walk(g, t, k) >= 0
    decreases k
  {
    if k < n {
      WalkEnded(g, t, k, n);
    } else {
      LoopNeverEnds(g, t, n, k - n);
      WalkAdd(g, t, n, k - n);
    }
  }

  /** n different steps of a walk need n different threads. */
  lemma {:induction false} DifferentSteps(g: Graph, t: int, n: nat, threads: set<int>)
    requires Valid(g) && -1 <= t < MAX_RES
    requires forall k :: 0 <= k < n ==> Walk(g, t, k) in threads
    requires forall j, k :: 0 <= j < k < n ==> Walk(g, t, j) != Walk(g, t, k)
    ensures n <= |threads|
  {
    var s := seq(n, k requires 0 <= k < n => Walk(g, t, k));
    Pigeonhole(s, threads);
  }

  lemma {:induction false} StepsBelow(g: Graph, t: int, n: nat, top: nat)
    requires Valid(g) && -1 <= t < MAX_RES
    requires forall k :: 0 <= k < n ==> 0 <= Walk(g, t, k) < top
    requires forall j, k :: 0 <= j < k < n ==> Walk(g, t, j) != Walk(g, t, k)
    ensures n <= top
  {
    DifferentSteps(g, t, n, Below(top));
  }

  /** Visiting all 32 threads leaves nothing new to visit. */
  lemma {:induction false} AllCovered(g: Graph, t: int)
    requires Valid(g) && -1 <= t < MAX_RES && CoversAll(g, t) && Walk(g, t, MAX_RES) >= 0
    ensures exists j :: 0 <= j < MAX_RES && Walk(g, t, j) == Walk(g, t, MAX_RES)
  {
    if forall j :: 0 <= j < MAX_RES ==> Walk(g, t, j) != Walk(g, t, MAX_RES) {
      StepsBelow(g, t, MAX_RES + 1, MAX_RES);
    }
  }

  // What the bounded walk decides.

  /** The detector's walk is right unless its 32 steps are spent on 32 different threads. */
  lemma {:induction false} HasCycleExact(g: Graph, t: int)
    requires Valid(g) && -1 <= t < MAX_RES
    ensures RevisitsBelow(g, t, MAX_RES) <==> Revisits(g, t) && !CoversAll(g, t)
  {
    if Revisits(g, t) && !CoversAll(g, t) {
      var j: nat, k: nat :| j < k && Walk(g, t, j) == Walk(g, t, k) >= 0;
      forall i | 0 <= i < MAX_RES && k >= MAX_RES ensures Walk(g, t, i) >= 0 {
        WalkEnded(g, t, i, k);
      }
    }
  }

  /** One more step would make it right always. */
  lemma {:induction false} OneMoreStepWouldDo(g: Graph, t: int)
    requires Valid(g) && -1 <= t < MAX_RES
    ensures RevisitsBelow(g, t, MAX_RES + 1) <==> Revisits(g, t)
  {
    if Revisits(g, t) {
      HasCycleExact(g, t);
      if CoversAll(g, t) {
        var j: nat, k: nat :| j < k && Walk(g, t, j) == Walk(g, t, k) >= 0;
        assert k >= MAX_RES;
        WalkEnded(g, t, MAX_RES, k);
        AllCovered(g, t);
      }
    }
  }

  /** Threads outside a group hold nothing. */
  ghost predicate Within(g: Graph, threads: set<int>)
    requires Valid(g)
  {
    forall r :: 0 <= r < MAX_RES && g.holder[r] >= 0 ==> g.holder[r] in threads
  }

  lemma {:induction false} WalkWithin(g: Graph, threads: set<int>, t: int, k: nat)
    requires Valid(g) && Within(g, threads) && t in threads && 0 <= t < MAX_RES
    ensures Walk(g, t, k) < 0 || Walk(g, t, k) in threads
  {
    if k > 0 {
      WalkWithin(g, threads, t, k - 1);
    }
  }

  /** With fewer than 32 threads taking part the detector's walk is right. */
  lemma {:induction false} HasCycleRight(g: Graph, threads: set<int>, t: int)
    requires Valid(g) && Within(g, threads) && t in threads && 0 <= t < MAX_RES && |threads| < MAX_RES
    ensures !CoversAll(g, t)
    ensures RevisitsBelow(g, t, MAX_RES) <==> Revisits(g, t)
  {
    if CoversAll(g, t) {
      forall k | 0 <= k < MAX_RES ensures Walk(g, t, k) in threads {
        WalkWithin(g, threads, t, k);
      }
      DifferentSteps(g, t, MAX_RES, threads);
    }
    HasCycleExact(g, t);
  }

  /** Without deadlock, a walk that comes back to a thread is standing on a self-edge. */
  lemma {:induction false} OnlySelfEdges(g: Graph, t: int, j: nat, k: nat)
    requires Valid(g) && DeadlockFree(g) && 0 <= t < MAX_RES
    requires j < k && Walk(g, t, j) == Walk(g, t, k) >= 0
    ensures Next(g, Walk(g, t, j)) == Walk(g, t, j)
  {
    WalkAdd(g, t, j, k - j);
    assert !Deadlocked(g, Walk(g, t, j));
  }

  // Taking a free resource.

  /** The chain of waits that starts at t ends in a waiter for r. */
  ghost predicate ClosesRing(g: Graph, t: int, r: int)
    requires Valid(g) && 0 <= t < MAX_RES && 0 <= r < MAX_RES
  {
    exists k: nat :: k > 0 && Walk(g, t, k) >= 0 && g.waiting[Walk(g, t, k)] == r
  }

  ghost predicate TakesFree(g: Graph, h: Graph, t: int, r: int) {
    && Valid(g) && 0 <= t < MAX_RES && 0 <= r < MAX_RES
    && g.holder[r] == -1 && h == g.(holder := g.holder[r := t])
  }

  lemma {:induction false} WalkKept(g: Graph, h: Graph, t: int, r: int, x: int, k: nat)
    requires TakesFree(g, h, t, r) && 0 <= x < MAX_RES && Walk(g, x, k) >= 0
    ensures Walk(h, x, k) == Walk(g, x, k)
  {
    if k > 0 {
      WalkKept(g, h, t, r, x, k - 1);
    }
  }

  /** A walk that only the new holder makes go on passes a waiter for r. */
  lemma {:induction false} PassesWaiter(g: Graph, h: Graph, t: int, r: int, x: int, k: nat) returns (i: nat)
    requires TakesFree(g, h, t, r) && 0 <= x < MAX_RES && Walk(g, x, k) < 0 <= Walk(h, x, k)
    ensures i < k && Walk(g, x, i) >= 0 && g.waiting[Walk(g, x, i)] == r
    ensures Walk(h, x, i) == Walk(g, x, i) && Walk(h, x, i + 1) == t
  {
    if Walk(g, x, k - 1) < 0 {
      i := PassesWaiter(g, h, t, r, x, k - 1);
    } else {
      i := k - 1;
      WalkKept(g, h, t, r, x, i);
    }
  }

  lemma {:induction false} SelfLoop(g: Graph, t: int, k: nat)
    requires Valid(g) && 0 <= t < MAX_RES && Next(g, t) == t
    ensures Walk(g, t, k) == t
  {
    if k > 0 {
      SelfLoop(g, t, k - 1);
    }
  }

  /** A ring can be entered anywhere. */
  lemma {:induction false} Rotate(g: Graph, x: int, i: nat, k: nat)
    requires Valid(g) && 0 <= x < MAX_RES && i <= k && k > 0 && Walk(g, x, k) == x && Next(g, x) != x
    ensures var y := Walk(g, x, i); y >= 0 && Walk(g, y, k) == y && Next(g, y) != y
  {
    var y := Walk(g, x, i);
    WalkEnded(g, x, i, k);
    WalkAdd(g, x, i, k);
    WalkAdd(g, x, k, i);
    WalkAdd(g, x, i, k - i);
    if Next(g, y) == y {
      SelfLoop(g, y, k - i);
    }
  }

  lemma {:induction false} RingClosed(g: Graph, h: Graph, t: int, r: int)
    requires TakesFree(g, h, t, r) && ClosesRing(g, t, r)
    ensures Deadlocked(h, t)
  {
    var k: nat :| k > 0 && Walk(g, t, k) >= 0 && g.waiting[Walk(g, t, k)] == r;
    WalkKept(g, h, t, r, t, k);
    assert Walk(h, t, k + 1) == t;
    FirstStep(g, t);
    if Next(h, t) == t {
      SelfLoop(h, t, k);
      WalkEnded(g, t, 1, k);
      assert false;
    }
  }

  lemma {:induction false} RingKept(g: Graph, h: Graph, t: int, r: int, x: int, k: nat)
    requires TakesFree(g, h, t, r) && 0 <= x < MAX_RES && k > 0
    requires Walk(h, x, k) == x && Next(h, x) != x && Walk(g, x, k) >= 0
    ensures Deadlocked(g, x)
  {
    FirstStep(g, x);
    WalkKept(g, h, t, r, x, k);
    WalkEnded(g, x, 1, k);
  }

  /** A ring that is new goes through the new holder, behind a waiter for r. */
  lemma {:induction false} NewRing(g: Graph, h: Graph, t: int, r: int, x: int)
    requires TakesFree(g, h, t, r) && DeadlockFree(g) && 0 <= x < MAX_RES && Deadlocked(h, x)
    ensures ClosesRing(g, t, r)
  {
    var k: nat :| k > 0 && Walk(h, x, k) == x;
    FirstStep(g, x);
    if Walk(g, x, k) >= 0 {
      RingKept(g, h, t, r, x, k);
    } else {
      var i := PassesWaiter(g, h, t, r, x, k);
      Rotate(h, x, i + 1, k);
      HolderRing(g, h, t, r, k);
    }
  }

  lemma {:induction false} HolderRing(g: Graph, h: Graph, t: int, r: int, k: nat)
    requires TakesFree(g, h, t, r) && DeadlockFree(g) && k > 0 && Walk(h, t, k) == t && Next(h, t) != t
    ensures ClosesRing(g, t, r)
  {
    FirstStep(g, t);
    if Walk(g, t, k) >= 0 {
      RingKept(g, h, t, r, t, k);
    } else {
      var j := PassesWaiter(g, h, t, r, t, k);
    }
  }

  /** Taking a free resource keeps the graph free of deadlock unless the taker's own chain of waits ends in a waiter
      for that very resource. */
  lemma {:induction false} TakingFreeExact(g: Graph, h: Graph, t: int, r: int)
    requires TakesFree(g, h, t, r) && DeadlockFree(g)
    ensures DeadlockFree(h) <==> !ClosesRing(g, t, r)
  {
    if ClosesRing(g, t, r) {
      RingClosed(g, h, t, r);
    } else if x :| 0 <= x < MAX_RES && Deadlocked(h, x) {
      NewRing(g, h, t, r, x);
    }
  }

  // Waiting for a held resource.

  /** All waits of h are waits of g. */
  ghost predicate FewerLinks(h: Graph, g: Graph) {
    Valid(g) && Valid(h) && forall x :: 0 <= x < MAX_RES ==> Next(h, x) == -1 || Next(h, x) == Next(g, x)
  }

  lemma {:induction false} FewerWalks(h: Graph, g: Graph, x: int, k: nat)
    requires FewerLinks(h, g) && 0 <= x < MAX_RES && Walk(h, x, k) >= 0
    ensures Walk(g, x, k) == Walk(h, x, k)
  {
    if k > 0 {
      FewerWalks(h, g, x, k - 1);
    }
  }

  /** Taking links away cannot make a deadlock. */
  lemma {:induction false} FewerLinksSafe(h: Graph, g: Graph)
    requires FewerLinks(h, g) && DeadlockFree(g)
    ensures DeadlockFree(h)
  {
    forall x | 0 <= x < MAX_RES ensures !Deadlocked(h, x) {
      if Deadlocked(h, x) {
        StillDeadlocked(h, g, x);
      }
    }
  }

  lemma {:induction false} StillDeadlocked(h: Graph, g: Graph, x: int)
    requires FewerLinks(h, g) && 0 <= x < MAX_RES && Deadlocked(h, x)
    ensures Deadlocked(g, x)
  {
    var k: nat :| k > 0 && Walk(h, x, k) == x;
    FewerWalks(h, g, x, k);
    FirstStep(h, x);
    WalkEnded(h, x, 1, k);
  }

  lemma {:induction false} AvoidsWaiter(g: Graph, t: int, r: int, x: int, k: nat)
    requires Valid(g) && 0 <= t < MAX_RES && 0 <= r < MAX_RES && 0 <= x < MAX_RES
    requires forall i: nat :: i < k ==> Walk(Waits(g, t, r), x, i) != t
    ensures Walk(g, x, k) == Walk(Waits(g, t, r), x, k)
  {
    if k > 0 {
      AvoidsWaiter(g, t, r, x, k - 1);
    }
  }

  /** A new deadlock contains the new wait. */
  lemma {:induction false} NewWaitInRing(g: Graph, t: int, r: int, x: int) returns (k: nat)
    requires Valid(g) && DeadlockFree(g) && 0 <= t < MAX_RES && 0 <= r < MAX_RES && 0 <= x < MAX_RES
    requires Deadlocked(Waits(g, t, r), x)
    ensures k > 0 && Walk(Waits(g, t, r), t, k) == t && Next(Waits(g, t, r), t) != t
  {
    var h := Waits(g, t, r);
    k :| k > 0 && Walk(h, x, k) == x;
    if i: nat :| i < k && Walk(h, x, i) == t {
      Rotate(h, x, i, k);
    } else {
      AvoidsWaiter(g, t, r, x, k);
      assert Walk(h, x, 0) == x;
      assert Next(h, x) == Next(g, x);
      assert Deadlocked(g, x);
      assert false;
    }
  }

  /** The wait that closes a ring of all 32 threads, which the detector's walk is one step too short to see. */
  ghost predicate FullRing(g: Graph, t: int)
    requires Valid(g) && 0 <= t < MAX_RES
  {
    CoversAll(g, t) && Walk(g, t, MAX_RES) == t
  }

  /** Asking for a held resource keeps the graph free of deadlock unless it closes a ring of all 32 threads. */
  lemma {:induction false} WaitingExact(g: Graph, t: nat, r: nat)
    requires Valid(g) && DeadlockFree(g) && t < MAX_RES && r < MAX_RES && g.holder[r] != -1
    ensures DeadlockFree(Acquired(g, t, r).0) <==> !FullRing(Waits(g, t, r), t)
  {
    var h := Waits(g, t, r);
    HasCycleExact(h, t);
    if RevisitsBelow(h, t, MAX_RES) {
      assert FewerLinks(g.(waiting := g.waiting[t := -1]), g);
      FewerLinksSafe(g.(waiting := g.waiting[t := -1]), g);
    } else if FullRing(h, t) {
      FirstStep(h, t);
      assert Walk(h, t, 0) != Walk(h, t, 1);
      assert Deadlocked(h, t);
    } else if x :| 0 <= x < MAX_RES && Deadlocked(h, x) {
      var k := NewWaitInRing(g, t, r, x);
      assert Walk(h, t, 0) == Walk(h, t, k) == t;
      assert Revisits(h, t) && CoversAll(h, t);
      LoopNeverEnds(h, t, k, MAX_RES);
      AllCovered(h, t);
      var j :| 0 <= j < MAX_RES && Walk(h, t, j) == Walk(h, t, MAX_RES);
      BackToStart(h, t, k, j);
      assert false;
    }
  }

  /** On a ring that covers every thread only the start can follow the last. */
  lemma {:induction false} BackToStart(h: Graph, t: int, k: nat, j: nat)
    requires Valid(h) && 0 <= t < MAX_RES && CoversAll(h, t) && k > 0 && Walk(h, t, k) == t
    requires j < MAX_RES && Walk(h, t, j) == Walk(h, t, MAX_RES)
    ensures j == 0
  {
    assert Walk(h, t, 0) == t;
    if j > 0 {
      // From step j on the walk stays on the threads of the steps j to 31, none of which is t.
      assert k >= MAX_RES;
      Trapped(h, t, j, k);
      assert false;
    }
  }

  lemma {:induction false} Trapped(h: Graph, t: int, j: nat, k: nat)
    requires Valid(h) && 0 <= t < MAX_RES && CoversAll(h, t)
    requires 0 < j < MAX_RES && Walk(h, t, j) == Walk(h, t, MAX_RES) && k >= MAX_RES
    ensures exists i :: j <= i < MAX_RES && Walk(h, t, k) == Walk(h, t, i)
    decreases k
  {
    if k > MAX_RES {
      Trapped(h, t, j, k - 1);
      var i :| j <= i < MAX_RES && Walk(h, t, k - 1) == Walk(h, t, i);
      assert Walk(h, t, k) == Walk(h, t, i + 1);
    }
  }

  // Refusing a wait.

  /** The wait makes t wait for itself, over a ring that the walk can see. */
  ghost predicate SeesRing(h: Graph, t: int)
    requires Valid(h) && 0 <= t < MAX_RES
  {
    exists k: nat :: 0 < k < MAX_RES && Walk(h, t, k) == t
  }

  /** The walk comes to another thread that is left with a self-edge. */
  ghost predicate SeesSelfEdge(h: Graph, t: int)
    requires Valid(h) && 0 <= t < MAX_RES
  {
    exists k: nat :: k + 1 < MAX_RES && OnSelfEdge(h, t, k)
  }

  ghost predicate OnSelfEdge(h: Graph, t: int, k: nat)
    requires Valid(h) && 0 <= t < MAX_RES
  {
    var u := Walk(h, t, k);
    u >= 0 && u != t && Next(h, u) == u
  }

  /** In a graph free of deadlock a wait is refused if and only if it closes a ring that the walk can see, or leads to
      a self-edge of another thread. */
  lemma {:induction false} RefusalExact(g: Graph, t: nat, r: nat)
    requires Valid(g) && DeadlockFree(g) && t < MAX_RES && r < MAX_RES
    ensures RevisitsBelow(Waits(g, t, r), t, MAX_RES)
      <==> SeesRing(Waits(g, t, r), t) || SeesSelfEdge(Waits(g, t, r), t)
  {
    var h := Waits(g, t, r);
    FirstStep(h, t);
    if j: nat, k: nat :| j < k < MAX_RES && Walk(h, t, j) == Walk(h, t, k) >= 0 {
      RevisitMeans(g, t, r, j, k);
    }
    if k: nat :| k + 1 < MAX_RES && OnSelfEdge(h, t, k) {
      assert Walk(h, t, k + 1) == Walk(h, t, k);
    }
  }

  lemma {:induction false} RevisitMeans(g: Graph, t: nat, r: nat, j: nat, k: nat)
    requires Valid(g) && DeadlockFree(g) && t < MAX_RES && r < MAX_RES && j < k < MAX_RES
    requires Walk(Waits(g, t, r), t, j) == Walk(Waits(g, t, r), t, k) >= 0
    ensures SeesRing(Waits(g, t, r), t) || SeesSelfEdge(Waits(g, t, r), t)
  {
    var h := Waits(g, t, r);
    FirstStep(h, t);
    if !SeesRing(h, t) {
      var u := Walk(h, t, j);
      WalkAdd(h, t, j, k - j);
      forall i: nat | i < k - j ensures Walk(h, u, i) != t {
        WalkAdd(h, t, j, i);
      }
      AvoidsWaiter(g, t, r, u, k - j);
      assert !Deadlocked(g, u);
      assert Walk(h, u, 0) == u;
      assert OnSelfEdge(h, t, j);
    }
  }

  /** Whether the wait would have been safe is decided by its own thread alone. */
  lemma {:induction false} WaitSafeExact(g: Graph, t: nat, r: nat)
    requires Valid(g) && DeadlockFree(g) && t < MAX_RES && r < MAX_RES
    ensures DeadlockFree(Waits(g, t, r)) <==> !Deadlocked(Waits(g, t, r), t)
  {
    if x :| 0 <= x < MAX_RES && Deadlocked(Waits(g, t, r), x) {
      var k := NewWaitInRing(g, t, r, x);
    }
  }

  // Runs.

  /** The numbers that the fixed-size tables admit. */
  type Index = i: int | 0 <= i < MAX_RES

  datatype Op = Acquire(thread: Index, resource: Index) | Release(thread: Index, resource: Index)

  ghost function Apply(g: Graph, op: Op): (h: Graph)
    requires Valid(g)
    ensures Valid(h)
  {
    if op.Acquire? then Acquired(g, op.thread, op.resource).0 else Released(g, op.thread, op.resource)
  }

  /** The graph after the operations. */
  ghost function After(ops: seq<Op>): (g: Graph)
    ensures Valid(g)
  {
    if |ops| == 0 then Empty() else Apply(After(ops[..|ops| - 1]), ops[|ops| - 1])
  }

  /** The two ways in which the detector lets a deadlock form. */
  ghost predicate Overlooked(g: Graph, op: Op)
    requires Valid(g)
  {
    op.Acquire? &&
    if g.holder[op.resource] == -1 then ClosesRing(g, op.thread, op.resource)
    else FullRing(Waits(g, op.thread, op.resource), op.thread)
  }

  lemma {:induction false} StepExact(g: Graph, op: Op)
    requires Valid(g) && DeadlockFree(g)
    ensures DeadlockFree(Apply(g, op)) <==> !Overlooked(g, op)
  {
    match op
    case Acquire(t, r) =>
      if g.holder[r] == -1 {
        TakingFreeExact(g, Apply(g, op), t, r);
      } else {
        WaitingExact(g, t, r);
      }
    case Release(t, r) =>
      assert FewerLinks(Apply(g, op), g);
      FewerLinksSafe(Apply(g, op), g);
  }

  lemma {:induction false} EmptySafe()
    ensures DeadlockFree(Empty())
  {
    forall t | 0 <= t < MAX_RES ensures !Deadlocked(Empty(), t) {
      forall k: nat | k > 0 ensures Walk(Empty(), t, k) != t {
        FirstStep(Empty(), t);
        if Walk(Empty(), t, k) == t {
          WalkEnded(Empty(), t, 1, k);
        }
      }
    }
  }

  /** No deadlock at any moment of the run. */
  ghost predicate AlwaysFree(ops: seq<Op>) {
    forall n :: 0 <= n <= |ops| ==> DeadlockFree(After(ops[..n]))
  }

  ghost predicate NeverOverlooked(ops: seq<Op>) {
    forall n :: 0 <= n < |ops| ==> !Overlooked(After(ops[..n]), ops[n])
  }

  lemma {:induction false} AlwaysFreeSplit(ops: seq<Op>)
    requires |ops| > 0
    ensures AlwaysFree(ops) <==> AlwaysFree(ops[..|ops| - 1]) && DeadlockFree(After(ops))
  {
    var front := ops[..|ops| - 1];
    assert ops[..|ops|] == ops;
    assert forall n :: 0 <= n <= |front| ==> front[..n] == ops[..n];
    if AlwaysFree(front) && DeadlockFree(After(ops)) {
      forall n | 0 <= n <= |ops| ensures DeadlockFree(After(ops[..n])) {
        assert n <= |front| ==> DeadlockFree(After(front[..n]));
      }
    }
  }

  lemma {:induction false} NeverOverlookedSplit(ops: seq<Op>)
    requires |ops| > 0
    ensures NeverOverlooked(ops)
       <==> NeverOverlooked(ops[..|ops| - 1]) && !Overlooked(After(ops[..|ops| - 1]), ops[|ops| - 1])
  {
    var front := ops[..|ops| - 1];
    assert forall n :: 0 <= n < |front| ==> front[..n] == ops[..n];
    if NeverOverlooked(front) && !Overlooked(After(front), ops[|ops| - 1]) {
      forall n | 0 <= n < |ops| ensures !Overlooked(After(ops[..n]), ops[n]) {
        assert n < |front| ==> !Overlooked(After(front[..n]), front[n]);
      }
    }
  }

  /** A whole run is free of deadlock at every moment if and only if none of its steps is overlooked. */
  lemma {:induction false} RunExact(ops: seq<Op>)
    ensures AlwaysFree(ops) <==> NeverOverlooked(ops)
    decreases |ops|
  {
    if |ops| == 0 {
      EmptySafe();
      assert forall n :: 0 <= n <= 0 ==> ops[..n] == [];
    } else {
      var front := ops[..|ops| - 1];
      RunExact(front);
      AlwaysFreeSplit(ops);
      NeverOverlookedSplit(ops);
      if AlwaysFree(front) {
        assert front[..|front|] == front;
        assert DeadlockFree(After(front[..|front|]));
        StepExact(After(front), ops[|ops| - 1]);
      }
    }
  }

  /** A thread with a wait that has not been fulfilled takes no other free resource. */
  ghost predicate Disciplined(g: Graph, op: Op)
    requires Valid(g)
  {
    op.Acquire? && g.holder[op.resource] == -1 ==>
      || g.waiting[op.thread] == -1
      || g.waiting[op.thread] == op.resource
      || g.holder[g.waiting[op.thread]] == op.thread
  }

  lemma {:induction false} DisciplineNoRing(g: Graph, op: Op)
    requires Valid(g) && Disciplined(g, op) && op.Acquire? && g.holder[op.resource] == -1
    ensures !ClosesRing(g, op.thread, op.resource)
  {
    var t := op.thread;
    forall k: nat | k > 0 && Walk(g, t, k) >= 0 ensures g.waiting[Walk(g, t, k)] != op.resource {
      FirstStep(g, t);
      WalkEnded(g, t, 1, k);
      SelfLoop(g, t, k);
    }
  }

  lemma {:induction false} StaysWithin(ops: seq<Op>, threads: set<int>)
    requires forall i :: 0 <= i < |ops| ==> ops[i].thread in threads
    ensures Within(After(ops), threads)
    decreases |ops|
  {
    if |ops| > 0 {
      StaysWithin(ops[..|ops| - 1], threads);
    }
  }

  /** Fewer than 32 threads that keep the discipline never deadlock: at every moment of every run. */
  lemma {:induction false} DisciplinedRunsAreSafe(ops: seq<Op>, threads: set<int>)
    requires |threads| < MAX_RES
    requires forall i :: 0 <= i < |ops| ==> ops[i].thread in threads
    requires forall n :: 0 <= n < |ops| ==> Disciplined(After(ops[..n]), ops[n])
    ensures AlwaysFree(ops)
  {
    forall n | 0 <= n < |ops| ensures !Overlooked(After(ops[..n]), ops[n]) {
      var g, op := After(ops[..n]), ops[n];
      StaysWithin(ops[..n], threads);
      if op.Acquire? {
        if g.holder[op.resource] == -1 {
          DisciplineNoRing(g, op);
        } else {
          assert Within(Waits(g, op.thread, op.resource), threads);
          HasCycleRight(Waits(g, op.thread, op.resource), threads, op.thread);
        }
      }
    }
    RunExact(ops);
  }

  /** A self-edge appears only when a waiter gets the resource it was waiting for. */
  lemma {:induction false} SelfEdgeOrigin(g: Graph, op: Op, t: int)
    requires Valid(g) && 0 <= t < MAX_RES && Next(g, t) != t && Next(Apply(g, op), t) == t
    ensures op.Acquire? && op.thread == t && g.waiting[t] == op.resource && g.holder[op.resource] == -1
  {
    if op.Acquire? && g.holder[op.resource] != -1 {
      WaitingAddsNoLoop(g, op.thread, op.resource, t);
    }
  }

  /** A thread that asks for what it holds itself is refused. */
  lemma {:induction false} WaitingAddsNoLoop(g: Graph, t: Index, r: Index, u: int)
    requires Valid(g) && 0 <= u < MAX_RES && g.holder[r] != -1
    ensures Next(Acquired(g, t, r).0, u) == u ==> Next(g, u) == u
  {
    var h := Waits(g, t, r);
    FirstStep(h, t);
    assert Next(h, t) == t ==> RevisitsBelow(h, t, MAX_RES);
  }

  // Runs that do deadlock.

  lemma {:induction false} ShortWalk(g: Graph, t: int)
    requires Valid(g) && 0 <= t < MAX_RES && (Next(g, t) < 0 || (Next(g, t) != t && Next(g, Next(g, t)) < 0))
    ensures !RevisitsBelow(g, t, MAX_RES)
  {
    FirstStep(g, t);
    if Next(g, t) < 0 {
      NoRevisitPast(g, t, 1);
    } else {
      assert Walk(g, t, 2) == Next(g, Next(g, t));
      NoRevisitPast(g, t, 2);
    }
  }

  lemma {:induction false} AfterOne(ops: seq<Op>, op: Op)
    ensures After(ops + [op]) == Apply(After(ops), op)
  {
    assert (ops + [op])[..|ops|] == ops;
  }

  /** Without the discipline three threads are enough: thread 0 waits for thread 1, which waits for resource 0; when
      that falls free thread 0 takes it. */
  lemma {:induction false} UndisciplinedDeadlock()
    ensures var ops := [Acquire(2, 0), Acquire(1, 1), Acquire(1, 0), Acquire(0, 1), Release(2, 0), Acquire(0, 0)];
      Deadlocked(After(ops), 0)
  {
    var ops := [Acquire(2, 0), Acquire(1, 1), Acquire(1, 0), Acquire(0, 1)];
    BothWait(ops);
    AfterOne(ops, Release(2, 0));
    AfterOne(ops + [Release(2, 0)], Acquire(0, 0));
    assert ops + [Release(2, 0)] + [Acquire(0, 0)]
        == [Acquire(2, 0), Acquire(1, 1), Acquire(1, 0), Acquire(0, 1), Release(2, 0), Acquire(0, 0)];
    TakesWhileWaiting(After(ops));
  }

  lemma {:induction false} TakesWhileWaiting(g: Graph)
    requires Valid(g) && g.holder[0] == 2 && g.holder[1] == 1 && g.waiting[0] == 1 && g.waiting[1] == 0
    ensures Deadlocked(Apply(Apply(g, Release(2, 0)), Acquire(0, 0)), 0)
  {
    var h := Apply(Apply(g, Release(2, 0)), Acquire(0, 0));
    assert Next(h, 0) == 1 && Next(h, 1) == 0;
    FirstStep(h, 0);
    assert Walk(h, 0, 2) == 0;
  }

  lemma {:induction false} BothWait(ops: seq<Op>)
    requires ops == [Acquire(2, 0), Acquire(1, 1), Acquire(1, 0), Acquire(0, 1)]
    ensures var g := After(ops);
      g.holder[0] == 2 && g.holder[1] == 1 && g.waiting[0] == 1 && g.waiting[1] == 0
  {
    AfterOne(ops[..2], ops[2]);
    AfterOne(ops[..3], ops[3]);
    assert ops[..3] == ops[..2] + [ops[2]] && ops == ops[..3] + [ops[3]];
    BothHold(ops[..2]);
    var g := After(ops[..2]);
    ShortWalk(Waits(g, 1, 0), 1);
    ThreeStepWalk(Waits(Waits(g, 1, 0), 0, 1), 0, 1, 2);
  }

  lemma {:induction false} BothHold(ops: seq<Op>)
    requires ops == [Acquire(2, 0), Acquire(1, 1)]
    ensures After(ops) == Empty().(holder := Empty().holder[0 := 2][1 := 1])
  {
    AfterOne([], ops[0]);
    AfterOne([ops[0]], ops[1]);
    assert [] + [ops[0]] == [ops[0]] && ops == [ops[0]] + [ops[1]];
  }

  lemma {:induction false} ThreeStepWalk(g: Graph, t: int, u: int, v: int)
    requires Valid(g) && 0 <= t < MAX_RES && 0 <= u < MAX_RES && 0 <= v < MAX_RES
    requires t != u && u != v && v != t && Next(g, t) == u && Next(g, u) == v && Next(g, v) < 0
    ensures !RevisitsBelow(g, t, MAX_RES)
  {
    FirstStep(g, t);
    assert Walk(g, t, 2) == v;
    assert Walk(g, t, 3) < 0;
    NoRevisitPast(g, t, 3);
  }

  /** A leftover self-edge makes the detector refuse a wait that no deadlock would follow: thread 0 once waited for
      resource 0, holds it now, and thread 2 asks for it. */
  lemma {:induction false} NeedlessRefusal()
    ensures var g := After([Acquire(1, 0), Acquire(0, 0), Release(1, 0), Acquire(0, 0)]);
      RevisitsBelow(Waits(g, 2, 0), 2, MAX_RES) && DeadlockFree(Waits(g, 2, 0))
  {
    var ops := [Acquire(1, 0), Acquire(0, 0), Release(1, 0), Acquire(0, 0)];
    var g := After(ops);
    LeftSelfEdge(ops);
    var h := Waits(g, 2, 0);
    FirstStep(h, 2);
    assert Walk(h, 2, 2) == 0;
    SelfLoop(h, 0, 1);
    forall k: nat | k > 0 ensures Walk(h, 2, k) == 0 {
      WalkAdd(h, 2, 1, k - 1);
      SelfLoop(h, 0, k - 1);
    }
    SingleEdgeSafe(g);
    WaitSafeExact(g, 2, 0);
  }

  /** No thread but 0 waits, and 0 for itself. */
  lemma {:induction false} SingleEdgeSafe(g: Graph)
    requires Valid(g) && Next(g, 0) == 0 && forall t :: 0 < t < MAX_RES ==> Next(g, t) == -1
    ensures DeadlockFree(g)
  {
    forall t | 0 <= t < MAX_RES ensures !Deadlocked(g, t) {
      FirstStep(g, t);
      forall k: nat | t > 0 && k > 0 ensures Walk(g, t, k) < 0 {
        if Walk(g, t, k) >= 0 {
          WalkEnded(g, t, 1, k);
        }
      }
    }
  }

  lemma {:induction false} LeftSelfEdge(ops: seq<Op>)
    requires ops == [Acquire(1, 0), Acquire(0, 0), Release(1, 0), Acquire(0, 0)]
    ensures After(ops) == Graph(Empty().holder[0 := 0], Empty().waiting[0 := 0])
  {
    AfterOne([], ops[0]);
    AfterOne([ops[0]], ops[1]);
    AfterOne([ops[0], ops[1]], ops[2]);
    AfterOne([ops[0], ops[1], ops[2]], ops[3]);
    assert [] + [ops[0]] == [ops[0]] && [ops[0]] + [ops[1]] == [ops[0], ops[1]];
    assert [ops[0], ops[1]] + [ops[2]] == [ops[0], ops[1], ops[2]];
    assert [ops[0], ops[1], ops[2]] + [ops[3]] == ops;
    var g := Graph(Empty().holder[0 := 1], Empty().waiting);
    ShortWalk(Waits(g, 0, 0), 0);
    SelfEdgeFrom(g);
  }

  lemma {:induction false} SelfEdgeFrom(g: Graph)
    requires g == Graph(Empty().holder[0 := 1], Empty().waiting)
    requires !RevisitsBelow(Waits(g, 0, 0), 0, MAX_RES)
    ensures Apply(Apply(Apply(g, Acquire(0, 0)), Release(1, 0)), Acquire(0, 0))
         == Graph(Empty().holder[0 := 0], Empty().waiting[0 := 0])
  {
    assert g.holder[0 := -1] == Empty().holder;
    assert g.waiting[0 := 0][1 := -1] == g.waiting[0 := 0];
  }

  function TakeOwn(n: nat): (ops: seq<Op>)
    requires n <= MAX_RES
    ensures |ops| == n
  {
    seq(n, i requires 0 <= i < n => Acquire(i, i))
  }

  function AskNext(n: nat): (ops: seq<Op>)
    requires n <= MAX_RES
    ensures |ops| == n
  {
    seq(n, i requires 0 <= i < n => Acquire(i, (i + 1) % MAX_RES))
  }

  function Ring(held: nat, asked: nat): (g: Graph)
    requires held <= MAX_RES && asked <= MAX_RES
    ensures Valid(g)
  {
    Graph(seq(MAX_RES, i => if i < held then i else -1),
          seq(MAX_RES, i => if i < asked then (i + 1) % MAX_RES else -1))
  }

  lemma {:induction false} AfterTakeOwn(n: nat)
    requires n <= MAX_RES
    ensures After(TakeOwn(n)) == Ring(n, 0)
  {
    if n == 0 {
      assert Ring(0, 0) == Empty();
    } else {
      AfterTakeOwn(n - 1);
      assert TakeOwn(n) == TakeOwn(n - 1) + [Acquire(n - 1, n - 1)];
      AfterOne(TakeOwn(n - 1), Acquire(n - 1, n - 1));
      assert Ring(n, 0).holder == Ring(n - 1, 0).holder[n - 1 := n - 1];
    }
  }

  lemma {:induction false} RingWalk(k: nat)
    ensures Walk(Ring(MAX_RES, MAX_RES), 31, k) == (31 + k) % MAX_RES
  {
    if k > 0 {
      RingWalk(k - 1);
    }
  }

  lemma {:induction false} AfterAskNext(n: nat)
    requires n <= MAX_RES
    ensures After(TakeOwn(MAX_RES) + AskNext(n)) == Ring(MAX_RES, n)
  {
    if n == 0 {
      AfterTakeOwn(MAX_RES);
      assert TakeOwn(MAX_RES) + AskNext(0) == TakeOwn(MAX_RES);
    } else {
      AfterAskNext(n - 1);
      AskSplit(n);
      AfterOne(TakeOwn(MAX_RES) + AskNext(n - 1), Acquire(n - 1, n % MAX_RES));
      AskOne(n);
    }
  }

  lemma {:induction false} AskSplit(n: nat)
    requires 0 < n <= MAX_RES
    ensures TakeOwn(MAX_RES) + AskNext(n) == TakeOwn(MAX_RES) + AskNext(n - 1) + [Acquire(n - 1, n % MAX_RES)]
  {
  }

  lemma {:induction false} AskOne(n: nat)
    requires 0 < n <= MAX_RES
    ensures Apply(Ring(MAX_RES, n - 1), Acquire(n - 1, n % MAX_RES)) == Ring(MAX_RES, n)
  {
    var g := Ring(MAX_RES, n);
    assert Waits(Ring(MAX_RES, n - 1), n - 1, n % MAX_RES).waiting == g.waiting;
    RingUnseen(n);
  }

  lemma {:induction false} RingUnseen(n: nat)
    requires 0 < n <= MAX_RES
    ensures !RevisitsBelow(Ring(MAX_RES, n), n - 1, MAX_RES)
  {
    if n < MAX_RES {
      ShortWalk(Ring(MAX_RES, n), n - 1);
    } else {
      forall j: nat, k: nat | j < k < MAX_RES
        ensures Walk(Ring(MAX_RES, MAX_RES), 31, j) != Walk(Ring(MAX_RES, MAX_RES), 31, k)
      {
        RingWalk(j);
        RingWalk(k);
      }
    }
  }

  /** A ring of 32 threads, each holding one resource and asking for its neighbour's, deadlocks unseen. */
  lemma {:induction false} FullRingDeadlock()
    ensures Deadlocked(After(TakeOwn(MAX_RES) + AskNext(MAX_RES)), 31)
  {
    AfterAskNext(MAX_RES);
    RingWalk(MAX_RES);
  }
}
