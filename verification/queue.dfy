/**
  The single-producer single-consumer ring queue. Its two operations run as individual loads and stores that may
  interleave in any order, and an index load may return any value the other side has published that is no older than
  the last one seen. Both operations used alone are the bounded FIFO queue, and so is every interleaving.
 */
module RingQueue {
  import opened Wrappers

  // The mask.

  function Pow2(k: nat): (p: nat)
    ensures p >= 1
  {
    if k == 0 then 1 else 2 * Pow2(k - 1)
  }

  /** The bitwise and of two unsigned numbers. */
  function BitAnd(a: nat, b: nat): nat {
    if a == 0 || b == 0 then 0 else (if a % 2 == 1 && b % 2 == 1 then 1 else 0) + 2 * BitAnd(a / 2, b / 2)
  }

  /** For a power of two, masking with n - 1 is the remainder by n. */
  lemma {:induction false} MaskIsMod(x: nat, k: nat, n: nat)
    requires n == Pow2(k)
    ensures BitAnd(x, n - 1) == x % n
    decreases k
  {
    if k == 0 {
      ModOf(x, n, x, 0);
    } else if x == 0 {
      ModOf(x, n, 0, 0);
    } else {
      var p := Pow2(k - 1);
      MaskIsMod(x / 2, k - 1, p);
      MaskStep(x, p, n);
    }
  }

  lemma {:induction false} MaskStep(x: nat, p: nat, n: nat)
    requires x > 0 && p > 0 && n == 2 * p && BitAnd(x / 2, p - 1) == x / 2 % p
    ensures BitAnd(x, n - 1) == x % n
  {
    assert (n - 1) / 2 == p - 1 && (n - 1) % 2 == 1;
    assert BitAnd(x, n - 1) == x % 2 + 2 * BitAnd(x / 2, p - 1);
    HalveMod(x, p, n);
  }

  lemma {:induction false} HalveMod(x: nat, p: nat, n: nat)
    requires p > 0 && n == 2 * p
    ensures x % n == x % 2 + 2 * (x / 2 % p)
  {
    var q, r := x / 2 / p, x / 2 % p;
    assert x / 2 == p * q + r;
    assert n * q == 2 * (p * q);
    ModOf(x, n, q, x % 2 + 2 * r);
  }

  ghost predicate IsPowerOfTwo(n: nat) {
    exists k: nat :: n == Pow2(k)
  }

  /** The static assertion accepts exactly the powers of two, among positive sizes. */
  lemma {:induction false} StaticAssert(n: nat)
    requires n > 0
    ensures BitAnd(n, n - 1) == 0 <==> IsPowerOfTwo(n)
  {
    if IsPowerOfTwo(n) {
      MaskOf(n, n);
    } else {
      OnlyPowersPass(n);
    }
  }

  lemma {:induction false} OnlyPowersPass(n: nat)
    requires n > 0 && !IsPowerOfTwo(n)
    ensures BitAnd(n, n - 1) != 0
  {
    assert Pow2(0) == 1;
    if n % 2 == 1 {
      BitAndSelf(n / 2);
      assert BitAnd(n, n - 1) == 2 * BitAnd(n / 2, n / 2);
    } else {
      assert (n - 1) / 2 == n / 2 - 1;
      assert BitAnd(n, n - 1) == 2 * BitAnd(n / 2, n / 2 - 1);
      forall k: nat ensures n / 2 != Pow2(k) {
        assert n != Pow2(k + 1);
      }
      OnlyPowersPass(n / 2);
    }
  }

  lemma {:induction false} BitAndSelf(n: nat)
    ensures BitAnd(n, n) == n
  {
    if n > 0 {
      BitAndSelf(n / 2);
    }
  }

  lemma {:induction false} MaskOf(x: nat, n: nat)
    requires IsPowerOfTwo(n)
    ensures n > 0 && BitAnd(x, n - 1) == x % n
  {
    var k: nat :| n == Pow2(k);
    MaskIsMod(x, k, n);
  }

  // The queue used by one thread.

  class WaitFreeQueue<T> {
    const size: nat
    var head: nat
    var tail: nat
    var buffer: array<T>

    constructor (n: nat, zero: T)
      requires IsPowerOfTwo(n)
      ensures Valid() && Contents() == [] && size == n && fresh(buffer)
    {
      size := n;
      head, tail := 0, 0;
      buffer := new T[n](_ => zero);
    }

    ghost predicate Valid()
      reads this
    {
      IsPowerOfTwo(size) && buffer.Length == size && head < size && tail < size
    }

    /** The items from head up to tail, around the end of the buffer. */
    ghost function Contents(): seq<T>
      reads this, buffer
      requires Valid()
    {
      if head <= tail then buffer[head..tail] else buffer[head..] + buffer[..tail]
    }

    method Push(val: T) returns (ok: bool)
      requires Valid()
      modifies this`tail, buffer
      ensures Valid() && buffer == old(buffer)
      ensures ok == (|old(Contents())| < size - 1)
      ensures Contents() == if ok then old(Contents()) + [val] else old(Contents())
    {
      var t := tail;
      MaskOf(t + 1, size);
      var next := BitAnd(t + 1, size - 1);
      WrapIncrement(t, size);
      if next == head {
        return false;
      }
      buffer[t] := val;
      tail := next;
      return true;
    }

    method Pop() returns (result: Option<T>)
      requires Valid()
      modifies this`head
      ensures Valid()
      ensures result == if |old(Contents())| == 0 then None else Some(old(Contents())[0])
      ensures Contents() == if result.Some? then old(Contents())[1..] else old(Contents())
    {
      var h := head;
      if h == tail {
        return None;
      }
      var out := buffer[h];
      MaskOf(h + 1, size);
      WrapIncrement(h, size);
      head := BitAnd(h + 1, size - 1);
      return Some(out);
    }

    method Empty() returns (r: bool)
      requires Valid()
      ensures r == (|Contents()| == 0)
    {
      r := head == tail;
    }
  }

  lemma {:induction false} WrapIncrement(i: nat, n: nat)
    requires i < n
    ensures (i + 1) % n == if i + 1 == n then 0 else i + 1
  {
  }

  // The two sides as interleaved steps.

  /** Where the producer is: before its tail load, head load, slot write, and tail store. */
  datatype Producer<T> =
    | Idle
    | Checking(val: T, t: nat)
    | Writing(val: T, t: nat, next: nat)
    | Publishing(val: T, next: nat)

  datatype Consumer<T> =
    | Waiting
    | Comparing(h: nat)
    | Reading(h: nat)
    | Releasing(h: nat, out: T)

  /**
    The shared memory with every value each index has held, oldest first, the two sides' local state, the position
    of the newest value each has seen of the other's index, and what push and pop have completed with.
   */
  datatype State<T> = State(
    heads: seq<nat>,
    tails: seq<nat>,
    buffer: seq<T>,
    producer: Producer<T>,
    consumer: Consumer<T>,
    seenHead: nat,
    seenTail: nat,
    pushed: seq<T>,
    popped: seq<T>)

  /** One load or store. A load of the other side's index says which published value it returns. */
  datatype Action<T> =
    | LoadTail(val: T)
    | LoadHead(index: nat)
    | WriteSlot
    | StoreTail
    | LoadOwnHead
    | LoadOtherTail(index: nat)
    | ReadSlot
    | StoreHead

  function Start<T>(n: nat, zero: T): State<T> {
    State([0], [0], seq(n, _ => zero), Idle, Waiting, 0, 0, [], [])
  }

  function Last(s: seq<nat>): nat
    requires |s| > 0
  {
    s[|s| - 1]
  }

  /** The state after one load or store; None when it is not that side's next one. */
  function Step<T>(s: State<T>, a: Action<T>): Option<State<T>> {
    var n := |s.buffer|;
    match a
    case LoadTail(val) =>
      if s.producer.Idle? && |s.tails| > 0 then Some(s.(producer := Checking(val, Last(s.tails)))) else None
    case LoadHead(index) =>
      if s.producer.Checking? && s.seenHead <= index < |s.heads| && n > 0 then
        var next := BitAnd(s.producer.t + 1, n - 1);
        Some(s.(seenHead := index,
                producer := if next == s.heads[index] then Idle else Writing(s.producer.val, s.producer.t, next)))
      else None
    case WriteSlot =>
      if s.producer.Writing? && s.producer.t < n then
        Some(s.(buffer := s.buffer[s.producer.t := s.producer.val],
                producer := Publishing(s.producer.val, s.producer.next)))
      else None
    case StoreTail =>
      if s.producer.Publishing? then
        Some(s.(tails := s.tails + [s.producer.next], pushed := s.pushed + [s.producer.val], producer := Idle))
      else None
    case LoadOwnHead =>
      if s.consumer.Waiting? && |s.heads| > 0 then Some(s.(consumer := Comparing(Last(s.heads)))) else None
    case LoadOtherTail(index) =>
      if s.consumer.Comparing? && s.seenTail <= index < |s.tails| then
        Some(s.(seenTail := index,
                consumer := if s.consumer.h == s.tails[index] then Waiting else Reading(s.consumer.h)))
      else None
    case ReadSlot =>
      if s.consumer.Reading? && s.consumer.h < n then
        Some(s.(consumer := Releasing(s.consumer.h, s.buffer[s.consumer.h]))) else None
    case StoreHead =>
      if s.consumer.Releasing? && n > 0 then
        Some(s.(heads := s.heads + [BitAnd(s.consumer.h + 1, n - 1)],
                popped := s.popped + [s.consumer.out],
                consumer := Waiting))
      else None
  }

  /** The state after a whole interleaving. */
  function Run<T>(s: State<T>, actions: seq<Action<T>>): Option<State<T>>
    decreases |actions|
  {
    if |actions| == 0 then Some(s)
    else
      match Step(s, actions[0])
      case None => None
      case Some(t) => Run(t, actions[1..])
  }

  // What every interleaving keeps.

  /** The indices count stores modulo n, and the buffer holds the outstanding items. */
  ghost predicate Shared<T>(s: State<T>) {
    var n := |s.buffer|;
    && IsPowerOfTwo(n) && n > 0
    && |s.heads| == |s.popped| + 1 && (forall c :: 0 <= c < |s.heads| ==> s.heads[c] == c % n)
    && |s.tails| == |s.pushed| + 1 && (forall c :: 0 <= c < |s.tails| ==> s.tails[c] == c % n)
    && |s.popped| <= |s.pushed| && s.popped == s.pushed[..|s.popped|]
    && (forall k :: |s.popped| <= k < |s.pushed| ==> s.buffer[k % n] == s.pushed[k])
    // What each side has seen is behind the truth, on the safe side.
    && s.seenHead <= |s.popped| <= s.seenTail <= |s.pushed| <= s.seenHead + n - 1
  }

  ghost predicate ProducerOk<T>(s: State<T>)
    requires Shared(s)
  {
    var n, tail := |s.buffer|, |s.pushed|;
    match s.producer
    case Idle => true
    case Checking(_, t) => t == tail % n
    case Writing(_, t, next) => t == tail % n && next == (tail + 1) % n && tail + 1 <= s.seenHead + n - 1
    case Publishing(val, next) =>
      next == (tail + 1) % n && tail + 1 <= s.seenHead + n - 1 && s.buffer[tail % n] == val
  }

  ghost predicate ConsumerOk<T>(s: State<T>)
    requires Shared(s)
  {
    var n, head := |s.buffer|, |s.popped|;
    match s.consumer
    case Waiting => true
    case Comparing(h) => h == head % n
    case Reading(h) => h == head % n && head < s.seenTail
    case Releasing(h, out) => h == head % n && head < s.seenTail && out == s.pushed[head]
  }

  ghost predicate Inv<T>(s: State<T>) {
    Shared(s) && ProducerOk(s) && ConsumerOk(s)
  }

  /** Two counts at most n - 1 apart fall on the same index only when equal. */
  lemma {:induction false} SameIndex(a: nat, b: nat, n: nat)
    requires a <= b < a + n
    ensures a % n == b % n <==> a == b
  {
    var q, p := a / n, b / n;
    var d := p - q;
    assert n * p - n * q == n * d;
    assert n * d == b - a - (b % n - a % n);
    assert d >= 1 ==> n * d >= n;
    assert d <= -1 ==> n * d + n <= 0;
  }

  /** The full test: a tail at most n behind its next value reaches a head's index only n stores after it. */
  lemma {:induction false} FullTest(head: nat, tail: nat, n: nat)
    requires head <= tail < head + n
    ensures (tail + 1) % n == head % n <==> tail + 1 == head + n
  {
    if tail + 1 < head + n {
      SameIndex(head, tail + 1, n);
    } else {
      var q := head / n;
      assert n * (q + 1) == n * q + n;
      ModOf(tail + 1, n, q + 1, head % n);
    }
  }

  lemma {:induction false} StartOk<T>(n: nat, zero: T)
    requires IsPowerOfTwo(n)
    ensures Inv(Start(n, zero))
  {
    MaskOf(0, n);
  }

  lemma {:induction false} StepKeepsInv<T>(s: State<T>, a: Action<T>)
    requires Inv(s) && Step(s, a).Some?
    ensures Inv(Step(s, a).value)
  {
    match a
    case LoadTail(_) =>
    case LoadHead(index) => LoadHeadOk(s, index);
    case WriteSlot => WriteSlotOk(s);
    case StoreTail => StoreTailOk(s);
    case LoadOwnHead =>
    case LoadOtherTail(index) => LoadOtherTailOk(s, index);
    case ReadSlot =>
    case StoreHead => StoreHeadOk(s);
  }

  lemma {:induction false} NextIndex(i: nat, n: nat)
    requires IsPowerOfTwo(n)
    ensures n > 0 && BitAnd(i % n + 1, n - 1) == (i + 1) % n
  {
    MaskOf(i % n + 1, n);
    WrapIncrement(i % n, n);
    ModSucc(i, n);
  }

  lemma {:induction false} ModSucc(i: nat, n: nat)
    requires n > 0
    ensures (i + 1) % n == if i % n + 1 == n then 0 else i % n + 1
  {
    var q := i / n;
    assert n * (q + 1) == n * q + n;
    if i % n + 1 == n {
      ModOf(i + 1, n, q + 1, 0);
    } else {
      ModOf(i + 1, n, q, i % n + 1);
    }
  }

  lemma {:induction false} ModOf(x: nat, n: nat, q: nat, r: nat)
    requires n > 0 && x == n * q + r && r < n
    ensures x % n == r
  {
    var d := x / n - q;
    assert n * d == r - x % n;
    assert d >= 1 ==> n * d >= n;
    assert d <= -1 ==> n * d + n <= 0;
  }

  lemma {:induction false} LoadHeadOk<T>(s: State<T>, index: nat)
    requires Inv(s) && Step(s, LoadHead(index)).Some?
    ensures Inv(Step(s, LoadHead(index)).value)
    ensures Step(s, LoadHead(index)).value.producer.Idle? <==> |s.pushed| == index + |s.buffer| - 1
  {
    var n, tail := |s.buffer|, |s.pushed|;
    NextIndex(tail, n);
    FullTest(index, tail, n);
  }

  lemma {:induction false} WriteSlotOk<T>(s: State<T>)
    requires Inv(s) && Step(s, WriteSlot).Some?
    ensures Inv(Step(s, WriteSlot).value)
  {
    var n, tail := |s.buffer|, |s.pushed|;
    var t := Step(s, WriteSlot).value;
    forall k | |s.popped| <= k < tail ensures t.buffer[k % n] == s.pushed[k] {
      SameIndex(k, tail, n);
    }
  }

  lemma {:induction false} StoreTailOk<T>(s: State<T>)
    requires Inv(s) && Step(s, StoreTail).Some?
    ensures Inv(Step(s, StoreTail).value)
  {
    var t := Step(s, StoreTail).value;
    assert t.pushed[..|s.popped|] == s.pushed[..|s.popped|];
  }

  lemma {:induction false} LoadOtherTailOk<T>(s: State<T>, index: nat)
    requires Inv(s) && Step(s, LoadOtherTail(index)).Some?
    ensures Inv(Step(s, LoadOtherTail(index)).value)
    ensures Step(s, LoadOtherTail(index)).value.consumer.Waiting? <==> |s.popped| == index
  {
    SameIndex(|s.popped|, index, |s.buffer|);
  }

  lemma {:induction false} StoreHeadOk<T>(s: State<T>)
    requires Inv(s) && Step(s, StoreHead).Some?
    ensures Inv(Step(s, StoreHead).value)
  {
    NextIndex(|s.popped|, |s.buffer|);
    var head := |s.popped|;
    assert s.pushed[..head + 1] == s.pushed[..head] + [s.pushed[head]];
  }

  lemma {:induction false} RunKeepsInv<T>(s: State<T>, actions: seq<Action<T>>)
    requires Inv(s) && Run(s, actions).Some?
    ensures Inv(Run(s, actions).value) && |Run(s, actions).value.buffer| == |s.buffer|
    decreases |actions|
  {
    if |actions| > 0 {
      StepKeepsInv(s, actions[0]);
      RunKeepsInv(Step(s, actions[0]).value, actions[1..]);
    }
  }

  /**
    Every interleaving, with every choice of stale loads: what was popped is what was pushed, in order, without loss
    or repetition; at most n - 1 items are outstanding; and the slot being written is never one that is being read
    or that holds an outstanding item.
   */
  lemma {:induction false} EveryInterleavingIsSafe<T>(n: nat, zero: T, actions: seq<Action<T>>)
    requires IsPowerOfTwo(n) && Run(Start(n, zero), actions).Some?
    ensures var s := Run(Start(n, zero), actions).value;
            && s.popped <= s.pushed
            && |s.pushed| - |s.popped| <= n - 1
            && (s.producer.Writing? && s.consumer.Reading? ==> s.producer.t != s.consumer.h)
            && (s.producer.Writing? ==> forall k :: |s.popped| <= k < |s.pushed| ==> k % n != s.producer.t)
  {
    StartOk(n, zero);
    RunKeepsInv(Start(n, zero), actions);
    var s := Run(Start(n, zero), actions).value;
    if s.producer.Writing? {
      forall k | |s.popped| <= k < |s.pushed| ensures k % n != s.producer.t {
        SameIndex(k, |s.pushed|, n);
      }
    }
  }

  // Refinement of the bounded FIFO queue.

  /** The items that are pushed and not yet popped. */
  function Items<T>(s: State<T>): seq<T>
    requires |s.popped| <= |s.pushed|
  {
    s.pushed[|s.popped|..]
  }

  /**
    Each load or store is a step of the bounded FIFO queue: a tail store appends its value to a queue with room, a
    head store removes and delivers the first item, and nothing else changes the queue.
   */
  lemma {:induction false} StepRefinesFifo<T>(s: State<T>, a: Action<T>)
    requires Inv(s) && Step(s, a).Some?
    ensures var t := Step(s, a).value;
            && |t.popped| <= |t.pushed|
            && match a
               case StoreTail =>
                 && |Items(s)| < |s.buffer| - 1 && s.producer.Publishing?
                 && Items(t) == Items(s) + [s.producer.val] && t.popped == s.popped
               case StoreHead =>
                 && |Items(s)| > 0 && Items(t) == Items(s)[1..]
                 && t.popped == s.popped + [Items(s)[0]] && t.pushed == s.pushed
               case _ => Items(t) == Items(s) && t.popped == s.popped && t.pushed == s.pushed
  {
    StepKeepsInv(s, a);
  }

  /**
    A push that gives up saw the queue full: at the head it loaded, n - 1 items were outstanding. A pop that gives up
    saw it empty.
   */
  lemma {:induction false} GivingUpIsRight<T>(s: State<T>, index: nat)
    requires Inv(s)
    ensures Step(s, LoadHead(index)).Some? ==>
              (Step(s, LoadHead(index)).value.producer.Idle? <==> |s.pushed| - index == |s.buffer| - 1)
    ensures Step(s, LoadOtherTail(index)).Some? ==>
              (Step(s, LoadOtherTail(index)).value.consumer.Waiting? <==> index - |s.popped| == 0)
  {
    if Step(s, LoadHead(index)).Some? {
      LoadHeadOk(s, index);
    }
    if Step(s, LoadOtherTail(index)).Some? {
      LoadOtherTailOk(s, index);
    }
  }

  // Wait-freedom.

  predicate OfProducer<T>(a: Action<T>) {
    a.LoadTail? || a.LoadHead? || a.WriteSlot? || a.StoreTail?
  }

  /** How many of its own steps a side's operation still takes at most. */
  function ProducerSteps<T>(p: Producer<T>): nat {
    match p
    case Idle => 0
    case Checking(_, _) => 3
    case Writing(_, _, _) => 2
    case Publishing(_, _) => 1
  }

  function ConsumerSteps<T>(c: Consumer<T>): nat {
    match c
    case Waiting => 0
    case Comparing(_) => 3
    case Reading(_) => 2
    case Releasing(_, _) => 1
  }

  /**
    Neither side ever waits for the other: a started operation always has a next step, that step brings it nearer to
    its end, and no step of the other side sets it back.
   */
  lemma {:induction false} WaitFree<T>(s: State<T>)
    requires Inv(s)
    ensures ProducerSteps(s.producer) > 0 ==> exists a :: OfProducer(a) && Step(s, a).Some?
    ensures ConsumerSteps(s.consumer) > 0 ==> exists a :: !OfProducer(a) && Step(s, a).Some?
    ensures forall a :: Step(s, a).Some? ==>
              var t := Step(s, a).value;
              if OfProducer(a) then
                && ConsumerSteps(t.consumer) == ConsumerSteps(s.consumer)
                && (ProducerSteps(s.producer) > 0 ==> ProducerSteps(t.producer) < ProducerSteps(s.producer))
              else
                && ProducerSteps(t.producer) == ProducerSteps(s.producer)
                && (ConsumerSteps(s.consumer) > 0 ==> ConsumerSteps(t.consumer) < ConsumerSteps(s.consumer))
  {
    var p: Action<T> := match s.producer
      case Checking(_, _) => LoadHead(s.seenHead)
      case Writing(_, _, _) => WriteSlot
      case _ => StoreTail;
    assert ProducerSteps(s.producer) > 0 ==> OfProducer(p) && Step(s, p).Some?;
    var c: Action<T> := match s.consumer
      case Comparing(_) => LoadOtherTail(s.seenTail)
      case Reading(_) => ReadSlot
      case _ => StoreHead;
    assert ConsumerSteps(s.consumer) > 0 ==> !OfProducer(c) && Step(s, c).Some?;
  }

  // The steps of one operation in a row are the method.

  /** A push whose four steps run undisturbed, on the newest head, succeeds exactly when there is room. */
  lemma {:induction false} UndisturbedPush<T>(s: State<T>, val: T)
    requires Inv(s) && s.producer.Idle?
    ensures var newest := |s.heads| - 1;
            var r := if |Items(s)| < |s.buffer| - 1 then Run(s, [LoadTail(val), LoadHead(newest), WriteSlot, StoreTail])
                     else Run(s, [LoadTail(val), LoadHead(newest)]);
            && r.Some? && r.value.producer.Idle? && |r.value.popped| <= |r.value.pushed|
            && Items(r.value) == if |Items(s)| < |s.buffer| - 1 then Items(s) + [val] else Items(s)
  {
    var newest := |s.heads| - 1;
    var s1 := Step(s, LoadTail(val)).value;
    StepKeepsInv(s, LoadTail(val));
    assert Step(s1, LoadHead(newest)).Some?;
    LoadHeadOk(s1, newest);
    var s2 := Step(s1, LoadHead(newest)).value;
    StepRefinesFifo(s1, LoadHead(newest));
    if |Items(s)| < |s.buffer| - 1 {
      WriteSlotOk(s2);
      var s3 := Step(s2, WriteSlot).value;
      StepRefinesFifo(s3, StoreTail);
      var s4 := Step(s3, StoreTail).value;
      RunFour(s, LoadTail(val), s1, LoadHead(newest), s2, WriteSlot, s3, StoreTail, s4);
    } else {
      RunTwo(s, LoadTail(val), s1, LoadHead(newest), s2);
    }
  }

  /** A pop whose four steps run undisturbed, on the newest tail, delivers the first item exactly when there is one. */
  lemma {:induction false} UndisturbedPop<T>(s: State<T>)
    requires Inv(s) && s.consumer.Waiting?
    ensures var newest := |s.tails| - 1;
            var r := if |Items(s)| > 0 then Run(s, [LoadOwnHead, LoadOtherTail(newest), ReadSlot, StoreHead])
                     else Run(s, [LoadOwnHead, LoadOtherTail(newest)]);
            && r.Some? && r.value.consumer.Waiting? && |r.value.popped| <= |r.value.pushed|
            && Items(r.value) == (if |Items(s)| > 0 then Items(s)[1..] else [])
            && r.value.popped == s.popped + (if |Items(s)| > 0 then [Items(s)[0]] else [])
  {
    var newest := |s.tails| - 1;
    var s1 := Step(s, LoadOwnHead).value;
    StepKeepsInv(s, LoadOwnHead);
    assert Step(s1, LoadOtherTail(newest)).Some?;
    LoadOtherTailOk(s1, newest);
    var s2 := Step(s1, LoadOtherTail(newest)).value;
    if |Items(s)| > 0 {
      StepKeepsInv(s2, ReadSlot);
      var s3 := Step(s2, ReadSlot).value;
      StepRefinesFifo(s3, StoreHead);
      var s4 := Step(s3, StoreHead).value;
      RunFour(s, LoadOwnHead, s1, LoadOtherTail(newest), s2, ReadSlot, s3, StoreHead, s4);
    } else {
      RunTwo(s, LoadOwnHead, s1, LoadOtherTail(newest), s2);
    }
  }

  lemma {:induction false} RunTwo<T>(s: State<T>, a: Action<T>, s1: State<T>, b: Action<T>, s2: State<T>)
    requires Step(s, a) == Some(s1) && Step(s1, b) == Some(s2)
    ensures Run(s, [a, b]) == Some(s2)
  {
    assert [a, b][1..] == [b] && [b][1..] == [];
    assert Run(s1, [b]) == Run(s2, []);
  }

  lemma {:induction false} RunFour<T>(s: State<T>, a: Action<T>, s1: State<T>, b: Action<T>, s2: State<T>,
                                      c: Action<T>, s3: State<T>, d: Action<T>, s4: State<T>)
    requires Step(s, a) == Some(s1) && Step(s1, b) == Some(s2) && Step(s2, c) == Some(s3) && Step(s3, d) == Some(s4)
    ensures Run(s, [a, b, c, d]) == Some(s4)
  {
    assert [a, b, c, d][1..] == [b, c, d] && [b, c, d][1..] == [c, d];
    RunTwo(s2, c, s3, d, s4);
  }
}
