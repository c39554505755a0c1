/**
  The size minimizer: strip zero bytes, fold constant arithmetic, run-length encode. The first two work on bytes and
  not on decoded instructions; here is exactly when that makes no difference, and that the whole pipeline then keeps
  the meaning of a straight-line program.
 */
module Folding {
  import opened Bytes
  import Rle

  const NOP: byte := 0x00
  const LOAD: byte := 0x03
  const STORE: byte := 0x04
  const ADD: byte := 0x05
  const SUB: byte := 0x06
  const XOR: byte := 0x09
  const OR: byte := 0x0A
  const AND: byte := 0x0B

  const SIZE_MAX: nat := TWO64 - 1

  predicate Foldable(b: byte) {
    b == ADD || b == SUB || b == XOR
  }

  // The passes.

  /** The value of a constant expression, before it is cut down to a byte. */
  function FoldExpr(op: byte, lhs: byte, rhs: byte): int {
    if op == ADD then lhs + rhs
    else if op == SUB then lhs - rhs
    else if op == XOR then ((lhs as bv8) ^ (rhs as bv8)) as int
    else if op == AND then ((lhs as bv8) & (rhs as bv8)) as int
    else if op == OR then ((lhs as bv8) | (rhs as bv8)) as int
    else lhs
  }

  function LowByte(v: int): byte {
    v % 0x100
  }

  function Stripped(code: seq<byte>): (out: seq<byte>) {
    if |code| == 0 then [] else (if code[0] == NOP then [] else [code[0]]) + Stripped(code[1..])
  }

  function Folded(code: seq<byte>): (out: seq<byte>) {
    if |code| == 0 then []
    else if |code| > 3 && Foldable(code[0]) then
      [LOAD, LowByte(FoldExpr(code[0], code[1], code[2]))] + Folded(code[3..])
    else [code[0]] + Folded(code[1..])
  }

  method StripNops(bytecode: seq<byte>) returns (out: seq<byte>)
    ensures out == Stripped(bytecode)
  {
    out := [];
    for i := 0 to |bytecode|
      invariant out + Stripped(bytecode[i..]) == Stripped(bytecode)
    {
      if bytecode[i] != NOP {
        out := out + [bytecode[i]];
      }
      assert bytecode[i..][1..] == bytecode[i + 1..];
    }
  }

  /** out is what the first i bytes contribute. */
  ghost predicate FoldedTo(input: seq<byte>, i: nat, out: seq<byte>) {
    i <= |input| && out + Folded(input[i..]) == Folded(input)
  }

  lemma {:induction false} FoldOne(input: seq<byte>, i: nat, out: seq<byte>)
    requires i < |input| && FoldedTo(input, i, out)
    ensures if i + 3 < |input| && Foldable(input[i])
      then FoldedTo(input, i + 3, out + [LOAD] + [LowByte(FoldExpr(input[i], input[i + 1], input[i + 2]))])
      else FoldedTo(input, i + 1, out + [input[i]])
  {
    var s := input[i..];
    if i + 3 < |input| && Foldable(input[i]) {
      assert s[3..] == input[i + 3..];
      var triple := [LOAD, LowByte(FoldExpr(input[i], input[i + 1], input[i + 2]))];
      assert Folded(s) == triple + Folded(input[i + 3..]);
      ConcatAssoc(out, triple, Folded(input[i + 3..]));
      assert out + triple == out + [LOAD] + [LowByte(FoldExpr(input[i], input[i + 1], input[i + 2]))];
    } else {
      assert s[1..] == input[i + 1..];
      ConcatAssoc(out, [input[i]], Folded(input[i + 1..]));
    }
  }

  method FoldBytecode(input: seq<byte>) returns (out: seq<byte>)
    ensures out == Folded(input)
  {
    out := [];
    var i := 0;
    assert input[0..] == input;
    while i < |input|
      invariant FoldedTo(input, i, out)
    {
      FoldOne(input, i, out);
      if i + 3 < |input| && (input[i] == ADD || input[i] == SUB || input[i] == XOR) {
        var result := FoldExpr(input[i], input[i + 1], input[i + 2]);
        out := out + [LOAD];
        out := out + [LowByte(result)];
        i := i + 3;
      } else {
        out := out + [input[i]];
        i := i + 1;
      }
    }
  }

  function Minimized(code: seq<byte>): (out: seq<byte>) {
    Rle.Compress(Folded(Stripped(code)))
  }

  /** The smallest size among the results of a history of calls. */
  function Best(history: seq<seq<byte>>): nat {
    if |history| == 0 then SIZE_MAX
    else
      var before, last := Best(history[..|history| - 1]), |Minimized(history[|history| - 1])|;
      if last < before then last else before
  }

  class SizeMinimizer {
    var baseline: nat
    /** What has been minimized so far. */
    ghost var history: seq<seq<byte>>

    ghost predicate Valid()
      reads this
    {
      baseline == Best(history)
    }

    constructor ()
      ensures Valid() && history == []
    {
      baseline := SIZE_MAX;
      history := [];
    }

    /** Reports, next to the result, whether the size went below everything seen before. */
    method Minimize(code: seq<byte>) returns (compressed: seq<byte>, shrank: bool)
      requires Valid()
      modifies this
      ensures Valid() && history == old(history) + [code]
      ensures compressed == Minimized(code)
      ensures shrank <==> |compressed| < old(baseline)
      ensures shrank <==> 2 * Rle.Runs(Folded(Stripped(code))) < Best(old(history))
      ensures code in old(history) ==> !shrank
    {
      Rle.LengthExact(Folded(Stripped(code)));
      if code in history {
        SeenBefore(history, code);
      }
      var stripped := StripNops(code);
      var folded := FoldBytecode(stripped);
      compressed := Rle.RleCompress(folded);
      shrank := |compressed| < baseline;
      if shrank {
        baseline := |compressed|;
      }
      history := history + [code];
      assert history[..|history| - 1] == old(history);
    }
  }

  /** The baseline is the minimum: below or equal to every size, and one of them once a result fits the type. */
  lemma {:induction false} BestIsMinimum(history: seq<seq<byte>>)
    ensures forall i :: 0 <= i < |history| ==> Best(history) <= |Minimized(history[i])|
    ensures || Best(history) == 0xFFFF_FFFF_FFFF_FFFF
            || exists i :: 0 <= i < |history| && Best(history) == |Minimized(history[i])|
    decreases |history|
  {
    if |history| > 0 {
      var front := history[..|history| - 1];
      BestIsMinimum(front);
      forall i | 0 <= i < |history| ensures Best(history) <= |Minimized(history[i])| {
        assert i < |front| ==> front[i] == history[i];
      }
      if Best(history) != SIZE_MAX && Best(history) == Best(front) {
        var i :| 0 <= i < |front| && Best(front) == |Minimized(front[i])|;
        assert front[i] == history[i];
      }
    }
  }

  /** What has been minimized before cannot become smaller again. */
  lemma {:induction false} SeenBefore(history: seq<seq<byte>>, code: seq<byte>)
    requires code in history
    ensures |Minimized(code)| >= Best(history)
  {
    BestIsMinimum(history);
    var i :| 0 <= i < |history| && history[i] == code;
  }

  /** The result is smaller than the code exactly when the bytes that are left form fewer than half as many runs. */
  lemma {:induction false} SmallerExact(code: seq<byte>)
    ensures |Minimized(code)| < |code| <==> 2 * Rle.Runs(Folded(Stripped(code))) < |code|
  {
    Rle.LengthExact(Folded(Stripped(code)));
  }

  /** A byte that is not a NOP doubles. */
  lemma {:induction false} SingleByteGrows(b: byte)
    requires b != NOP
    ensures Minimized([b]) == [1, b]
  {
    assert [b][1..] == [];
    assert Stripped([b]) == [b] + [];
    assert Folded([b]) == [b] + [];
    Rle.FirstRunIs([b], 1);
    assert Rle.Compress([b]) == [1, b] + Rle.Compress([b][1..]);
  }

  // Programs.

  datatype Instr =
    | Nop
    | Load(value: byte)
    | Store(address: byte)
    | Arith(op: Operator, a: byte, b: byte)

  type Operator = b: byte | Foldable(b) witness ADD

  function EncodeOne(i: Instr): (s: seq<byte>)
    ensures |s| > 0
  {
    match i
    case Nop => [NOP]
    case Load(v) => [LOAD, v]
    case Store(a) => [STORE, a]
    case Arith(op, a, b) => [op, a, b]
  }

  function Encode(program: seq<Instr>): (s: seq<byte>)
    ensures |s| >= |program|
  {
    if |program| == 0 then [] else EncodeOne(program[0]) + Encode(program[1..])
  }

  /** Byte arithmetic as the machine does it, wrapping around. */
  function Value(op: Operator, a: byte, b: byte): byte {
    if op == ADD then if a + b < 0x100 then a + b else a + b - 0x100
    else if op == SUB then if a >= b then a - b else a - b + 0x100
    else ((a as bv8) ^ (b as bv8)) as int
  }

  /** The accumulator and the stores in order; whole is false if the code is cut short or has another opcode. */
  datatype Outcome = Outcome(acc: byte, stores: seq<(byte, byte)>, whole: bool)

  function Exec(code: seq<byte>, acc: byte, stores: seq<(byte, byte)>): Outcome {
    if |code| == 0 then Outcome(acc, stores, true)
    else if code[0] == NOP then Exec(code[1..], acc, stores)
    else if code[0] == LOAD && |code| >= 2 then Exec(code[2..], code[1], stores)
    else if code[0] == STORE && |code| >= 2 then Exec(code[2..], acc, stores + [(code[1], acc)])
    else if Foldable(code[0]) && |code| >= 3 then Exec(code[3..], Value(code[0], code[1], code[2]), stores)
    else Outcome(acc, stores, false)
  }

  function ExecOne(i: Instr, acc: byte, stores: seq<(byte, byte)>): (byte, seq<(byte, byte)>) {
    match i
    case Nop => (acc, stores)
    case Load(v) => (v, stores)
    case Store(a) => (acc, stores + [(a, acc)])
    case Arith(op, a, b) => (Value(op, a, b), stores)
  }

  lemma {:induction false} ExecFirst(i: Instr, rest: seq<byte>, acc: byte, stores: seq<(byte, byte)>)
    ensures Exec(EncodeOne(i) + rest, acc, stores)
         == Exec(rest, ExecOne(i, acc, stores).0, ExecOne(i, acc, stores).1)
  {
    var code := EncodeOne(i) + rest;
    assert code[|EncodeOne(i)|..] == rest;
  }

  // Stripping.

  function DropNops(program: seq<Instr>): (p: seq<Instr>)
    ensures |p| <= |program|
  {
    if |program| == 0 then []
    else (if program[0].Nop? then [] else [program[0]]) + DropNops(program[1..])
  }

  predicate NonzeroOperands(i: Instr) {
    match i
    case Nop => true
    case Load(v) => v != 0
    case Store(a) => a != 0
    case Arith(_, a, b) => a != 0 && b != 0
  }

  predicate AllNonzero(program: seq<Instr>) {
    forall k :: 0 <= k < |program| ==> NonzeroOperands(program[k])
  }

  lemma {:induction false} StrippedConcat(a: seq<byte>, b: seq<byte>)
    ensures Stripped(a + b) == Stripped(a) + Stripped(b)
    decreases |a|
  {
    if |a| == 0 {
      assert a + b == b;
    } else {
      assert (a + b)[1..] == a[1..] + b;
      StrippedConcat(a[1..], b);
    }
  }

  lemma {:induction false} StrippedOne(i: Instr)
    ensures |Stripped(EncodeOne(i))| <= if i.Nop? then 0 else |EncodeOne(i)|
    ensures Stripped(EncodeOne(i)) == (if i.Nop? then [] else EncodeOne(i)) <==> NonzeroOperands(i)
    ensures |Stripped(EncodeOne(i))| == (if i.Nop? then 0 else |EncodeOne(i)|) <==> NonzeroOperands(i)
  {
    var s := EncodeOne(i);
    assert Stripped(s) == (if s[0] == NOP then [] else [s[0]]) + Stripped(s[1..]);
    if |s| > 1 {
      assert Stripped(s[1..]) == (if s[1] == NOP then [] else [s[1]]) + Stripped(s[2..]);
    }
    if |s| > 2 {
      assert Stripped(s[2..]) == (if s[2] == NOP then [] else [s[2]]) + Stripped(s[3..]);
    }
  }

  lemma {:induction false} StrippedSize(program: seq<Instr>)
    ensures |Stripped(Encode(program))| <= |Encode(DropNops(program))|
    ensures AllNonzero(program) ==> Stripped(Encode(program)) == Encode(DropNops(program))
    ensures !AllNonzero(program) ==> |Stripped(Encode(program))| < |Encode(DropNops(program))|
    decreases |program|
  {
    if |program| > 0 {
      var first, rest := program[0], program[1..];
      StrippedSize(rest);
      StrippedOne(first);
      StrippedConcat(EncodeOne(first), Encode(rest));
      EncodeDropped(program);
      if !AllNonzero(program) && NonzeroOperands(first) {
        var k :| 0 <= k < |program| && !NonzeroOperands(program[k]);
        assert rest[k - 1] == program[k];
      }
    }
  }

  lemma {:induction false} EncodeDropped(program: seq<Instr>)
    requires |program| > 0
    ensures Encode(DropNops(program))
         == (if program[0].Nop? then [] else EncodeOne(program[0])) + Encode(DropNops(program[1..]))
  {
    if program[0].Nop? {
      assert DropNops(program) == DropNops(program[1..]);
    } else {
      assert DropNops(program)[1..] == DropNops(program[1..]);
    }
  }

  /** Removing zero bytes removes just the NOP instructions if and only if no operand is zero. */
  lemma {:induction false} StripExact(program: seq<Instr>)
    ensures Stripped(Encode(program)) == Encode(DropNops(program)) <==> AllNonzero(program)
  {
    StrippedSize(program);
  }

  lemma {:induction false} DropNopsSame(program: seq<Instr>, acc: byte, stores: seq<(byte, byte)>)
    ensures Exec(Encode(DropNops(program)), acc, stores) == Exec(Encode(program), acc, stores)
    decreases |program|
  {
    if |program| > 0 {
      var first, rest := program[0], program[1..];
      ExecFirst(first, Encode(rest), acc, stores);
      EncodeDropped(program);
      ExecFirst(first, Encode(DropNops(rest)), acc, stores);
      var next := ExecOne(first, acc, stores);
      DropNopsSame(rest, next.0, next.1);
      assert [] + Encode(DropNops(rest)) == Encode(DropNops(rest));
    }
  }

  // Folding.

  /** Every arithmetic instruction but one at the very end becomes a load of its value. */
  function FoldProgram(program: seq<Instr>): (p: seq<Instr>)
    ensures |p| == |program|
  {
    if |program| == 0 then []
    else if program[0].Arith? && |program| > 1 then
      [Load(Value(program[0].op, program[0].a, program[0].b))] + FoldProgram(program[1..])
    else [program[0]] + FoldProgram(program[1..])
  }

  /** An operand of LOAD or STORE that looks like arithmetic is left alone only among the last three bytes. */
  predicate Untouched(i: Instr, rest: nat) {
    match i
    case Load(v) => !Foldable(v) || rest < 3
    case Store(a) => !Foldable(a) || rest < 3
    case _ => true
  }

  predicate Safe(program: seq<Instr>) {
    forall k :: 0 <= k < |program| ==> UntouchedAt(program, k)
  }

  predicate UntouchedAt(program: seq<Instr>, k: int)
    requires 0 <= k < |program|
  {
    Untouched(program[k], |Encode(program[k + 1..])|)
  }

  lemma {:induction false} UntouchedShift(program: seq<Instr>, k: int)
    requires 0 <= k < |program| - 1
    ensures UntouchedAt(program[1..], k) <==> UntouchedAt(program, k + 1)
  {
    assert program[1..][k] == program[k + 1] && program[1..][k + 1..] == program[k + 2..];
  }

  lemma {:induction false} SafeSplit(program: seq<Instr>)
    requires |program| > 0
    ensures Safe(program) <==> Untouched(program[0], |Encode(program[1..])|) && Safe(program[1..])
  {
    var rest := program[1..];
    forall k | 0 <= k < |rest| ensures UntouchedAt(rest, k) <==> UntouchedAt(program, k + 1) {
      UntouchedShift(program, k);
    }
    if UntouchedAt(program, 0) && Safe(rest) {
      forall k | 0 <= k < |program| ensures UntouchedAt(program, k) {
        assert k > 0 ==> UntouchedAt(rest, k - 1);
      }
    }
    if Safe(program) {
      forall k | 0 <= k < |rest| ensures UntouchedAt(rest, k) {
        assert UntouchedAt(program, k + 1);
      }
    }
  }

  lemma {:induction false} LowByteOf(v: int, k: int)
    requires 0 <= v - 0x100 * k < 0x100
    ensures LowByte(v) == v - 0x100 * k
  {
  }

  lemma {:induction false} ValueIsLowByte(op: Operator, a: byte, b: byte)
    ensures Value(op, a, b) == LowByte(FoldExpr(op, a, b))
  {
    assert Foldable(op);
    var v := FoldExpr(op, a, b);
    LowByteOf(v, if v < 0 then -1 else if v < 0x100 then 0 else 1);
  }

  lemma {:induction false} FoldTriple(op: Operator, a: byte, b: byte, rest: seq<byte>)
    ensures |rest| > 0 ==> Folded([op, a, b] + rest) == [LOAD, Value(op, a, b)] + Folded(rest)
    ensures |rest| == 0 ==> Folded([op, a, b] + rest) == [op, a, b]
  {
    var s := [op, a, b] + rest;
    if |rest| > 0 {
      ValueIsLowByte(op, a, b);
      assert s[3..] == rest;
    } else {
      assert s[1..] == [a, b] && [a, b][1..] == [b] && [b][1..] == [];
      assert Folded([b]) == [b];
      assert Folded([a, b]) == [a] + [b];
    }
  }

  /** The bitwise operations that never stand in folded code. */
  lemma {:induction false} BitwiseValue(a: byte, b: byte)
    ensures FoldExpr(0x0A, a, b) == ((a as bv8) | (b as bv8)) as int
    ensures FoldExpr(0x0B, a, b) == ((a as bv8) & (b as bv8)) as int
  {
  }

  function Xor(a: byte, b: byte): byte {
    ((a as bv8) ^ (b as bv8)) as int
  }

  lemma {:induction false} SumValue(a: byte, b: byte)
    ensures LowByte(FoldExpr(5, a, b)) == (a + b) % 256 && LowByte(FoldExpr(6, a, b)) == (a - b) % 256
  {
  }

  lemma {:induction false} XorValue(a: byte, b: byte)
    ensures LowByte(FoldExpr(9, a, b)) == Xor(a, b)
  {
    var v: byte := Xor(a, b);
    assert FoldExpr(9, a, b) == v;
    LowByteOf(v, 0);
  }

  lemma {:induction false} FoldedStep(op: byte, a: byte, b: byte, rest: seq<byte>)
    requires |rest| > 0
    ensures Folded([op, a, b] + rest)
         == if Foldable(op) then [LOAD, LowByte(FoldExpr(op, a, b))] + Folded(rest) else [op] + Folded([a, b] + rest)
  {
    var s := [op, a, b] + rest;
    assert s[3..] == rest && s[1..] == [a, b] + rest;
  }

  /** Byte 5 adds, 6 subtracts and 9 is exclusive or, all modulo 256, if anything is behind the operands; no other byte
      is taken for arithmetic. */
  lemma {:induction false} BytesFold(op: byte, a: byte, b: byte, rest: seq<byte>)
    requires |rest| > 0
    ensures Folded([op, a, b] + rest)
         == if op == 5 then [3, (a + b) % 256] + Folded(rest)
            else if op == 6 then [3, (a - b) % 256] + Folded(rest)
            else if op == 9 then [3, Xor(a, b)] + Folded(rest)
            else [op] + Folded([a, b] + rest)
  {
    FoldedStep(op, a, b, rest);
    if op == 5 || op == 6 {
      SumValue(a, b);
    } else if op == 9 {
      XorValue(a, b);
    }
  }

  lemma {:induction false} FoldPair(op: byte, v: byte, rest: seq<byte>)
    requires op == LOAD || op == STORE
    ensures !Foldable(v) || |rest| < 3 ==> Folded([op, v] + rest) == [op, v] + Folded(rest)
    ensures Foldable(v) && |rest| >= 3 ==> |Folded([op, v] + rest)| >= 2 && Folded([op, v] + rest)[1] == LOAD
  {
    var s := [op, v] + rest;
    assert s[1..] == [v] + rest;
    assert ([v] + rest)[1..] == rest;
    assert Folded(s) == [op] + Folded([v] + rest);
    if !Foldable(v) || |rest| < 3 {
      assert Folded([v] + rest) == [v] + Folded(rest);
    }
  }

  /** What folding makes of one instruction. */
  function FoldInstr(i: Instr, last: bool): Instr {
    if i.Arith? && !last then Load(Value(i.op, i.a, i.b)) else i
  }

  lemma {:induction false} FoldedFirst(first: Instr, rest: seq<byte>)
    ensures var out := Folded(EncodeOne(first) + rest);
      if Untouched(first, |rest|) then out == EncodeOne(FoldInstr(first, |rest| == 0)) + Folded(rest)
      else |out| >= 2 && out[1] == LOAD
  {
    match first {
      case Nop =>
        assert ([NOP] + rest)[1..] == rest;
      case Load(v) => FoldPair(LOAD, v, rest);
      case Store(a) => FoldPair(STORE, a, rest);
      case Arith(op, a, b) => FoldTriple(op, a, b, rest);
    }
  }

  /** Folding bytes folds just the arithmetic instructions if and only if no operand of LOAD or STORE with three bytes
      behind it looks like arithmetic. */
  lemma {:induction false} FoldExact(program: seq<Instr>)
    ensures Folded(Encode(program)) == Encode(FoldProgram(program)) <==> Safe(program)
    decreases |program|
  {
    if |program| > 0 {
      var first, rest := program[0], program[1..];
      SafeSplit(program);
      FoldExact(rest);
      if Untouched(first, |Encode(rest)|) {
        FoldedFirst(first, Encode(rest));
        EncodeFolded(program);
        SameFront(EncodeOne(FoldInstr(first, |rest| == 0)), Folded(Encode(rest)), Encode(FoldProgram(rest)));
      } else {
        TouchedDiffers(program);
      }
    }
  }

  /** An operand that is taken for arithmetic is replaced by another byte. */
  lemma {:induction false} TouchedDiffers(program: seq<Instr>)
    requires |program| > 0 && !Untouched(program[0], |Encode(program[1..])|)
    ensures Folded(Encode(program)) != Encode(FoldProgram(program))
  {
    FoldedFirst(program[0], Encode(program[1..]));
    EncodeFolded(program);
  }

  lemma {:induction false} EncodeFolded(program: seq<Instr>)
    requires |program| > 0
    ensures Encode(FoldProgram(program))
         == EncodeOne(FoldInstr(program[0], |program| == 1)) + Encode(FoldProgram(program[1..]))
  {
    assert FoldProgram(program)[1..] == FoldProgram(program[1..]);
  }

  lemma {:induction false} FoldProgramSame(program: seq<Instr>, acc: byte, stores: seq<(byte, byte)>)
    ensures Exec(Encode(FoldProgram(program)), acc, stores) == Exec(Encode(program), acc, stores)
    decreases |program|
  {
    if |program| > 0 {
      var first, rest := program[0], program[1..];
      ExecFirst(first, Encode(rest), acc, stores);
      EncodeFolded(program);
      ExecFirst(FoldInstr(first, |program| == 1), Encode(FoldProgram(rest)), acc, stores);
      var next := ExecOne(first, acc, stores);
      FoldProgramSame(rest, next.0, next.1);
    }
  }

  // The pipeline.

  /** Unpacked, the minimized code ends with the same accumulator after the same stores. */
  lemma {:induction false} MinimizeKeepsMeaning(program: seq<Instr>, acc: byte)
    requires AllNonzero(program) && Safe(DropNops(program))
    ensures Exec(Rle.Decompress(Minimized(Encode(program))), acc, []) == Exec(Encode(program), acc, [])
  {
    StripExact(program);
    FoldExact(DropNops(program));
    Rle.RoundTrip(Folded(Stripped(Encode(program))));
    FoldProgramSame(DropNops(program), acc, []);
    DropNopsSame(program, acc, []);
  }

  /** And such a program runs through. */
  lemma {:induction false} ProgramsRunThrough(program: seq<Instr>, acc: byte, stores: seq<(byte, byte)>)
    ensures Exec(Encode(program), acc, stores).whole
    decreases |program|
  {
    if |program| > 0 {
      ExecFirst(program[0], Encode(program[1..]), acc, stores);
      var next := ExecOne(program[0], acc, stores);
      ProgramsRunThrough(program[1..], next.0, next.1);
    }
  }

  /** A zero operand changes the meaning: LOAD 0, STORE 1 loses the operand. */
  lemma {:induction false} ZeroOperandBreaks()
    ensures var program := [Load(0), Store(1)];
      Exec(Stripped(Encode(program)), 0, []) != Exec(Encode(program), 0, [])
  {
    var code := [LOAD, 0, STORE, 1];
    assert Encode([Store(1)]) == [STORE, 1] + Encode([]);
    assert [Load(0), Store(1)][1..] == [Store(1)];
    assert Encode([Load(0), Store(1)]) == code;
    assert code[1..][1..] == [STORE, 1] && [STORE, 1][1..] == [1] && [1][1..] == [];
    assert Stripped([1]) == [1];
    assert Stripped([STORE, 1]) == [STORE] + [1];
    assert Stripped(code[1..]) == [STORE, 1];
    assert Stripped(code) == [LOAD, STORE, 1];
    assert [LOAD, STORE, 1][2..] == [1];
    assert !Exec([LOAD, STORE, 1], 0, []).whole;
    ProgramsRunThrough([Load(0), Store(1)], 0, []);
  }

  /** So does an operand that looks like arithmetic: in LOAD 5, STORE 1, STORE 2 the stores disappear. */
  lemma {:induction false} FoldableOperandBreaks()
    ensures var program := [Load(5), Store(1), Store(2)];
      Exec(Folded(Encode(program)), 0, []) != Exec(Encode(program), 0, [])
  {
    var program := [Load(5), Store(1), Store(2)];
    var code := [LOAD, 5, STORE, 1, STORE, 2];
    assert program[1..] == [Store(1), Store(2)] && program[1..][1..] == [Store(2)];
    assert Encode([Store(2)]) == [STORE, 2] + Encode([]);
    assert Encode(program[1..]) == [STORE, 1] + [STORE, 2];
    assert Encode(program) == code;
    BrokenFolds(code);
    BrokenRuns([LOAD, LOAD, 5, STORE, 2]);
    WholeRuns(code);
  }

  lemma {:induction false} BrokenFolds(code: seq<byte>)
    requires code == [LOAD, 5, STORE, 1, STORE, 2]
    ensures Folded(code) == [LOAD, LOAD, 5, STORE, 2]
  {
    assert code[1..] == [5, STORE, 1] + [STORE, 2];
    BytesFold(5, STORE, 1, [STORE, 2]);
    assert [STORE, 2][1..] == [2] && [2][1..] == [];
    assert Folded([2]) == [2];
    assert Folded([STORE, 2]) == [STORE] + [2];
  }

  lemma {:induction false} BrokenRuns(code: seq<byte>)
    requires code == [LOAD, LOAD, 5, STORE, 2]
    ensures Exec(code, 0, []).stores == []
  {
    assert code[2..] == [5, STORE, 2] && [5, STORE, 2][3..] == [];
    assert Exec([5, STORE, 2], LOAD, []) == Exec([], Value(5, STORE, 2), []);
    assert Exec(code, 0, []) == Exec([5, STORE, 2], LOAD, []);
  }

  lemma {:induction false} WholeRuns(code: seq<byte>)
    requires code == [LOAD, 5, STORE, 1, STORE, 2]
    ensures Exec(code, 0, []).stores == [(1, 5), (2, 5)]
  {
    var tail, last := [STORE, 1, STORE, 2], [STORE, 2];
    assert code[2..] == tail && tail[2..] == last && last[2..] == [];
    assert [] + [(1, 5)] == [(1, 5)] && [(1, 5)] + [(2, 5)] == [(1, 5), (2, 5)];
    assert Exec(last, 5, [(1, 5)]) == Exec([], 5, [(1, 5), (2, 5)]);
    assert Exec(tail, 5, []) == Exec(last, 5, [(1, 5)]);
    assert Exec(code, 0, []) == Exec(tail, 5, []);
  }
}
