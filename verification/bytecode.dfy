/**
  The bytecode compiler and its virtual machine: the compiled file runs to HALT and prints what the statements mean,
  and where that is what the native back end prints too.
 */
module Bytecode {
  import opened Bytes
  import opened Machine
  import opened Process
  import opened Strings
  import Elf
  import Native

  const MAGIC: seq<byte> := [0x4E, 0x41, 0x4E, 0x33]
  const PULSE_PORT: byte := 0x10
  const EMIT_PORT: byte := 0x11

  const HALT: byte := 0x01
  const SAY: byte := 0x02
  const LOAD: byte := 0x03
  const STORE: byte := 0x04

  /** A recognised line. An MMIO write keeps its line, which the native back end prints, also if the bytecode compiler
      cannot read it and ignores it. */
  datatype Stmt =
    | Say(text: string)
    | Pulse(signal: byte)
    | Emit(signal: byte)
    | Mmio(address: byte, value: byte, line: string)
    | Unread(line: string)
    | Halt

  // What statements mean.

  function HexDigit(n: nat): char
    requires n < 16
  {
    "0123456789abcdef"[n]
  }

  function SignalName(v: byte): string {
    if v == 0x00 then "LOW"
    else if v == 0x01 then "HIGH"
    else if v == 0xFF then "UNCERTAIN"
    else if v == 0x10 then "FALLING"
    else if v == 0x11 then "DOUBLE_FALLING"
    else ['0', 'x', HexDigit(v / 16), HexDigit(v % 16)]
  }

  /** What a store to a port prints. */
  function PortLine(address: byte, value: byte): string {
    if address == PULSE_PORT then "[pulse] " + SignalName(value) + "\n"
    else if address == EMIT_PORT then "[emit] " + SignalName(value) + "\n"
    else ""
  }

  function OutputOf(s: Stmt): string {
    match s
    case Say(text) => text + "\n"
    case Pulse(signal) => "[pulse] " + SignalName(signal) + "\n"
    case Emit(signal) => "[emit] " + SignalName(signal) + "\n"
    case Mmio(address, value, _) => PortLine(address, value)
    case Unread(_) => ""
    case Halt => ""
  }

  /** What the statements print before the first halt. */
  function Meaning(stmts: seq<Stmt>): string {
    if |stmts| == 0 || stmts[0].Halt? then "" else OutputOf(stmts[0]) + Meaning(stmts[1..])
  }

  predicate HasHalt(stmts: seq<Stmt>) {
    Halt in stmts
  }

  // The compiler.

  function StoreSequence(value: byte, address: byte): seq<byte> {
    [LOAD, value, STORE, address]
  }

  function CodeOf(s: Stmt): seq<byte> {
    match s
    case Say(text) => [SAY] + LittleEndian(|text| % TWO32, 4) + BytesOf(text)
    case Pulse(signal) => StoreSequence(signal, PULSE_PORT)
    case Emit(signal) => StoreSequence(signal, EMIT_PORT)
    case Mmio(address, value, _) => StoreSequence(value, address)
    case Unread(_) => []
    case Halt => [HALT]
  }

  /** The magic number and the statements. */
  function Front(stmts: seq<Stmt>): seq<seq<byte>> {
    [MAGIC] + seq(|stmts|, i requires 0 <= i < |stmts| => CodeOf(stmts[i]))
  }

  /** The file, piece by piece: with a halt at the end if there is none. */
  function Pieces(stmts: seq<Stmt>): seq<seq<byte>> {
    Front(stmts) + if HasHalt(stmts) then [] else [[HALT]]
  }

  function Compiled(stmts: seq<Stmt>): seq<byte> {
    Flatten(Pieces(stmts))
  }

  method EmitStoreSequence(bytecode: seq<byte>, value: byte, address: byte) returns (out: seq<byte>)
    ensures out == bytecode + StoreSequence(value, address)
  {
    out := bytecode + [LOAD];
    out := out + [value];
    out := out + [STORE];
    out := out + [address];
  }

  method EmitStatement(bytecode: seq<byte>, s: Stmt) returns (out: seq<byte>)
    ensures out == bytecode + CodeOf(s)
  {
    match s {
      case Say(text) =>
        out := bytecode + [SAY];
        out := Elf.AppendU32(out, |text| % TWO32);
        out := out + BytesOf(text);
      case Pulse(signal) =>
        out := EmitStoreSequence(bytecode, signal, PULSE_PORT);
      case Emit(signal) =>
        out := EmitStoreSequence(bytecode, signal, EMIT_PORT);
      case Mmio(address, value, _) =>
        out := EmitStoreSequence(bytecode, value, address);
      case Unread(_) =>
        out := bytecode;
      case Halt =>
        out := bytecode + [HALT];
    }
  }

  lemma {:induction false} FrontStep(stmts: seq<Stmt>, s: Stmt)
    ensures Flatten(Front(stmts + [s])) == Flatten(Front(stmts)) + CodeOf(s)
  {
    var front := Front(stmts + [s]);
    assert front[..|front| - 1] == Front(stmts);
  }

  lemma {:induction false} CompiledEnd(stmts: seq<Stmt>)
    ensures Compiled(stmts) == Flatten(Front(stmts)) + if HasHalt(stmts) then [] else [HALT]
  {
    if HasHalt(stmts) {
      assert Pieces(stmts) == Front(stmts);
    } else {
      assert Pieces(stmts)[..|stmts| + 1] == Front(stmts);
    }
  }

  lemma {:induction false} FlattenOne(bs: seq<byte>)
    ensures Flatten([bs]) == bs
  {
    assert [bs][..0] == [];
    assert Flatten([]) + bs == bs;
  }

  // The virtual machine.

  datatype Status =
    | Halted
    | NoHalt
    | TruncatedFile
    | InvalidMagic
    | TruncatedSayLength
    | TruncatedSayPayload
    | TruncatedLoad
    | TruncatedStore
    | UnsupportedOpcode(op: byte)

  datatype Result = Result(output: seq<byte>, status: Status)

  function Then(output: seq<byte>, rest: Result): Result {
    rest.(output := output + rest.output)
  }

  function ReadU32(bytes: seq<byte>, p: nat): nat
    requires p + 4 <= |bytes|
  {
    var a: nat, b: nat, c: nat, d: nat := bytes[p], bytes[p + 1], bytes[p + 2], bytes[p + 3];
    a + 0x100 * b + 0x1_0000 * c + 0x100_0000 * d
  }

  /** One instruction: it stops the machine, or prints something and goes on. */
  datatype Step = Stop(status: Status) | Next(output: seq<byte>, p: nat, acc: byte)

  function StepAt(bytes: seq<byte>, p: nat, acc: byte): (s: Step)
    requires p <= |bytes|
    ensures s.Next? ==> p < s.p <= |bytes|
  {
    if p == |bytes| then Stop(NoHalt)
    else if bytes[p] == HALT then Stop(Halted)
    else if bytes[p] == SAY then SayAt(bytes, p, acc)
    else if bytes[p] == LOAD then
      if p + 1 >= |bytes| then Stop(TruncatedLoad) else Next([], p + 2, bytes[p + 1])
    else if bytes[p] == STORE then
      if p + 1 >= |bytes| then Stop(TruncatedStore) else Next(BytesOf(PortLine(bytes[p + 1], acc)), p + 2, acc)
    else Stop(UnsupportedOpcode(bytes[p]))
  }

  function SayAt(bytes: seq<byte>, p: nat, acc: byte): (s: Step)
    requires p < |bytes|
    ensures s.Next? ==> p < s.p <= |bytes|
  {
    if |bytes| - (p + 1) < 4 then Stop(TruncatedSayLength)
    else
      var len := ReadU32(bytes, p + 1);
      if |bytes| - (p + 5) < len then Stop(TruncatedSayPayload)
      else Next(bytes[p + 5..p + 5 + len] + [0x0A], p + 5 + len, acc)
  }

  /** Running the bytes from offset p on. */
  function Vm(bytes: seq<byte>, p: nat, acc: byte): Result
    requires p <= |bytes|
    decreases |bytes| - p
  {
    match StepAt(bytes, p, acc)
    case Stop(status) => Result([], status)
    case Next(output, next, after) => Then(output, Vm(bytes, next, after))
  }

  function VmFile(bytes: seq<byte>): Result {
    if |bytes| < 4 then Result([], TruncatedFile)
    else if bytes[..4] != MAGIC then Result([], InvalidMagic)
    else Vm(bytes, 4, 0)
  }

  /** With this output so far, at p, the run goes on to the whole file's result. */
  ghost predicate OnTheWay(bytes: seq<byte>, p: nat, acc: byte, output: seq<byte>) {
    p <= |bytes| && Then(output, Vm(bytes, p, acc)) == VmFile(bytes)
  }

  lemma {:induction false} ThenThen(a: seq<byte>, b: seq<byte>, r: Result)
    ensures Then(a, Then(b, r)) == Then(a + b, r)
  {
    ConcatAssoc(a, b, r.output);
  }

  lemma {:induction false} StepOn(bytes: seq<byte>, p: nat, acc: byte, output: seq<byte>)
    requires OnTheWay(bytes, p, acc, output)
    ensures match StepAt(bytes, p, acc)
      case Stop(status) => VmFile(bytes) == Result(output, status)
      case Next(more, next, after) => OnTheWay(bytes, next, after, output + more)
  {
    match StepAt(bytes, p, acc) {
      case Stop(status) =>
        assert output + [] == output;
      case Next(more, next, after) =>
        ThenThen(output, more, Vm(bytes, next, after));
    }
  }

  lemma {:induction false} StopOn(bytes: seq<byte>, p: nat, acc: byte, output: seq<byte>)
    requires OnTheWay(bytes, p, acc, output) && StepAt(bytes, p, acc).Stop?
    ensures Result(output, StepAt(bytes, p, acc).status) == VmFile(bytes)
  {
    StepOn(bytes, p, acc, output);
  }

  lemma {:induction false} SayOn(bytes: seq<byte>, p: nat, acc: byte, output: seq<byte>, next: nat)
    requires OnTheWay(bytes, p, acc, output) && p + 5 <= |bytes| && bytes[p] == SAY
    requires next == p + 5 + ReadU32(bytes, p + 1) <= |bytes|
    ensures OnTheWay(bytes, next, acc, output + bytes[p + 5..next] + [0x0A])
  {
    var text := bytes[p + 5..next];
    assert StepAt(bytes, p, acc) == Next(text + [0x0A], next, acc);
    StepOn(bytes, p, acc, output);
    ConcatAssoc(output, text, [0x0A]);
  }

  lemma {:induction false} LoadOn(bytes: seq<byte>, p: nat, acc: byte, output: seq<byte>)
    requires OnTheWay(bytes, p, acc, output) && p + 1 < |bytes| && bytes[p] == LOAD
    ensures OnTheWay(bytes, p + 2, bytes[p + 1], output)
  {
    StepOn(bytes, p, acc, output);
    assert output + [] == output;
  }

  lemma {:induction false} StoreOn(bytes: seq<byte>, p: nat, acc: byte, output: seq<byte>)
    requires OnTheWay(bytes, p, acc, output) && p + 1 < |bytes| && bytes[p] == STORE
    ensures OnTheWay(bytes, p + 2, acc, output + BytesOf(PortLine(bytes[p + 1], acc)))
  {
    var line := BytesOf(PortLine(bytes[p + 1], acc));
    assert StepAt(bytes, p, acc) == Next(line, p + 2, acc);
    StepOn(bytes, p, acc, output);
  }

  /** The port lines, printed. */
  method Store(output: seq<byte>, addr: byte, acc: byte) returns (out: seq<byte>)
    ensures out == output + BytesOf(PortLine(addr, acc))
  {
    if addr == PULSE_PORT {
      out := output + BytesOf("[pulse] " + SignalName(acc) + "\n");
    } else if addr == EMIT_PORT {
      out := output + BytesOf("[emit] " + SignalName(acc) + "\n");
    } else {
      out := output;
      assert BytesOf("") == [];
    }
  }

  method RunBytecode(bytes: seq<byte>) returns (output: seq<byte>, status: Status)
    ensures Result(output, status) == VmFile(bytes)
  {
    output := [];
    if |bytes| < 4 {
      return output, TruncatedFile;
    }
    if bytes[..4] != MAGIC {
      return output, InvalidMagic;
    }
    var acc: byte := 0;
    var p := 4;
    assert Then([], Vm(bytes, 4, 0)) == Vm(bytes, 4, 0);
    while p < |bytes|
      invariant OnTheWay(bytes, p, acc, output)
      decreases |bytes| - p
    {
      var op := bytes[p];
      if op == HALT {
        StopOn(bytes, p, acc, output);
        return output, Halted;
      } else if op == SAY {
        if |bytes| - (p + 1) < 4 {
          StopOn(bytes, p, acc, output);
          return output, TruncatedSayLength;
        }
        var len := ReadU32(bytes, p + 1);
        if |bytes| - (p + 5) < len {
          StopOn(bytes, p, acc, output);
          return output, TruncatedSayPayload;
        }
        SayOn(bytes, p, acc, output, p + 5 + len);
        output := output + bytes[p + 5..p + 5 + len];
        output := output + [0x0A];
        p := p + 5 + len;
      } else if op == LOAD {
        if p + 1 >= |bytes| {
          StopOn(bytes, p, acc, output);
          return output, TruncatedLoad;
        }
        LoadOn(bytes, p, acc, output);
        acc := bytes[p + 1];
        p := p + 2;
      } else if op == STORE {
        if p + 1 >= |bytes| {
          StopOn(bytes, p, acc, output);
          return output, TruncatedStore;
        }
        StoreOn(bytes, p, acc, output);
        output := Store(output, bytes[p + 1], acc);
        p := p + 2;
      } else {
        StopOn(bytes, p, acc, output);
        return output, UnsupportedOpcode(op);
      }
    }
    StopOn(bytes, p, acc, output);
    return output, NoHalt;
  }

  // Compiled files run.

  /** From p the machine prints out and gets to q. */
  ghost predicate Goes(bytes: seq<byte>, p: nat, acc: byte, out: seq<byte>, q: nat, after: byte) {
    p <= |bytes| && q <= |bytes| && Vm(bytes, p, acc) == Then(out, Vm(bytes, q, after))
  }

  /** From p the machine prints out and halts. */
  ghost predicate Ends(bytes: seq<byte>, p: nat, acc: byte, out: seq<byte>) {
    p <= |bytes| && Vm(bytes, p, acc) == Result(out, Halted)
  }

  lemma {:induction false} GoesEnds(bytes: seq<byte>, p: nat, acc: byte, out: seq<byte>, q: nat, after: byte,
          rest: seq<byte>)
    requires Goes(bytes, p, acc, out, q, after) && Ends(bytes, q, after, rest)
    ensures Ends(bytes, p, acc, out + rest)
  {
  }

  lemma {:induction false} ReadsBack(bytes: seq<byte>, p: nat, v: nat)
    requires v < TWO32 && Holds(bytes, p, LittleEndian(v, 4))
    ensures ReadU32(bytes, p) == v
  {
    var f := LittleEndian(v, 4);
    Widths();
    LittleEndianRoundTrip(v, 4);
    forall k | 0 <= k < 4 ensures bytes[p + k] == f[k] {
      assert bytes[p..p + 4][k] == bytes[p + k];
    }
    assert f[1..][1..] == f[2..] && f[2..][1..] == f[3..] && f[3..][1..] == [];
    var f1: nat, f2: nat, f3: nat := f[1], f[2], f[3];
    assert FromLittleEndian(f[3..]) == f3;
    assert FromLittleEndian(f[2..]) == f2 + 256 * f3;
    assert FromLittleEndian(f[1..]) == f1 + 256 * (f2 + 256 * f3);
  }

  /** The length field holds a text's length if and only if it is below 2^32. */
  lemma {:induction false} LengthExact(n: nat)
    ensures FromLittleEndian(LittleEndian(n % TWO32, 4)) == n <==> n < TWO32
  {
    Widths();
    LittleEndianRoundTrip(n % TWO32, 4);
  }

  lemma {:induction false} SayPlaced(bytes: seq<byte>, p: nat, text: string)
    requires |text| < TWO32 && Holds(bytes, p, CodeOf(Say(text)))
    ensures p + 5 + |text| <= |bytes| && bytes[p] == SAY && ReadU32(bytes, p + 1) == |text|
    ensures bytes[p + 5..p + 5 + |text|] == BytesOf(text)
  {
    HoldsSplit(bytes, p, [SAY] + LittleEndian(|text|, 4), BytesOf(text));
    HoldsSplit(bytes, p, [SAY], LittleEndian(|text|, 4));
    assert bytes[p] == bytes[p..p + 1][0];
    ReadsBack(bytes, p + 1, |text|);
  }

  lemma {:induction false} SayRuns(bytes: seq<byte>, p: nat, acc: byte, text: string, q: nat)
    requires |text| < TWO32 && Holds(bytes, p, CodeOf(Say(text))) && q == p + 5 + |text|
    ensures Goes(bytes, p, acc, BytesOf(text + "\n"), q, acc)
  {
    SayPlaced(bytes, p, text);
    BytesOfConcat(text, "\n");
    assert BytesOf("\n") == [0x0A];
    assert StepAt(bytes, p, acc) == Next(BytesOf(text + "\n"), q, acc);
  }

  lemma {:induction false} StoreRuns(bytes: seq<byte>, p: nat, acc: byte, value: byte, address: byte, q: nat)
    requires Holds(bytes, p, StoreSequence(value, address)) && q == p + 4
    ensures Goes(bytes, p, acc, BytesOf(PortLine(address, value)), q, value)
  {
    var b := bytes[p..p + 4];
    assert bytes[p] == b[0] && bytes[p + 1] == b[1] && bytes[p + 2] == b[2] && bytes[p + 3] == b[3];
    assert StepAt(bytes, p, acc) == Next([], p + 2, value);
    assert StepAt(bytes, p + 2, value) == Next(BytesOf(PortLine(address, value)), q, value);
    var rest := Vm(bytes, p + 2, value);
    assert Then([], rest) == rest;
  }

  lemma {:induction false} HaltRuns(bytes: seq<byte>, p: nat, acc: byte)
    requires Holds(bytes, p, [HALT])
    ensures Ends(bytes, p, acc, BytesOf(""))
  {
    assert bytes[p..p + 1][0] == bytes[p];
    assert BytesOf("") == [];
  }

  lemma {:induction false} CodeSize(s: Stmt)
    ensures |CodeOf(s)| == if s.Say? then 5 + |s.text| else if s.Halt? then 1 else if s.Unread? then 0 else 4
  {
  }

  predicate Stores(s: Stmt) {
    s.Pulse? || s.Emit? || s.Mmio?
  }

  /** Pulse, emit and MMIO are stores, of this value to this port. */
  function StoreOf(s: Stmt): (byte, byte)
    requires Stores(s)
  {
    match s
    case Pulse(signal) => (signal, PULSE_PORT)
    case Emit(signal) => (signal, EMIT_PORT)
    case Mmio(address, value, _) => (value, address)
  }

  lemma {:induction false} IsStore(s: Stmt)
    requires Stores(s)
    ensures CodeOf(s) == StoreSequence(StoreOf(s).0, StoreOf(s).1)
    ensures OutputOf(s) == PortLine(StoreOf(s).1, StoreOf(s).0)
  {
  }

  /** The accumulator after a statement. */
  function After(s: Stmt, acc: byte): byte {
    if Stores(s) then StoreOf(s).0 else acc
  }

  /** The code of a statement stands from p to q. */
  predicate Placed(bytes: seq<byte>, p: nat, s: Stmt, q: nat) {
    Holds(bytes, p, CodeOf(s)) && q == p + |CodeOf(s)|
  }

  /** From p the machine performs a statement and gets to q. */
  ghost predicate Performs(bytes: seq<byte>, p: nat, acc: byte, s: Stmt, q: nat) {
    Goes(bytes, p, acc, BytesOf(OutputOf(s)), q, After(s, acc))
  }

  lemma {:induction false} SayPerforms(bytes: seq<byte>, p: nat, acc: byte, s: Stmt, q: nat)
    requires s.Say? && |s.text| < TWO32 && Placed(bytes, p, s, q)
    ensures Performs(bytes, p, acc, s, q)
  {
    CodeSize(s);
    SayRuns(bytes, p, acc, s.text, q);
  }

  lemma {:induction false} StorePerforms(bytes: seq<byte>, p: nat, acc: byte, s: Stmt, q: nat)
    requires Stores(s) && Placed(bytes, p, s, q)
    ensures Performs(bytes, p, acc, s, q)
  {
    CodeSize(s);
    IsStore(s);
    StoreRuns(bytes, p, acc, StoreOf(s).0, StoreOf(s).1, q);
  }

  lemma {:induction false} UnreadPerforms(bytes: seq<byte>, p: nat, acc: byte, s: Stmt, q: nat)
    requires s.Unread? && Placed(bytes, p, s, q)
    ensures Performs(bytes, p, acc, s, q)
  {
    assert BytesOf("") == [];
    assert Then([], Vm(bytes, p, acc)) == Vm(bytes, p, acc);
  }

  /** One statement other than halt. */
  lemma {:induction false} StatementRuns(bytes: seq<byte>, p: nat, acc: byte, s: Stmt, q: nat)
    requires Placed(bytes, p, s, q) && !s.Halt? && (s.Say? ==> |s.text| < TWO32)
    ensures Performs(bytes, p, acc, s, q)
  {
    if s.Say? {
      SayPerforms(bytes, p, acc, s, q);
    } else if s.Unread? {
      UnreadPerforms(bytes, p, acc, s, q);
    } else {
      StorePerforms(bytes, p, acc, s, q);
    }
  }

  lemma {:induction false} StatementThen(bytes: seq<byte>, p: nat, acc: byte, s: Stmt, q: nat, rest: seq<byte>)
    requires Placed(bytes, p, s, q) && !s.Halt? && (s.Say? ==> |s.text| < TWO32)
    requires Ends(bytes, q, After(s, acc), rest)
    ensures Ends(bytes, p, acc, BytesOf(OutputOf(s)) + rest)
  {
    StatementRuns(bytes, p, acc, s, q);
    GoesEnds(bytes, p, acc, BytesOf(OutputOf(s)), q, After(s, acc), rest);
  }

  predicate TextsFit(stmts: seq<Stmt>) {
    forall i :: 0 <= i < |stmts| && stmts[i].Say? ==> |stmts[i].text| < TWO32
  }

  function Offset(stmts: seq<Stmt>, k: nat): nat
    requires k <= |stmts|
  {
    |Flatten(Pieces(stmts)[..k + 1])|
  }

  lemma {:induction false} OffsetNext(stmts: seq<Stmt>, k: nat)
    requires k < |stmts|
    ensures Placed(Compiled(stmts), Offset(stmts, k), stmts[k], Offset(stmts, k + 1))
  {
    assert Pieces(stmts)[k + 1] == CodeOf(stmts[k]);
    FlattenPlaced(Pieces(stmts), k + 1);
    FlattenNext(Pieces(stmts), k + 1);
  }

  lemma {:induction false} MeaningStep(stmts: seq<Stmt>, k: nat)
    requires k < |stmts| && !stmts[k].Halt?
    ensures BytesOf(Meaning(stmts[k..])) == BytesOf(OutputOf(stmts[k])) + BytesOf(Meaning(stmts[k + 1..]))
  {
    assert stmts[k..][0] == stmts[k] && stmts[k..][1..] == stmts[k + 1..];
    BytesOfConcat(OutputOf(stmts[k]), Meaning(stmts[k + 1..]));
  }

  lemma {:induction false} RunsAtEnd(stmts: seq<Stmt>, acc: byte)
    requires !HasHalt(stmts)
    ensures Ends(Compiled(stmts), Offset(stmts, |stmts|), acc, BytesOf(Meaning(stmts[|stmts|..])))
  {
    FlattenPlaced(Pieces(stmts), |stmts| + 1);
    HaltRuns(Compiled(stmts), Offset(stmts, |stmts|), acc);
    assert stmts[|stmts|..] == [];
  }

  lemma {:induction false} RunsNext(stmts: seq<Stmt>, k: nat, acc: byte)
    requires TextsFit(stmts) && k < |stmts| && !stmts[k].Halt?
    requires Ends(Compiled(stmts), Offset(stmts, k + 1), After(stmts[k], acc), BytesOf(Meaning(stmts[k + 1..])))
    ensures Ends(Compiled(stmts), Offset(stmts, k), acc, BytesOf(Meaning(stmts[k..])))
  {
    OffsetNext(stmts, k);
    MeaningStep(stmts, k);
    StatementThen(Compiled(stmts), Offset(stmts, k), acc, stmts[k], Offset(stmts, k + 1),
                  BytesOf(Meaning(stmts[k + 1..])));
  }

  lemma {:induction false} RunsAtHalt(stmts: seq<Stmt>, k: nat, acc: byte)
    requires k < |stmts| && stmts[k].Halt?
    ensures Ends(Compiled(stmts), Offset(stmts, k), acc, BytesOf(Meaning(stmts[k..])))
  {
    OffsetNext(stmts, k);
    assert stmts[k..][0] == stmts[k];
    HaltRuns(Compiled(stmts), Offset(stmts, k), acc);
  }

  lemma {:induction false} RunsFrom(stmts: seq<Stmt>, k: nat, acc: byte)
    requires TextsFit(stmts) && k <= |stmts| && forall i :: 0 <= i < k ==> !stmts[i].Halt?
    ensures Ends(Compiled(stmts), Offset(stmts, k), acc, BytesOf(Meaning(stmts[k..])))
    decreases |stmts| - k
  {
    if k == |stmts| {
      RunsAtEnd(stmts, acc);
    } else if stmts[k].Halt? {
      RunsAtHalt(stmts, k, acc);
    } else {
      RunsFrom(stmts, k + 1, After(stmts[k], acc));
      RunsNext(stmts, k, acc);
    }
  }

  /** A compiled file is never truncated and has no unknown opcode: it reaches HALT, having printed the meaning of the
      statements before the first halt. */
  lemma {:induction false} CompiledRuns(stmts: seq<Stmt>)
    requires TextsFit(stmts)
    ensures VmFile(Compiled(stmts)) == Result(BytesOf(Meaning(stmts)), Halted)
  {
    var bytes, pieces := Compiled(stmts), Pieces(stmts);
    FlattenPlaced(pieces, 0);
    assert pieces[..0] == [];
    assert pieces[..1] == [MAGIC];
    FlattenOne(MAGIC);
    assert bytes[0..4] == bytes[..4];
    assert stmts[0..] == stmts;
    RunsFrom(stmts, 0, 0);
  }

  // Agreement with the native back end.

  /** What the native front end collects: every output, also behind a halt, and MMIO lines as they are. */
  function WriteOf(s: Stmt): seq<string> {
    match s
    case Halt => []
    case Mmio(_, _, line) => [MmioLine(line)]
    case Unread(line) => [MmioLine(line)]
    case _ => [OutputOf(s)]
  }

  function MmioLine(line: string): string {
    "[mmio] " + line + "\n"
  }

  function Writes(stmts: seq<Stmt>): seq<string> {
    if |stmts| == 0 then [] else WriteOf(stmts[0]) + Writes(stmts[1..])
  }

  /** All bytes of a trace. */
  function Printed(trace: seq<Event>): seq<byte> {
    if |trace| == 0 then [] else trace[0].data + Printed(trace[1..])
  }

  lemma {:induction false} PrintedEvents(writes: seq<string>)
    ensures Printed(Native.Events(writes)) == BytesOf(Joined(writes))
    decreases |writes|
  {
    if |writes| == 0 {
      assert BytesOf("") == [];
    } else {
      assert Native.Events(writes)[1..] == Native.Events(writes[1..]);
      PrintedEvents(writes[1..]);
      BytesOfConcat(writes[0], Joined(writes[1..]));
    }
  }

  predicate IsMmio(s: Stmt) {
    s.Mmio? || s.Unread?
  }

  predicate NoMmio(stmts: seq<Stmt>) {
    forall i :: 0 <= i < |stmts| ==> !IsMmio(stmts[i])
  }

  const LINE_FEED: byte := 0x0A

  predicate OneLine(line: string) {
    LINE_FEED !in BytesOf(line)
  }

  /** The line of an MMIO write is one line. */
  predicate LinesWhole(stmts: seq<Stmt>) {
    forall i :: 0 <= i < |stmts| && IsMmio(stmts[i]) ==> OneLine(stmts[i].line)
  }

  /** Behind the first halt there are only halts. */
  predicate NothingAfterHalt(stmts: seq<Stmt>) {
    forall i, j :: 0 <= i < j < |stmts| && stmts[i].Halt? ==> stmts[j].Halt?
  }

  /** The bytes that the native executable writes, and those that the virtual machine prints. */
  function NativeBytes(stmts: seq<Stmt>): seq<byte> {
    BytesOf(Joined(Writes(stmts)))
  }

  function VmBytes(stmts: seq<Stmt>): seq<byte> {
    BytesOf(Meaning(stmts))
  }

  lemma {:induction false} BytesStep(stmts: seq<Stmt>)
    requires |stmts| > 0 && !stmts[0].Halt?
    ensures NativeBytes(stmts)
         == BytesOf(if IsMmio(stmts[0]) then MmioLine(stmts[0].line) else OutputOf(stmts[0])) + NativeBytes(stmts[1..])
    ensures VmBytes(stmts) == BytesOf(OutputOf(stmts[0])) + VmBytes(stmts[1..])
  {
    var s, writes := stmts[0], Writes(stmts[1..]);
    var out := if IsMmio(s) then MmioLine(s.line) else OutputOf(s);
    assert Writes(stmts) == [out] + writes;
    assert Writes(stmts)[1..] == writes;
    BytesOfConcat(out, Joined(writes));
    BytesOfConcat(OutputOf(s), Meaning(stmts[1..]));
  }

  lemma {:induction false} HaltsOnly(stmts: seq<Stmt>)
    ensures NativeBytes(stmts) == [] <==> forall i :: 0 <= i < |stmts| ==> stmts[i].Halt?
    decreases |stmts|
  {
    if |stmts| > 0 {
      HaltsOnly(stmts[1..]);
      assert stmts == [stmts[0]] + stmts[1..];
      if stmts[0].Halt? {
        assert Writes(stmts) == Writes(stmts[1..]);
        assert forall i :: 0 <= i < |stmts[1..]| ==> stmts[1..][i] == stmts[i + 1];
      } else {
        BytesStep(stmts);
      }
    }
  }

  lemma {:induction false} NothingAfterHaltTail(stmts: seq<Stmt>)
    requires |stmts| > 0 && !stmts[0].Halt?
    ensures NothingAfterHalt(stmts) <==> NothingAfterHalt(stmts[1..])
  {
    if NothingAfterHalt(stmts[1..]) {
      forall i, j | 0 <= i < j < |stmts| && stmts[i].Halt? ensures stmts[j].Halt? {
        assert stmts[1..][i - 1] == stmts[i] && stmts[1..][j - 1] == stmts[j];
      }
    }
  }

  /** Whole lines that all start like an MMIO line. */
  ghost predicate Marked(e: seq<byte>) {
    && |e| > 0 && e[|e| - 1] == LINE_FEED
    && forall i :: 0 <= i < |e| && LineStart(e, i) ==> MarkedAt(e, i)
  }

  predicate LineStart(e: seq<byte>, i: nat)
    requires i < |e|
  {
    i == 0 || e[i - 1] == LINE_FEED
  }

  predicate MarkedAt(e: seq<byte>, i: nat) {
    i + 1 < |e| && e[i] == '[' as int && e[i + 1] == 'm' as int
  }

  lemma {:induction false} MarkedConcat(a: seq<byte>, b: seq<byte>)
    requires Marked(a) && Marked(b)
    ensures Marked(a + b)
  {
    var e := a + b;
    forall i: nat | i < |e| && LineStart(e, i) ensures MarkedAt(e, i) {
      if i < |a| {
        assert LineStart(a, i);
      } else {
        assert LineStart(b, i - |a|);
        assert MarkedAt(b, i - |a|);
      }
    }
  }

  lemma {:induction false} MmioMarked(line: string)
    requires OneLine(line)
    ensures Marked(BytesOf(MmioLine(line)))
  {
    var e, text := BytesOf(MmioLine(line)), BytesOf(line);
    BytesOfConcat("[mmio] " + line, "\n");
    BytesOfConcat("[mmio] ", line);
    forall k | 0 <= k < |e| - 1 ensures e[k] != LINE_FEED {
      if k >= 7 {
        assert e[k] == text[k - 7];
      }
    }
    assert MarkedAt(e, 0);
  }

  /** Where t is printed on both sides with e ahead of it, a line starts like an MMIO line. */
  lemma {:induction false} RotatedAt(e: seq<byte>, t: seq<byte>, i: nat)
    requires Marked(e) && |t| > 0 && t[|t| - 1] == LINE_FEED && t <= e + t
    requires i < |e + t| && LineStart(e + t, i)
    ensures MarkedAt(e + t, i)
    decreases i
  {
    var both := e + t;
    if i < |e| {
      assert LineStart(e, i);
      assert MarkedAt(e, i);
    } else {
      var j := i - |e|;
      assert both[j] == t[j] == both[i];
      assert j > 0 ==> both[j - 1] == t[j - 1] == both[i - 1];
      RotatedAt(e, t, j);
      assert j + 1 < |t| ==> both[j + 1] == t[j + 1] == both[i + 1];
    }
  }

  /** So what is ahead behind t consists of such lines, too. */
  lemma {:induction false} Rotated(e: seq<byte>, t: seq<byte>)
    requires Marked(e) && |t| > 0 && t[|t| - 1] == LINE_FEED && t <= e + t
    ensures Marked((e + t)[|t|..])
  {
    var both := e + t;
    var after := both[|t|..];
    assert both[|t| - 1] == t[|t| - 1];
    forall i: nat | i < |after| && LineStart(after, i) ensures MarkedAt(after, i) {
      assert i > 0 ==> after[i - 1] == both[|t| + i - 1];
      RotatedAt(e, t, |t| + i);
    }
  }

  lemma {:induction false} PortLineShape(address: byte, value: byte)
    ensures var out := BytesOf(PortLine(address, value)); out == [] || (|out| > 1 && out[1] != 'm' as int)
  {
    var name := SignalName(value);
    if address == PULSE_PORT {
      assert ("[pulse] " + name + "\n")[1] == 'p';
    } else if address == EMIT_PORT {
      assert ("[emit] " + name + "\n")[1] == 'e';
    }
  }

  /** What prints the same on both sides ends a line. */
  lemma {:induction false} OutputShape(s: Stmt)
    requires !s.Halt? && !IsMmio(s)
    ensures var out := BytesOf(OutputOf(s)); |out| > 0 && out[|out| - 1] == LINE_FEED
  {
    var text := OutputOf(s);
    assert text[|text| - 1] == '\n';
  }

  /** An MMIO line prints nothing in the virtual machine, or something that does not start like its line. */
  lemma {:induction false} MmioStep(s: Stmt, e: seq<byte>, native: seq<byte>, vm: seq<byte>)
    requires IsMmio(s) && OneLine(s.line) && (e == [] || Marked(e))
    ensures var c, d := BytesOf(MmioLine(s.line)), BytesOf(OutputOf(s));
      if d == [] then Marked(e + c) && e + (c + native) == e + c + native else e + (c + native) != d + vm
  {
    var c, d := BytesOf(MmioLine(s.line)), BytesOf(OutputOf(s));
    MmioMarked(s.line);
    assert LineStart(c, 0) && MarkedAt(c, 0);
    if d == [] {
      if e != [] {
        MarkedConcat(e, c);
      } else {
        assert e + c == c;
      }
      ConcatAssoc(e, c, native);
    } else {
      MmioShape(s);
      assert e != [] ==> LineStart(e, 0) && MarkedAt(e, 0);
      assert (e + (c + native))[1] == 'm' as int;
      assert (d + vm)[1] == d[1];
    }
  }

  lemma {:induction false} MmioShape(s: Stmt)
    requires IsMmio(s) && BytesOf(OutputOf(s)) != []
    ensures |BytesOf(OutputOf(s))| > 1 && BytesOf(OutputOf(s))[1] != 'm' as int
  {
    if s.Mmio? {
      PortLineShape(s.address, s.value);
    }
  }

  /** Once the native executable is ahead by such lines, the virtual machine does not catch up. */
  lemma {:induction false} StaysAhead(stmts: seq<Stmt>, e: seq<byte>)
    requires Marked(e) && LinesWhole(stmts)
    ensures e + NativeBytes(stmts) != VmBytes(stmts)
    decreases |stmts|, 1
  {
    if |stmts| == 0 || stmts[0].Halt? {
      assert VmBytes(stmts) == [];
    } else if IsMmio(stmts[0]) {
      MmioStays(stmts, e);
    } else {
      SameStays(stmts, e);
    }
  }

  lemma {:induction false} MmioStays(stmts: seq<Stmt>, e: seq<byte>)
    requires Marked(e) && LinesWhole(stmts) && |stmts| > 0 && IsMmio(stmts[0])
    ensures e + NativeBytes(stmts) != VmBytes(stmts)
    decreases |stmts|, 0
  {
    var s, rest := stmts[0], stmts[1..];
    BytesStep(stmts);
    NoMmioTail(stmts);
    MmioStep(s, e, NativeBytes(rest), VmBytes(rest));
    if BytesOf(OutputOf(s)) == [] {
      StaysAhead(rest, e + BytesOf(MmioLine(s.line)));
    }
  }

  lemma {:induction false} SameStays(stmts: seq<Stmt>, e: seq<byte>)
    requires Marked(e) && LinesWhole(stmts) && |stmts| > 0 && !stmts[0].Halt? && !IsMmio(stmts[0])
    ensures e + NativeBytes(stmts) != VmBytes(stmts)
    decreases |stmts|, 0
  {
    var s, rest := stmts[0], stmts[1..];
    var native, vm, t := NativeBytes(rest), VmBytes(rest), BytesOf(OutputOf(s));
    BytesStep(stmts);
    NoMmioTail(stmts);
    OutputShape(s);
    if e + (t + native) == t + vm {
      AheadOfSame(e, t, native, vm);
      Rotated(e, t);
      StaysAhead(rest, (e + t)[|t|..]);
    }
  }

  lemma {:induction false} AheadOfSame(e: seq<byte>, t: seq<byte>, native: seq<byte>, vm: seq<byte>)
    requires e + (t + native) == t + vm
    ensures t <= e + t && (e + t)[|t|..] + native == vm
  {
    var whole := t + vm;
    assert e + t == whole[..|e + t|];
    assert whole[..|t|] == t;
    assert whole[|t|..] == vm;
    assert (e + t)[|t|..] + native == whole[|t|..];
  }

  lemma {:induction false} NoMmioTail(stmts: seq<Stmt>)
    requires |stmts| > 0
    ensures NoMmio(stmts) <==> !IsMmio(stmts[0]) && NoMmio(stmts[1..])
    ensures LinesWhole(stmts) ==> LinesWhole(stmts[1..])
  {
    assert stmts == [stmts[0]] + stmts[1..];
    assert forall i :: 0 <= i < |stmts[1..]| ==> stmts[1..][i] == stmts[i + 1];
  }

  lemma {:induction false} MmioDiffers(stmts: seq<Stmt>)
    requires LinesWhole(stmts) && |stmts| > 0 && IsMmio(stmts[0])
    ensures NativeBytes(stmts) != VmBytes(stmts)
  {
    var s, rest := stmts[0], stmts[1..];
    var c := BytesOf(MmioLine(s.line));
    BytesStep(stmts);
    NoMmioTail(stmts);
    MmioStep(s, [], NativeBytes(rest), VmBytes(rest));
    assert [] + (c + NativeBytes(rest)) == c + NativeBytes(rest);
    if BytesOf(OutputOf(s)) == [] {
      assert [] + c == c;
      StaysAhead(rest, c);
    }
  }

  /** Both print the same bytes if and only if no output follows the first halt and there is no MMIO write: the virtual
      machine stops at the halt, the native executable knows no halt but the end and prints the line of an MMIO write,
      which no later output makes up for. */
  lemma {:induction false} SameOutputExact(stmts: seq<Stmt>)
    requires LinesWhole(stmts)
    ensures NativeBytes(stmts) == VmBytes(stmts) <==> NothingAfterHalt(stmts) && NoMmio(stmts)
    decreases |stmts|
  {
    if |stmts| > 0 {
      if stmts[0].Halt? {
        HaltsOnly(stmts);
        assert VmBytes(stmts) == [];
        forall j | 0 <= j < |stmts| && NothingAfterHalt(stmts) ensures stmts[j].Halt? {
          assert j > 0 ==> stmts[0].Halt?;
        }
      } else if IsMmio(stmts[0]) {
        MmioDiffers(stmts);
      } else {
        NoMmioTail(stmts);
        NothingAfterHaltTail(stmts);
        SameOutputExact(stmts[1..]);
        BytesStep(stmts);
        SameFront(BytesOf(OutputOf(stmts[0])), NativeBytes(stmts[1..]), VmBytes(stmts[1..]));
      }
    }
  }

  /** The two ways to run a program: what they print and how they end. */
  lemma {:induction false} VmAgreesWithNative(stmts: seq<Stmt>, regs: Registers, s: State)
    requires LinesWhole(stmts) && TextsFit(stmts)
    requires Fits(Native.PayloadChunks(Writes(stmts)))
    requires forall i :: 0 <= i < |Writes(stmts)| ==> |Writes(stmts)[i]| < TWO31
    requires EndsIn(ImageOf(Native.PayloadChunks(Writes(stmts))), regs, s)
    ensures s.Exited? && s.code == 0
    ensures Printed(s.trace) == VmFile(Compiled(stmts)).output <==> NothingAfterHalt(stmts) && NoMmio(stmts)
  {
    var writes := Writes(stmts);
    Native.PayloadRuns(writes, regs);
    OutcomeUnique(ImageOf(Native.PayloadChunks(writes)), regs, s, Exited(0, Native.Events(writes)));
    PrintedEvents(writes);
    CompiledRuns(stmts);
    SameOutputExact(stmts);
  }
}
