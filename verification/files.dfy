/**
  The virtual machine on any file at all, compiled or not: what it prints, and why it stops.
 */
module Files {
  import opened Bytecode
  import opened Bytes
  import opened Wrappers

  /** An instruction that lets the machine go on. */
  datatype Ins = SayIns(text: seq<byte>) | LoadIns(value: byte) | StoreIns(port: byte)

  predicate Encodable(i: Ins) {
    i.SayIns? ==> |i.text| < TWO32
  }

  function Encoded(i: Ins): (s: seq<byte>)
    ensures |s| > 0
  {
    match i
    case SayIns(text) => [2] + LittleEndian(|text| % TWO32, 4) + text
    case LoadIns(value) => [3, value]
    case StoreIns(port) => [4, port]
  }

  function AllEncoded(code: seq<Ins>): seq<byte> {
    if |code| == 0 then [] else Encoded(code[0]) + AllEncoded(code[1..])
  }

  predicate AllEncodable(code: seq<Ins>) {
    forall k :: 0 <= k < |code| ==> Encodable(code[k])
  }

  function Accumulated(i: Ins, acc: byte): byte {
    if i.LoadIns? then i.value else acc
  }

  function Output(i: Ins, acc: byte): seq<byte> {
    match i
    case SayIns(text) => text + [LINE_FEED]
    case LoadIns(_) => []
    case StoreIns(port) => BytesOf(PortLine(port, acc))
  }

  function AllOutput(code: seq<Ins>, acc: byte): seq<byte> {
    if |code| == 0 then [] else Output(code[0], acc) + AllOutput(code[1..], Accumulated(code[0], acc))
  }

  /** Why the machine stops at these bytes: at their end, at a halt, at an instruction that is not complete, or at a
      byte that is no instruction; None if there is a complete instruction. */
  function StopsAt(rest: seq<byte>): Option<Status> {
    if rest == [] then Some(NoHalt)
    else if rest[0] == 1 then Some(Halted)
    else if rest[0] == 2 then
      if |rest| < 5 then Some(TruncatedSayLength)
      else if |rest| - 5 < FromLittleEndian(rest[1..5]) then Some(TruncatedSayPayload)
      else None
    else if rest[0] == 3 then if |rest| == 1 then Some(TruncatedLoad) else None
    else if rest[0] == 4 then if |rest| == 1 then Some(TruncatedStore) else None
    else Some(UnsupportedOpcode(rest[0]))
  }

  lemma {:induction false} LengthRead(bytes: seq<byte>, p: nat)
    requires p + 4 <= |bytes|
    ensures ReadU32(bytes, p) == FromLittleEndian(bytes[p..p + 4])
  {
    var f := bytes[p..p + 4];
    assert f[1..][1..] == f[2..] && f[2..][1..] == f[3..] && f[3..][1..] == [];
    var f1: nat, f2: nat, f3: nat := f[1], f[2], f[3];
    assert FromLittleEndian(f[3..]) == f3;
    assert FromLittleEndian(f[2..]) == f2 + 256 * f3;
    assert FromLittleEndian(f[1..]) == f1 + 256 * (f2 + 256 * f3);
  }

  lemma {:induction false} StopStep(bytes: seq<byte>, p: nat, acc: byte)
    requires p <= |bytes|
    ensures StopsAt(bytes[p..]) != None <==> StepAt(bytes, p, acc).Stop?
    ensures StopsAt(bytes[p..]) != None ==> StepAt(bytes, p, acc) == Stop(StopsAt(bytes[p..]).value)
  {
    var rest := bytes[p..];
    if |rest| >= 5 && rest[0] == 2 {
      assert rest[1..5] == bytes[p + 1..p + 5];
      LengthRead(bytes, p + 1);
    }
  }

  lemma {:induction false} InsStep(bytes: seq<byte>, p: nat, acc: byte, i: Ins, rest: seq<byte>, q: nat)
    requires p <= |bytes| && bytes[p..] == Encoded(i) + rest && Encodable(i) && q == p + |Encoded(i)|
    ensures q <= |bytes| && bytes[q..] == rest
    ensures StepAt(bytes, p, acc) == Next(Output(i, acc), q, Accumulated(i, acc))
  {
    assert bytes[q..] == bytes[p..][|Encoded(i)|..];
    assert bytes[p] == Encoded(i)[0];
    if i.SayIns? {
      SayStep(bytes, p, acc, i.text, rest, q);
    } else {
      assert bytes[p + 1] == Encoded(i)[1];
    }
  }

  lemma {:induction false} SayStep(bytes: seq<byte>, p: nat, acc: byte, text: seq<byte>, rest: seq<byte>, q: nat)
    requires p <= |bytes| && bytes[p..] == Encoded(SayIns(text)) + rest && |text| < TWO32
    requires q == p + |Encoded(SayIns(text))|
    ensures StepAt(bytes, p, acc) == Next(text + [LINE_FEED], q, acc)
  {
    var f := LittleEndian(|text|, 4);
    SayParts(bytes, p, f, text, rest);
    Widths();
    LittleEndianRoundTrip(|text|, 4);
    LengthRead(bytes, p + 1);
    SayTaken(bytes, p, acc, text, q);
  }

  lemma {:induction false} SayTaken(bytes: seq<byte>, p: nat, acc: byte, text: seq<byte>, q: nat)
    requires q == p + 5 + |text| <= |bytes| && bytes[p] == 2
    requires ReadU32(bytes, p + 1) == |text| && bytes[p + 5..q] == text
    ensures StepAt(bytes, p, acc) == Next(text + [LINE_FEED], q, acc)
  {
    assert SayAt(bytes, p, acc) == Next(text + [LINE_FEED], q, acc);
  }

  lemma {:induction false} SayParts(bytes: seq<byte>, p: nat, f: seq<byte>, text: seq<byte>, rest: seq<byte>)
    requires p <= |bytes| && bytes[p..] == [2] + f + text + rest && |f| == 4
    ensures p + 5 + |text| <= |bytes| && bytes[p] == 2
    ensures bytes[p + 1..p + 5] == f && bytes[p + 5..p + 5 + |text|] == text
  {
    var tail := bytes[p..];
    assert |tail| == |bytes| - p && |tail| == 5 + |text| + |rest|;
    assert tail[0] == 2;
    assert tail[1..5] == f;
    assert tail[5..5 + |text|] == text;
    assert bytes[p + 1..p + 5] == tail[1..5];
    assert bytes[p + 5..p + 5 + |text|] == tail[5..5 + |text|];
  }

  lemma {:induction false} RunsThrough(bytes: seq<byte>, p: nat, acc: byte, code: seq<Ins>, rest: seq<byte>)
    requires p <= |bytes| && bytes[p..] == AllEncoded(code) + rest && AllEncodable(code) && StopsAt(rest) != None
    ensures Vm(bytes, p, acc) == Bytecode.Result(AllOutput(code, acc), StopsAt(rest).value)
    decreases |code|
  {
    if |code| == 0 {
      assert bytes[p..] == rest;
      StopStep(bytes, p, acc);
    } else {
      var i, more := code[0], AllEncoded(code[1..]) + rest;
      var q := p + |Encoded(i)|;
      ConcatAssoc(Encoded(i), AllEncoded(code[1..]), rest);
      InsStep(bytes, p, acc, i, more, q);
      RunsThrough(bytes, q, Accumulated(i, acc), code[1..], rest);
    }
  }

  /** Any file with the magic number that holds complete instructions and then something to stop at. */
  lemma {:induction false} FileRuns(code: seq<Ins>, rest: seq<byte>)
    requires AllEncodable(code) && StopsAt(rest) != None
    ensures VmFile([0x4E, 0x41, 0x4E, 0x33] + (AllEncoded(code) + rest))
         == Bytecode.Result(AllOutput(code, 0), StopsAt(rest).value)
  {
    var bytes := MAGIC + (AllEncoded(code) + rest);
    assert bytes[..4] == MAGIC && bytes[4..] == AllEncoded(code) + rest;
    RunsThrough(bytes, 4, 0, code, rest);
  }

  /** And every file with the magic number is of this kind; the others are turned down. */
  lemma {:induction false} EveryFile(bytes: seq<byte>) returns (code: seq<Ins>, rest: seq<byte>)
    ensures |bytes| < 4 ==> VmFile(bytes) == Bytecode.Result([], TruncatedFile)
    ensures |bytes| >= 4 && bytes[..4] != [0x4E, 0x41, 0x4E, 0x33] ==>
      VmFile(bytes) == Bytecode.Result([], InvalidMagic)
    ensures |bytes| >= 4 && bytes[..4] == [0x4E, 0x41, 0x4E, 0x33] ==>
      && AllEncodable(code) && StopsAt(rest) != None
      && bytes == [0x4E, 0x41, 0x4E, 0x33] + (AllEncoded(code) + rest)
  {
    if |bytes| >= 4 {
      code, rest := Parsed(bytes[4..]);
      assert bytes == bytes[..4] + bytes[4..];
    } else {
      code, rest := [], [];
    }
  }

  lemma {:induction false} Parsed(bytes: seq<byte>) returns (code: seq<Ins>, rest: seq<byte>)
    ensures AllEncodable(code) && StopsAt(rest) != None && bytes == AllEncoded(code) + rest
    decreases |bytes|
  {
    if StopsAt(bytes) != None {
      code, rest := [], bytes;
    } else {
      var i, n := FirstIns(bytes);
      var more;
      more, rest := Parsed(bytes[n..]);
      code := [i] + more;
      assert code[1..] == more;
      ConcatAssoc(Encoded(i), AllEncoded(more), rest);
      assert bytes == bytes[..n] + bytes[n..];
    }
  }

  lemma {:induction false} FirstIns(bytes: seq<byte>) returns (i: Ins, n: nat)
    requires StopsAt(bytes) == None
    ensures 0 < n <= |bytes| && bytes[..n] == Encoded(i) && Encodable(i)
  {
    if bytes[0] == 2 {
      var f := bytes[1..5];
      var length := FromLittleEndian(f);
      n := 5 + length;
      i := SayIns(bytes[5..n]);
      Widths();
      FromLittleEndianBound(f);
      SameField(f);
      assert bytes[..n] == [2] + f + bytes[5..n];
    } else if bytes[0] == 3 {
      i, n := LoadIns(bytes[1]), 2;
    } else {
      i, n := StoreIns(bytes[1]), 2;
    }
  }

  lemma {:induction false} FieldFirst(low: byte, high: nat, n: nat)
    ensures LittleEndian(low + 256 * high, n + 1) == [low] + LittleEndian(high, n)
  {
    var v := low + 256 * high;
    assert v % 256 == low && v / 256 == high;
    var field := LittleEndian(v, n + 1);
    assert field[0] == low;
    forall i | 0 <= i < n ensures field[i + 1] == LittleEndian(high, n)[i] {
      assert Shr8(v, i + 1) == Shr8(high, i);
    }
  }

  /** A field is the one its number is written to. */
  lemma {:induction false} SameField(f: seq<byte>)
    ensures LittleEndian(FromLittleEndian(f), |f|) == f
    decreases |f|
  {
    if |f| > 0 {
      SameField(f[1..]);
      FieldFirst(f[0], FromLittleEndian(f[1..]), |f| - 1);
      assert f == [f[0]] + f[1..];
    }
  }
}
