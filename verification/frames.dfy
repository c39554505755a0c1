/**
  The frame of a function other than main: its prologue and epilogue on a machine with a stack. Whatever happens in
  between to the stack pointer and below the frame, the caller gets its registers and the control back.
 */
module Frames {
  import opened Aot
  import opened Bytes
  import opened Machine
  import opened Wrappers
  import L = Layout

  /** The instructions of a frame, as the Intel SDM, volume 2, gives them. */
  datatype FrameInstr =
    | PushRbp
    | MovRbpRsp
    | AddRsp(imm: int)
    | MovRspRbp
    | PopRbp
    | Return

  function DecodeFrame(m: seq<byte>, p: nat): Option<(FrameInstr, nat)> {
    if p + 1 <= |m| && m[p] == 0x55 then Some((PushRbp, 1))
    else if p + 1 <= |m| && m[p] == 0x5D then Some((PopRbp, 1))
    else if p + 1 <= |m| && m[p] == 0xC3 then Some((Return, 1))
    else if p + 3 <= |m| && m[p] == 0x48 && m[p + 1] == 0x89 && m[p + 2] == 0xE5 then Some((MovRbpRsp, 3))
    else if p + 3 <= |m| && m[p] == 0x48 && m[p + 1] == 0x89 && m[p + 2] == 0xEC then Some((MovRspRbp, 3))
    else if p + 7 <= |m| && m[p] == 0x48 && m[p + 1] == 0x81 && m[p + 2] == 0xC4 then
      FromLittleEndianBound(m[p + 3..p + 7]);
      Widths();
      Some((AddRsp(SignExtend32(FromLittleEndian(m[p + 3..p + 7]))), 7))
    else None
  }

  /** Stack memory by the address of each eight-byte slot. */
  datatype Frame = Frame(rsp: Word, rbp: Word, rip: int, stack: map<Word, Word>)

  function Wrapped(v: int): Word {
    v % TWO64
  }

  /** One instruction; None where it reads a slot that was never written. */
  function Do(s: Frame, i: FrameInstr, length: nat): Option<Frame> {
    var next := s.rip + length;
    match i
    case PushRbp =>
      var top := Wrapped(s.rsp - 8);
      Some(s.(rsp := top, stack := s.stack[top := s.rbp], rip := next))
    case MovRbpRsp => Some(s.(rbp := s.rsp, rip := next))
    case AddRsp(imm) => Some(s.(rsp := Wrapped(s.rsp + imm), rip := next))
    case MovRspRbp => Some(s.(rsp := s.rbp, rip := next))
    case PopRbp =>
      if s.rsp !in s.stack then None
      else Some(s.(rbp := s.stack[s.rsp], rsp := Wrapped(s.rsp + 8), rip := next))
    case Return =>
      if s.rsp !in s.stack then None
      else Some(s.(rip := s.stack[s.rsp], rsp := Wrapped(s.rsp + 8)))
  }

  /** n instructions of code that is loaded at base. */
  function Runs(m: seq<byte>, base: int, s: Frame, n: nat): Option<Frame>
    decreases n
  {
    if n == 0 then Some(s)
    else if s.rip < base then None
    else
      match DecodeFrame(m, s.rip - base)
      case None => None
      case Some((i, length)) =>
        match Do(s, i, length)
        case None => None
        case Some(t) => Runs(m, base, t, n - 1)
  }

  lemma {:induction false} RunNext(m: seq<byte>, base: int, s: Frame, i: FrameInstr, length: nat, t: Frame, n: nat)
    requires n > 0 && s.rip >= base && DecodeFrame(m, s.rip - base) == Some((i, length)) && Do(s, i, length) == Some(t)
    ensures Runs(m, base, s, n) == Runs(m, base, t, n - 1)
  {
  }

  /** The frame set up: the caller's rbp is saved below the return address, and the locals lie below that. */
  ghost predicate SetUp(before: Frame, after: Frame, room: int) {
    Saved(before, after) && after.rsp == Wrapped(before.rsp - 8 - room)
  }

  ghost predicate Saved(before: Frame, after: Frame) {
    after.rbp == Wrapped(before.rsp - 8) && after.stack == before.stack[after.rbp := before.rbp]
  }

  lemma {:induction false} Stands(m: seq<byte>, p: nat, code: seq<byte>)
    requires Holds(m, p, code)
    ensures p + |code| <= |m| && forall k :: 0 <= k < |code| ==> m[p + k] == code[k]
  {
    forall k | 0 <= k < |code| ensures m[p + k] == code[k] {
      assert m[p + k] == m[p..p + |code|][k];
    }
  }

  lemma {:induction false} DecodeEntry(m: seq<byte>, p: nat)
    requires Holds(m, p, [0x55, 0x48, 0x89, 0xE5])
    ensures DecodeFrame(m, p) == Some((PushRbp, 1)) && DecodeFrame(m, p + 1) == Some((MovRbpRsp, 3))
  {
    Stands(m, p, [0x55, 0x48, 0x89, 0xE5]);
    assert m[p + 2] == 0x89 && m[p + 3] == 0xE5;
  }

  lemma {:induction false} DecodeRoom(m: seq<byte>, p: nat, imm: int)
    requires Holds(m, p, AddRegImm32(RSP, imm))
    ensures DecodeFrame(m, p) == Some((AddRsp(SignExtend32(ToU32(imm))), 7))
  {
    var field := LittleEndian(ToU32(imm), 4);
    Stands(m, p, [0x48, 0x81, 0xC0 + RSP] + field);
    HoldsSplit(m, p, [0x48, 0x81, 0xC0 + RSP], field);
    assert m[p + 3..p + 7] == field;
    Widths();
    LittleEndianRoundTrip(ToU32(imm), 4);
  }

  lemma {:induction false} WrapTwice(a: int, d: int)
    ensures Wrapped(Wrapped(a) + d) == Wrapped(a + d)
  {
    var q := a / TWO64;
    WrapShift(Wrapped(a) + d, q);
    assert Wrapped(a) + d + q * TWO64 == a + d;
  }

  lemma {:induction false} WrapShift(a: int, q: int)
    ensures Wrapped(a + q * TWO64) == Wrapped(a)
  {
  }

  lemma {:induction false} Congruent(a: int, b: int)
    requires -TWO64 < a - b < 2 * TWO64
    ensures Wrapped(a) == Wrapped(b) <==> a == b || a == b + TWO64
  {
  }

  /** Sizes whose negative is a sign-extended 32-bit number of 64 bits. */
  predicate SmallSize(size: int) {
    size <= TWO31 || size > TWO64 - TWO31
  }

  lemma {:induction false} RoomExact(rsp: int, size: int)
    requires 0 < size < TWO64
    ensures Wrapped(rsp + SignExtend32(ToU32(-size))) == Wrapped(rsp - size) <==> SmallSize(size)
  {
    var u := ToU32(-size);
    var q := (-size) / TWO32;
    assert -size == q * TWO32 + u;
    Congruent(rsp + SignExtend32(u), rsp - size);
  }

  /** push rbp; mov rbp, rsp */
  lemma {:induction false} EntryRuns(m: seq<byte>, base: int, s: Frame) returns (t: Frame)
    requires s.rip >= base && Holds(m, s.rip - base, [0x55, 0x48, 0x89, 0xE5])
    ensures Runs(m, base, s, 2) == Some(t) && forall n :: n >= 2 ==> Runs(m, base, s, n) == Runs(m, base, t, n - 2)
    ensures t == Frame(Wrapped(s.rsp - 8), Wrapped(s.rsp - 8), s.rip + 4, s.stack[Wrapped(s.rsp - 8) := s.rbp])
  {
    DecodeEntry(m, s.rip - base);
    var pushed := Do(s, PushRbp, 1).value;
    t := Do(pushed, MovRbpRsp, 3).value;
    forall n | n >= 2 ensures Runs(m, base, s, n) == Runs(m, base, t, n - 2) {
      RunNext(m, base, s, PushRbp, 1, pushed, n);
      RunNext(m, base, pushed, MovRbpRsp, 3, t, n - 1);
    }
    assert Runs(m, base, s, 2) == Runs(m, base, t, 0);
  }

  /** add rsp, imm32 */
  lemma {:induction false} RoomRuns(m: seq<byte>, base: int, s: Frame, size: int) returns (t: Frame)
    requires s.rip >= base && Holds(m, s.rip - base, AddRegImm32(RSP, -size))
    ensures t == s.(rsp := Wrapped(s.rsp + SignExtend32(ToU32(-size))), rip := s.rip + 7)
    ensures Runs(m, base, s, 1) == Some(t)
  {
    var add := AddRsp(SignExtend32(ToU32(-size)));
    DecodeRoom(m, s.rip - base, -size);
    t := Do(s, add, 7).value;
    RunNext(m, base, s, add, 7, t, 1);
    assert Runs(m, base, t, 0) == Some(t);
  }

  lemma {:induction false} SetUpExact(s: Frame, t: Frame, size: int)
    requires 0 < size < TWO64
    requires t.rsp == Wrapped(Wrapped(s.rsp - 8) + SignExtend32(ToU32(-size)))
    requires Saved(s, t)
    ensures SetUp(s, t, size) <==> SmallSize(size)
  {
    WrapTwice(s.rsp - 8, SignExtend32(ToU32(-size)));
    RoomExact(s.rsp - 8, size);
  }

  lemma {:induction false} RoomPrologue(m: seq<byte>, base: int, s: Frame, size: int) returns (t: Frame)
    requires 0 < size < TWO64
    requires s.rip >= base && Holds(m, s.rip - base, [0x55, 0x48, 0x89, 0xE5] + AddRegImm32(RSP, -size))
    ensures Runs(m, base, s, 3) == Some(t) && t.rip == s.rip + 11
    ensures SetUp(s, t, size) <==> SmallSize(size)
    ensures Saved(s, t)
  {
    HoldsSplit(m, s.rip - base, [0x55, 0x48, 0x89, 0xE5], AddRegImm32(RSP, -size));
    var entered := EntryRuns(m, base, s);
    t := RoomRuns(m, base, entered, size);
    SetUpExact(s, t, size);
  }

  /** The prologue makes room for just the locals, modulo 2^64, if and only if their size is no more than 2^31 bytes or
      within 2^31 of 2^64. The caller's rbp is saved in any case. */
  lemma {:induction false} PrologueExact(f: IRFunction, m: seq<byte>, base: int, s: Frame) returns (t: Frame, n: nat)
    requires f.name != "main" && s.rip >= base && Holds(m, s.rip - base, Prologue(f).code)
    ensures Runs(m, base, s, n) == Some(t) && t.rip == s.rip + |Prologue(f).code|
    ensures SetUp(s, t, f.stackSize) <==> SmallSize(f.stackSize)
    ensures Saved(s, t)
  {
    if f.stackSize == 0 {
      assert Prologue(f).code == [0x55, 0x48, 0x89, 0xE5];
      t := EntryRuns(m, base, s);
      n := 2;
    } else {
      t := RoomPrologue(m, base, s, f.stackSize);
      n := 3;
    }
  }

  lemma {:induction false} DecodeExit(m: seq<byte>, p: nat)
    requires Holds(m, p, [0x48, 0x89, 0xEC, 0x5D, 0xC3])
    ensures DecodeFrame(m, p) == Some((MovRspRbp, 3)) && DecodeFrame(m, p + 3) == Some((PopRbp, 1))
    ensures DecodeFrame(m, p + 4) == Some((Return, 1))
  {
    Stands(m, p, [0x48, 0x89, 0xEC, 0x5D, 0xC3]);
    assert m[p + 1] == 0x89 && m[p + 2] == 0xEC && m[p + 3] == 0x5D && m[p + 4] == 0xC3;
  }

  /** The epilogue gives the caller's rbp and the control back, and takes the frame away, whatever rsp has become. */
  lemma {:induction false} EpilogueReturns(f: IRFunction, m: seq<byte>, base: int, s: Frame)
    requires f.name != "main" && s.rip >= base && Holds(m, s.rip - base, Epilogue(f).code)
    requires s.rbp in s.stack && Wrapped(s.rbp + 8) in s.stack
    ensures Runs(m, base, s, 3)
         == Some(Frame(Wrapped(s.rbp + 16), s.stack[s.rbp], s.stack[Wrapped(s.rbp + 8)], s.stack))
  {
    var p := s.rip - base;
    assert Epilogue(f).code == [0x48, 0x89, 0xEC, 0x5D, 0xC3];
    DecodeExit(m, p);
    var moved := Do(s, MovRspRbp, 3).value;
    var popped := Do(moved, PopRbp, 1).value;
    var back := Do(popped, Return, 1).value;
    RunNext(m, base, s, MovRspRbp, 3, moved, 3);
    RunNext(m, base, moved, PopRbp, 1, popped, 2);
    RunNext(m, base, popped, Return, 1, back, 1);
  }

  /** What a function may do between prologue and epilogue: anything that keeps rbp and the two slots of the frame. */
  ghost predicate Keeps(s: Frame, inside: Frame) {
    var slot := Wrapped(s.rsp - 8);
    && inside.rbp == slot && slot in inside.stack && inside.stack[slot] == s.rbp
    && s.rsp in s.stack && s.rsp in inside.stack && inside.stack[s.rsp] == s.stack[s.rsp]
  }

  lemma {:induction false} SlotBack(rsp: Word)
    ensures Wrapped(Wrapped(rsp - 8) + 8) == rsp && Wrapped(Wrapped(rsp - 8) + 16) == Wrapped(rsp + 8)
  {
    WrapTwice(rsp - 8, 8);
    WrapTwice(rsp - 8, 16);
  }

  /** A function that keeps its frame goes back to its caller: with the caller's rbp, the return address taken off, and
      control where it says. */
  lemma {:induction false} CallReturns(f: IRFunction, m: seq<byte>, base: int, s: Frame, inside: Frame)
    requires f.name != "main" && Keeps(s, inside)
    requires inside.rip >= base && Holds(m, inside.rip - base, Epilogue(f).code)
    ensures Runs(m, base, inside, 3) == Some(Frame(Wrapped(s.rsp + 8), s.rbp, s.stack[s.rsp], inside.stack))
  {
    SlotBack(s.rsp);
    EpilogueReturns(f, m, base, inside);
  }

  /** The prologue itself leaves such a frame, if the return address is on the stack. */
  lemma {:induction false} SavedKeeps(s: Frame, t: Frame)
    requires Saved(s, t) && s.rsp in s.stack
    ensures Keeps(s, t)
  {
    SlotBack(s.rsp);
  }
}
