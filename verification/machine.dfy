/**
  The part of an x86-64 Linux process that the two native back ends use: one loaded segment, the sixteen
  general registers, the instructions that are emitted (Intel 64 and IA-32 SDM, Volume 2; RIP-relative addressing
  is section 2.2.1.6) and the two system calls write and exit. A write is one atomic full write.
 */
module Machine {
  import opened Bytes

  const RAX: nat := 0
  const RCX: nat := 1
  const RDX: nat := 2
  const RSP: nat := 4
  const RSI: nat := 6
  const RDI: nat := 7

  const SYS_WRITE: Word := 1
  const SYS_EXIT: Word := 60

  type Registers = r: seq<Word> | |r| == 16 witness [0, 0, 0, 0, 0, 0, 0, 0, 0, 0, 0, 0, 0, 0, 0, 0]

  datatype Image = Image(base: nat, bytes: seq<byte>, readable: bool, executable: bool, entry: nat)

  datatype Instr =
    | MovImm(reg: nat, value: Word)
    | LeaRip(reg: nat, disp: int)
    | Clear(reg: nat)
    | Syscall
    | Nop
    | Ret

  datatype Decoded = Undefined | Decoded(instr: Instr, length: nat)

  datatype Event = Write(fd: Word, data: seq<byte>)

  datatype State =
    | Running(regs: Registers, rip: nat, trace: seq<Event>)
    | Exited(code: Word, trace: seq<Event>)
    | Faulted(trace: seq<Event>)

  /** A sign-extended 32-bit value as a 64-bit word. */
  function Extend(u: nat): Word
    requires u < TWO32
  {
    SignExtend32(u) % TWO64
  }

  /** The instruction whose first byte is m[p]. */
  function Decode(m: seq<byte>, p: nat): (d: Decoded)
    ensures d.Decoded? ==> p + d.length <= |m|
    ensures d.Decoded? && !d.instr.Syscall? && !d.instr.Nop? && !d.instr.Ret? ==> d.instr.reg < 16
  {
    if p + 10 <= |m| && (m[p] == 0x48 || m[p] == 0x49) && 0xB8 <= m[p + 1] <= 0xBF then
      // REX.W + B8+rd io: mov r64, imm64
      FromLittleEndianBound(m[p + 2..p + 10]);
      Widths();
      Decoded(MovImm(m[p + 1] - 0xB8 + (if m[p] == 0x49 then 8 else 0), FromLittleEndian(m[p + 2..p + 10])), 10)
    else if p + 7 <= |m| && m[p] == 0x48 && m[p + 1] == 0xC7 && 0xC0 <= m[p + 2] <= 0xC7 then
      // REX.W + C7 /0 id: mov r/m64, imm32 sign-extended
      FromLittleEndianBound(m[p + 3..p + 7]);
      Widths();
      Decoded(MovImm(m[p + 2] - 0xC0, Extend(FromLittleEndian(m[p + 3..p + 7]))), 7)
    else if p + 7 <= |m| && m[p] == 0x48 && m[p + 1] == 0x8D && m[p + 2] == 0x35 then
      // REX.W + 8D /r with mod = 00, reg = rsi, rm = 101: lea rsi, [rip + disp32]
      FromLittleEndianBound(m[p + 3..p + 7]);
      Widths();
      Decoded(LeaRip(RSI, SignExtend32(FromLittleEndian(m[p + 3..p + 7]))), 7)
    else if p + 3 <= |m| && m[p] == 0x48 && m[p + 1] == 0x31 && m[p + 2] == 0xFF then
      // REX.W + 31 /r with mod = 11 and both operands rdi: xor rdi, rdi
      Decoded(Clear(RDI), 3)
    else if p + 2 <= |m| && m[p] == 0x0F && m[p + 1] == 0x05 then
      Decoded(Syscall, 2)
    else if p + 1 <= |m| && m[p] == 0x90 then
      Decoded(Nop, 1)
    else if p + 1 <= |m| && m[p] == 0xC3 then
      Decoded(Ret, 1)
    else
      Undefined
  }

  /**
    One instruction. Anything the model does not give a meaning to faults: an undefined encoding, a fetch or a
    buffer outside the segment, another system call, or a return, which at process entry has no return address.
   */
  function Step(img: Image, s: State): State {
    match s
    case Exited(_, _) => s
    case Faulted(_) => s
    case Running(regs, rip, trace) =>
      if !img.executable || rip < img.base then
        Faulted(trace)
      else
        match Decode(img.bytes, rip - img.base)
        case Undefined => Faulted(trace)
        case Decoded(instr, length) =>
          var next := rip + length;
          match instr
          case MovImm(r, v) => Running(regs[r := v], next, trace)
          case LeaRip(r, d) => Running(regs[r := (next + d) % TWO64], next, trace)
          case Clear(r) => Running(regs[r := 0], next, trace)
          case Nop => Running(regs, next, trace)
          case Ret => Faulted(trace)
          case Syscall =>
            if regs[RAX] == SYS_EXIT then
              Exited(regs[RDI], trace)
            else if regs[RAX] == SYS_WRITE && img.readable && next < TWO64 &&
                    img.base <= regs[RSI] && regs[RSI] + regs[RDX] <= img.base + |img.bytes| then
              var from := regs[RSI] - img.base;
              Running(regs[RAX := regs[RDX]][RCX := next], next,
                      trace + [Write(regs[RDI], img.bytes[from..from + regs[RDX]])])
            else
              Faulted(trace)
  }

  function Run(img: Image, s: State, n: nat): State
    decreases n
  {
    if n == 0 then s else Run(img, Step(img, s), n - 1)
  }

  /** Started at its entry point with these registers, the program ends in state s. */
  ghost predicate EndsIn(img: Image, regs: Registers, s: State) {
    !s.Running? && exists n: nat :: Run(img, Running(regs, img.entry, []), n) == s
  }

  lemma {:induction false} RunAdd(img: Image, s: State, a: nat, b: nat)
    ensures Run(img, s, a + b) == Run(img, Run(img, s, a), b)
    decreases a
  {
    if a > 0 {
      RunAdd(img, Step(img, s), a - 1, b);
    }
  }

  lemma {:induction false} Join(img: Image, s: State, a: nat, t: State, b: nat, end: State) returns (n: nat)
    requires Run(img, s, a) == t && Run(img, t, b) == end
    ensures Run(img, s, n) == end
  {
    RunAdd(img, s, a, b);
    n := a + b;
  }

  lemma {:induction false} StoppedStays(img: Image, s: State, n: nat)
    requires !s.Running?
    ensures Run(img, s, n) == s
  {
    if n > 0 {
      StoppedStays(img, s, n - 1);
    }
  }

  /** A program has at most one outcome. */
  lemma {:induction false} OutcomeUnique(img: Image, regs: Registers, s: State, t: State)
    requires EndsIn(img, regs, s) && EndsIn(img, regs, t)
    ensures s == t
  {
    var start := Running(regs, img.entry, []);
    var n: nat :| Run(img, start, n) == s;
    var m: nat :| Run(img, start, m) == t;
    if n <= m {
      RunAdd(img, start, n, m - n);
      StoppedStays(img, s, m - n);
    } else {
      RunAdd(img, start, m, n - m);
      StoppedStays(img, t, n - m);
    }
  }

  // Encodings.

  /** mov r64, imm64 */
  function MovImm64(reg: nat, v: nat): (s: seq<byte>)
    requires reg < 16
    ensures |s| == 10
  {
    [if reg >= 8 then 0x49 else 0x48, 0xB8 + reg % 8] + LittleEndian(v, 8)
  }

  /** mov r64, imm32 for one of the low eight registers; modrm is 0xC0 + the register. */
  function MovImm32(modrm: byte, v: nat): (s: seq<byte>)
    ensures |s| == 7
  {
    [0x48, 0xC7, modrm] + LittleEndian(v, 4)
  }

  const LEA_RSI: seq<byte> := [0x48, 0x8D, 0x35]
  const SYSCALL_CODE: seq<byte> := [0x0F, 0x05]

  lemma {:induction false} DecodeMovImm64(m: seq<byte>, p: nat, reg: nat, v: Word)
    requires reg < 16 && Holds(m, p, MovImm64(reg, v))
    ensures Decode(m, p) == Decoded(MovImm(reg, v), 10)
  {
    var s := m[p..p + 10];
    assert m[p] == s[0] && m[p + 1] == s[1];
    assert m[p + 2..p + 10] == s[2..] == LittleEndian(v, 8);
    Widths();
    LittleEndianRoundTrip(v, 8);
  }

  lemma {:induction false} DecodeMovImm32(m: seq<byte>, p: nat, modrm: byte, v: nat)
    requires 0xC0 <= modrm <= 0xC7 && v < TWO31 && Holds(m, p, MovImm32(modrm, v))
    ensures Decode(m, p) == Decoded(MovImm(modrm - 0xC0, v), 7)
  {
    var s := m[p..p + 7];
    assert m[p] == s[0] && m[p + 1] == s[1] && m[p + 2] == s[2];
    assert m[p + 3..p + 7] == s[3..] == LittleEndian(v, 4);
    Widths();
    LittleEndianRoundTrip(v, 4);
  }

  lemma {:induction false} DecodeLeaRsi(m: seq<byte>, p: nat, disp: nat)
    requires disp < TWO31 && Holds(m, p, LEA_RSI + LittleEndian(disp, 4))
    ensures Decode(m, p) == Decoded(LeaRip(RSI, disp), 7)
  {
    var s := m[p..p + 7];
    assert m[p] == s[0] && m[p + 1] == s[1] && m[p + 2] == s[2];
    assert m[p + 3..p + 7] == s[3..] == LittleEndian(disp, 4);
    Widths();
    LittleEndianRoundTrip(disp, 4);
  }

  lemma {:induction false} DecodeSyscall(m: seq<byte>, p: nat)
    requires Holds(m, p, SYSCALL_CODE)
    ensures Decode(m, p) == Decoded(Syscall, 2)
  {
    var s := m[p..p + 2];
    assert m[p] == s[0] && m[p + 1] == s[1];
  }

  /** The instruction at offset p of the segment is i. */
  ghost predicate At(img: Image, p: nat, i: Instr, length: nat) {
    img.executable && Decode(img.bytes, p) == Decoded(i, length)
  }

  lemma {:induction false} StepMov(img: Image, regs: Registers, p: nat, reg: nat, v: Word, length: nat,
          trace: seq<Event>)
    requires reg < 16 && At(img, p, MovImm(reg, v), length)
    ensures Step(img, Running(regs, img.base + p, trace)) == Running(regs[reg := v], img.base + p + length, trace)
  {
  }

  lemma {:induction false} StepLea(img: Image, regs: Registers, p: nat, reg: nat, disp: nat, length: nat,
          trace: seq<Event>)
    requires reg < 16 && At(img, p, LeaRip(reg, disp), length) && img.base + p + length + disp < TWO64
    ensures Step(img, Running(regs, img.base + p, trace))
         == Running(regs[reg := img.base + p + length + disp], img.base + p + length, trace)
  {
  }

  lemma {:induction false} StepWrite(img: Image, regs: Registers, p: nat, at: nat, data: seq<byte>, trace: seq<Event>)
    requires At(img, p, Syscall, 2) && img.readable && img.base + |img.bytes| < TWO64 && p + 2 <= |img.bytes|
    requires regs[RAX] == 1 && regs[RSI] == img.base + at && regs[RDX] == |data| && Holds(img.bytes, at, data)
    ensures Step(img, Running(regs, img.base + p, trace))
         == Running(regs[RAX := |data|][RCX := img.base + p + 2], img.base + p + 2, trace + [Write(regs[RDI], data)])
  {
  }

  lemma {:induction false} StepExit(img: Image, regs: Registers, p: nat, trace: seq<Event>)
    requires At(img, p, Syscall, 2) && regs[RAX] == 60
    ensures Step(img, Running(regs, img.base + p, trace)) == Exited(regs[RDI], trace)
  {
  }

  /** lea in front of m steps. */
  lemma {:induction false} RunLea(img: Image, s: State, p: nat, disp: nat, t: State, m: nat, end: State)
    returns (n: nat)
    requires img.executable && disp < TWO31 && Holds(img.bytes, p, LEA_RSI + LittleEndian(disp, 4))
    requires s.Running? && s.rip == img.base + p && s.rip + 7 + disp < TWO64
    requires t == Running(s.regs[RSI := s.rip + 7 + disp], s.rip + 7, s.trace) && Run(img, t, m) == end
    ensures Run(img, s, n) == end
  {
    DecodeLeaRsi(img.bytes, p, disp);
    StepLea(img, s.regs, p, RSI, disp, 7, s.trace);
    n := Prepend(img, s, t, m, end);
  }

  /** The length, and then the kernel: the data at rsi is written. */
  lemma {:induction false} RunWrite(img: Image, s: State, p: nat, w: nat, at: nat, data: seq<byte>, next: nat)
      returns (n: nat, after: Registers)
    requires img.readable && img.base + |img.bytes| < TWO64 && |data| < TWO64
    requires At(img, p, MovImm(RDX, |data|), w) && At(img, p + w, Syscall, 2) && p + w + 2 <= |img.bytes|
    requires s.Running? && s.rip == img.base + p && next == s.rip + w + 2
    requires Holds(img.bytes, at, data) && s.regs[RSI] == img.base + at && s.regs[RAX] == 1 && s.regs[RDI] == 1
    ensures Run(img, s, n) == Running(after, next, s.trace + [Write(1, data)])
  {
    var r4 := s.regs[RDX := |data|];
    n, after := WriteTail(img, r4, p + w, at, data, s.trace, next);
    var end := Running(after, next, s.trace + [Write(1, data)]);
    StepMov(img, s.regs, p, RDX, |data|, w, s.trace);
    n := Prepend(img, s, Running(r4, img.base + (p + w), s.trace), n, end);
  }

  /** The address, the length, and then the kernel: the data that the displacement leads to is written. */
  lemma {:induction false} RunLoadAndWrite(img: Image, s: State, p: nat, disp: nat, w: nat, data: seq<byte>, next: nat)
      returns (n: nat, after: Registers)
    requires img.readable && img.executable && img.base + |img.bytes| < TWO64 && disp < TWO31 && |data| < TWO64
    requires Holds(img.bytes, p, LEA_RSI + LittleEndian(disp, 4)) && Holds(img.bytes, p + 7 + disp, data)
    requires At(img, p + 7, MovImm(RDX, |data|), w) && At(img, p + 7 + w, Syscall, 2) && p + w + 9 <= |img.bytes|
    requires s.Running? && s.rip == img.base + p && next == s.rip + w + 9 && s.regs[RAX] == 1 && s.regs[RDI] == 1
    ensures Run(img, s, n) == Running(after, next, s.trace + [Write(1, data)])
  {
    var t := Running(s.regs[RSI := s.rip + 7 + disp], s.rip + 7, s.trace);
    n, after := RunWrite(img, t, p + 7, w, p + 7 + disp, data, next);
    n := RunLea(img, s, p, disp, t, n, Running(after, next, s.trace + [Write(1, data)]));
  }

  /** Two moves in front of m steps. */
  lemma {:induction false} RunTwoMoves(img: Image, regs: Registers, p: nat, w: nat, a: Word, b: Word,
          trace: seq<Event>, s: State, m: nat, end: State)
      returns (n: nat)
    requires At(img, p, MovImm(RAX, a), w) && At(img, p + w, MovImm(RDI, b), w)
    requires s == Running(regs[RAX := a][RDI := b], img.base + (p + w) + w, trace) && Run(img, s, m) == end
    ensures Run(img, Running(regs, img.base + p, trace), n) == end
  {
    var r1 := regs[RAX := a];
    var s0, s1 := Running(regs, img.base + p, trace), Running(r1, img.base + (p + w), trace);
    StepMov(img, r1, p + w, RDI, b, w, trace);
    n := Prepend(img, s1, s, m, end);
    StepMov(img, regs, p, RAX, a, w, trace);
    n := Prepend(img, s0, s1, n, end);
  }

  /** The whole of a write to standard output: two moves, the address at q, the length, the kernel. */
  lemma {:induction false} RunOutput(img: Image, regs: Registers, p: nat, w: nat, q: nat, disp: nat, data: seq<byte>,
          trace: seq<Event>, next: nat)
      returns (n: nat, after: Registers)
    requires img.readable && img.executable && img.base + |img.bytes| < TWO64 && disp < TWO31 && |data| < TWO64
    requires At(img, p, MovImm(RAX, 1), w) && At(img, p + w, MovImm(RDI, 1), w) && q == p + 2 * w
    requires Holds(img.bytes, q, LEA_RSI + LittleEndian(disp, 4)) && Holds(img.bytes, q + 7 + disp, data)
    requires At(img, q + 7, MovImm(RDX, |data|), w) && At(img, q + 7 + w, Syscall, 2) && q + w + 9 <= |img.bytes|
    requires next == img.base + q + w + 9
    ensures Run(img, Running(regs, img.base + p, trace), n) == Running(after, next, trace + [Write(1, data)])
  {
    var s := Running(regs[RAX := 1][RDI := 1], img.base + q, trace);
    n, after := RunLoadAndWrite(img, s, q, disp, w, data, next);
    n := RunTwoMoves(img, regs, p, w, 1, 1, trace, s, n, Running(after, next, trace + [Write(1, data)]));
  }

  /** One step in front of n steps. */
  lemma {:induction false} Prepend(img: Image, s: State, t: State, n: nat, end: State) returns (next: nat)
    requires Step(img, s) == t && Run(img, t, n) == end
    ensures Run(img, s, next) == end
  {
    next := n + 1;
  }

  lemma {:induction false} WriteTail(img: Image, regs: Registers, p: nat, at: nat, data: seq<byte>,
          trace: seq<Event>, next: nat)
      returns (n: nat, after: Registers)
    requires At(img, p, Syscall, 2) && img.readable && img.base + |img.bytes| < TWO64 && p + 2 <= |img.bytes|
    requires regs[RAX] == 1 && regs[RDI] == 1 && regs[RSI] == img.base + at && regs[RDX] == |data|
    requires Holds(img.bytes, at, data) && next == img.base + p + 2
    ensures Run(img, Running(regs, img.base + p, trace), n) == Running(after, next, trace + [Write(1, data)])
  {
    StepWrite(img, regs, p, at, data, trace);
    after := regs[RAX := |data|][RCX := next];
    n := Prepend(img, Running(regs, img.base + p, trace), Running(after, next, trace + [Write(1, data)]), 0,
                 Running(after, next, trace + [Write(1, data)]));
  }

  /** Three instructions that load 60 and 0 and enter the kernel: exit(0). */
  lemma {:induction false} RunExit(img: Image, regs: Registers, p: nat, w: nat, clear: Instr, v: nat, trace: seq<Event>)
    returns (n: nat)
    requires At(img, p, MovImm(RAX, 60), w) && At(img, p + w, clear, v) && At(img, p + w + v, Syscall, 2)
    requires clear == MovImm(RDI, 0) || clear == Clear(RDI)
    ensures Run(img, Running(regs, img.base + p, trace), n) == Exited(0, trace)
  {
    var r1 := regs[RAX := 60];
    var r2 := r1[RDI := 0];
    var s0, s1, s2 := Running(regs, img.base + p, trace), Running(r1, img.base + (p + w), trace),
                      Running(r2, img.base + (p + w + v), trace);
    StepExit(img, r2, p + w + v, trace);
    n := Prepend(img, s2, Exited(0, trace), 0, Exited(0, trace));
    if clear == MovImm(RDI, 0) {
      StepMov(img, r1, p + w, RDI, 0, v, trace);
    } else {
      StepClear(img, r1, p + w, RDI, v, trace);
    }
    n := Prepend(img, s1, s2, n, Exited(0, trace));
    StepMov(img, regs, p, RAX, 60, w, trace);
    n := Prepend(img, s0, s1, n, Exited(0, trace));
  }

  lemma {:induction false} StepClear(img: Image, regs: Registers, p: nat, reg: nat, length: nat, trace: seq<Event>)
    requires reg < 16 && At(img, p, Clear(reg), length)
    ensures Step(img, Running(regs, img.base + p, trace)) == Running(regs[reg := 0], img.base + p + length, trace)
  {
  }

  lemma {:induction false} DecodeNop(m: seq<byte>, p: nat)
    requires Holds(m, p, [0x90])
    ensures Decode(m, p) == Decoded(Nop, 1)
  {
    assert m[p] == m[p..p + 1][0];
  }

  lemma {:induction false} DecodeRet(m: seq<byte>, p: nat)
    requires Holds(m, p, [0xC3])
    ensures Decode(m, p) == Decoded(Ret, 1)
  {
    assert m[p] == m[p..p + 1][0];
  }

  lemma {:induction false} StepNop(img: Image, regs: Registers, p: nat, trace: seq<Event>)
    requires At(img, p, Nop, 1)
    ensures Step(img, Running(regs, img.base + p, trace)) == Running(regs, img.base + p + 1, trace)
  {
  }

  lemma {:induction false} StepRet(img: Image, regs: Registers, p: nat, trace: seq<Event>)
    requires At(img, p, Ret, 1)
    ensures Step(img, Running(regs, img.base + p, trace)) == Faulted(trace)
  {
  }

  lemma {:induction false} DecodeClear(m: seq<byte>, p: nat)
    requires Holds(m, p, [0x48, 0x31, 0xFF])
    ensures Decode(m, p) == Decoded(Clear(RDI), 3)
  {
    var s := m[p..p + 3];
    assert m[p] == s[0] && m[p + 1] == s[1] && m[p + 2] == s[2];
  }
}
