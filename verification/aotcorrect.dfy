/** The AOT compiler's executable runs as its IR says. */
module AotCorrect {
  import opened Bytes
  import opened Wrappers
  import opened Machine
  import opened Aot
  import opened Process
  import L = Layout
  import Elf

  /** The chunks from k on are those of the instructions, then a return. */
  ghost predicate Follows(cs: seq<L.Chunk>, k: nat, code: seq<IRInstruction>) {
    && k + |code| < |cs|
    && (forall i :: 0 <= i < |code| ==> cs[k + i] == ChunkOf(code[i]))
    && cs[k + |code|] == L.Plain([0xC3])
  }

  lemma {:induction false} RunPrint(cs: seq<L.Chunk>, k: nat, text: string, regs: Registers, trace: seq<Event>)
    returns (n: nat, after: Registers)
    requires Fits(cs) && k < |cs| && cs[k] == PrintChunk(text)
    ensures Run(ImageOf(cs), StateAt(cs, k, regs, trace), n)
         == StateAt(cs, k + 1, after, trace + [Write(1, BytesOf(text))])
  {
    var disp := RefAt(cs, k);
    ImageSize(cs);
    n, after := RunPrintAt(ImageOf(cs), StateAt(cs, k, regs, trace), Offset(cs, k), text, disp, regs, trace,
                           Elf.IMAGE_BASE + Offset(cs, k + 1));
  }

  lemma {:induction false} RunPrintAt(img: Image, start: State, p: nat, text: string, disp: nat, regs: Registers,
          trace: seq<Event>, next: nat)
      returns (n: nat, after: Registers)
    requires start == Running(regs, img.base + p, trace) && next == img.base + p + 39
    requires img.readable && img.executable && img.base + |img.bytes| < TWO64 && disp < TWO31
    requires Holds(img.bytes, p, PRINT_PRE + LittleEndian(disp, 4) + PrintPost(|text|))
    requires Holds(img.bytes, p + 27 + disp, BytesOf(text)) && |text| < TWO64
    ensures Run(img, start, n) == Running(after, next, trace + [Write(1, BytesOf(text))])
  {
    PrintDecoded(img.bytes, p, text, disp);
    n, after := RunOutput(img, regs, p, 10, p + 20, disp, BytesOf(text), trace, next);
  }

  /** A PRINT's bytes, instruction by instruction. */
  lemma {:induction false} PrintDecoded(m: seq<byte>, p: nat, text: string, disp: nat)
    requires Holds(m, p, PRINT_PRE + LittleEndian(disp, 4) + PrintPost(|text|)) && |text| < TWO64
    ensures Decode(m, p) == Decoded(MovImm(RAX, 1), 10) && Decode(m, p + 10) == Decoded(MovImm(RDI, 1), 10)
    ensures Holds(m, p + 20, LEA_RSI + LittleEndian(disp, 4))
    ensures Decode(m, p + 27) == Decoded(MovImm(RDX, |text|), 10) && Decode(m, p + 37) == Decoded(Syscall, 2)
    ensures p + 39 <= |m|
  {
    PrintPlaced(m, p, text, disp);
    DecodeMovImm64(m, p, RAX, 1);
    DecodeMovImm64(m, p + 10, RDI, 1);
    DecodeMovImm64(m, p + 27, RDX, |text|);
    DecodeSyscall(m, p + 37);
  }

  lemma {:induction false} PrintPlaced(m: seq<byte>, p: nat, text: string, disp: nat)
    requires Holds(m, p, PRINT_PRE + LittleEndian(disp, 4) + PrintPost(|text|))
    ensures Holds(m, p, MovImm64(RAX, 1)) && Holds(m, p + 10, MovImm64(RDI, 1))
    ensures Holds(m, p + 20, LEA_RSI + LittleEndian(disp, 4))
    ensures Holds(m, p + 27, MovImm64(RDX, |text|)) && Holds(m, p + 37, SYSCALL_CODE)
  {
    var a, b, f := MovImm64(RAX, 1), MovImm64(RDI, 1), LittleEndian(disp, 4);
    HoldsSplit(m, p, PRINT_PRE + f, PrintPost(|text|));
    HoldsSplit(m, p + 27, MovImm64(RDX, |text|), SYSCALL_CODE);
    ConcatAssoc(a + b, LEA_RSI, f);
    HoldsSplit(m, p, a + b, LEA_RSI + f);
    HoldsSplit(m, p, a, b);
  }

  lemma {:induction false} RunHalt(cs: seq<L.Chunk>, k: nat, regs: Registers, trace: seq<Event>) returns (n: nat)
    requires Fits(cs) && k < |cs| && cs[k] == L.Plain(HALT_CODE)
    ensures Run(ImageOf(cs), StateAt(cs, k, regs, trace), n) == Exited(0, trace)
  {
    PlainAt(cs, k);
    n := RunHaltAt(ImageOf(cs), Offset(cs, k), regs, trace);
  }

  lemma {:induction false} RunHaltAt(img: Image, p: nat, regs: Registers, trace: seq<Event>) returns (n: nat)
    requires img.executable && Holds(img.bytes, p, HALT_CODE)
    ensures Run(img, Running(regs, img.base + p, trace), n) == Exited(0, trace)
  {
    HaltPlaced(img.bytes, p);
    n := RunExit(img, regs, p, 10, MovImm(RDI, 0), 10, trace);
  }

  lemma {:induction false} HaltPlaced(m: seq<byte>, p: nat)
    requires Holds(m, p, HALT_CODE)
    ensures Decode(m, p) == Decoded(MovImm(RAX, 60), 10) && Decode(m, p + 10) == Decoded(MovImm(RDI, 0), 10)
    ensures Decode(m, p + 20) == Decoded(Syscall, 2)
  {
    HoldsSplit(m, p, MovImm64(RAX, 60) + MovImm64(RDI, 0), SYSCALL_CODE);
    HoldsSplit(m, p, MovImm64(RAX, 60), MovImm64(RDI, 0));
    DecodeMovImm64(m, p, RAX, 60);
    DecodeMovImm64(m, p + 10, RDI, 0);
    DecodeSyscall(m, p + 20);
  }

  /** The register that a number names: that number below 16; of any other only the last eight bits count, and of those
      the last three and whether the rest is zero. */
  predicate Names(number: Word, r: nat) {
    r < 16 && r % 8 == number % 8 && (r >= 8 <==> number % 0x100 >= 8)
  }

  /** Just the register with that number is loaded. */
  ghost predicate LoadsOne(number: Word, v: Word, before: Registers, after: Registers) {
    exists r: nat :: Names(number, r) && after == before[r := v]
  }

  lemma {:induction false} RegisterNamed(number: Word)
    ensures Names(number, RegisterOf(number))
  {
    LowBits(number / 0x100, number % 0x100);
    assert number == 0x100 * (number / 0x100) + number % 0x100;
  }

  lemma {:induction false} LowBits(q: nat, rest: nat)
    ensures (0x100 * q + rest) % 8 == rest % 8
  {
    var k := rest / 8;
    assert 0x100 * q + rest == 8 * (32 * q + k) + rest % 8;
  }

  lemma {:induction false} RunMov(cs: seq<L.Chunk>, k: nat, dst: IRValue, src: IRValue, regs: Registers,
          trace: seq<Event>)
      returns (n: nat, after: Registers)
    requires Fits(cs) && k < |cs| && cs[k] == MovChunk(dst, src)
    ensures Run(ImageOf(cs), StateAt(cs, k, regs, trace), n) == StateAt(cs, k + 1, after, trace)
    ensures src.kind == Immediate ==> LoadsOne(dst.value, src.value, regs, after)
    ensures src.kind != Immediate ==> after == regs
  {
    if src.kind == Immediate {
      var r := RegisterOf(dst.value);
      n, after := RunMovImmediate(cs, k, r, src.value, regs, trace);
      RegisterNamed(dst.value);
    } else {
      PlainAt(cs, k);
      n, after := 0, regs;
    }
  }

  lemma {:induction false} RunMovImmediate(cs: seq<L.Chunk>, k: nat, r: nat, v: Word, regs: Registers,
          trace: seq<Event>)
      returns (n: nat, after: Registers)
    requires Fits(cs) && k < |cs| && r < 16 && cs[k] == L.Plain(MovImm64(r, v))
    ensures Run(ImageOf(cs), StateAt(cs, k, regs, trace), n) == StateAt(cs, k + 1, after, trace)
    ensures after == regs[r := v]
  {
    PlainAt(cs, k);
    after := regs[r := v];
    n := RunMovAt(ImageOf(cs), Offset(cs, k), r, v, StateAt(cs, k, regs, trace), StateAt(cs, k + 1, after, trace));
  }

  lemma {:induction false} RunMovAt(img: Image, p: nat, r: nat, v: Word, s: State, t: State) returns (n: nat)
    requires img.executable && r < 16 && Holds(img.bytes, p, MovImm64(r, v))
    requires s.Running? && s.rip == img.base + p
    requires t == Running(s.regs[r := v], img.base + p + 10, s.trace)
    ensures Run(img, s, n) == t
  {
    DecodeMovImm64(img.bytes, p, r, v);
    StepMov(img, s.regs, p, r, v, 10, s.trace);
    n := Prepend(img, s, t, 0, t);
  }

  lemma {:induction false} RunNop(cs: seq<L.Chunk>, k: nat, regs: Registers, trace: seq<Event>) returns (n: nat)
    requires Fits(cs) && k < |cs| && cs[k] == L.Plain([0x90])
    ensures Run(ImageOf(cs), StateAt(cs, k, regs, trace), n) == StateAt(cs, k + 1, regs, trace)
  {
    PlainAt(cs, k);
    var img, p := ImageOf(cs), Offset(cs, k);
    DecodeNop(img.bytes, p);
    StepNop(img, regs, p, trace);
    var end := StateAt(cs, k + 1, regs, trace);
    n := Prepend(img, StateAt(cs, k, regs, trace), end, 0, end);
  }

  lemma {:induction false} RunReturn(cs: seq<L.Chunk>, k: nat, regs: Registers, trace: seq<Event>) returns (n: nat)
    requires Fits(cs) && k < |cs| && cs[k] == L.Plain([0xC3])
    ensures Run(ImageOf(cs), StateAt(cs, k, regs, trace), n) == Faulted(trace)
  {
    PlainAt(cs, k);
    var img, p := ImageOf(cs), Offset(cs, k);
    DecodeRet(img.bytes, p);
    StepRet(img, regs, p, trace);
    n := Prepend(img, StateAt(cs, k, regs, trace), Faulted(trace), 0, Faulted(trace));
  }

  /** How control that reaches chunk k ends. */
  function Outcome(code: seq<IRInstruction>, trace: seq<Event>): State {
    if Halts(code) then Exited(0, trace + Outputs(code)) else Faulted(trace + Outputs(code))
  }

  /** Instructions without code of their own. */
  predicate LoadsNone(i: IRInstruction) {
    if i.op == MOV then i.src1.kind != Immediate else i.op != PRINT && i.op != HALT
  }

  /** Any instruction but HALT: control reaches the next chunk, with one write behind it exactly for a PRINT. A move
      loads its register, and all that is not a move, a print or a halt does nothing. */
  lemma {:induction false} RunOne(cs: seq<L.Chunk>, k: nat, i: IRInstruction, regs: Registers, trace: seq<Event>)
      returns (n: nat, after: Registers)
    requires Fits(cs) && k < |cs| && cs[k] == ChunkOf(i) && i.op != HALT
    ensures Run(ImageOf(cs), StateAt(cs, k, regs, trace), n) == StateAt(cs, k + 1, after, trace + OutputOf(i))
    ensures i.op == MOV && i.src1.kind == Immediate ==> LoadsOne(i.dst.value, i.src1.value, regs, after)
    ensures LoadsNone(i) ==> after == regs
  {
    assert trace + [] == trace;
    if i.op == PRINT {
      n, after := RunPrint(cs, k, i.text, regs, trace);
    } else if i.op == MOV {
      n, after := RunMov(cs, k, i.dst, i.src1, regs, trace);
    } else {
      n := RunNop(cs, k, regs, trace);
      after := regs;
    }
  }

  lemma {:induction false} RunFrom(cs: seq<L.Chunk>, k: nat, code: seq<IRInstruction>, regs: Registers,
          trace: seq<Event>)
      returns (n: nat)
    requires Fits(cs) && Follows(cs, k, code)
    ensures Run(ImageOf(cs), StateAt(cs, k, regs, trace), n) == Outcome(code, trace)
    decreases |code|
  {
    if |code| == 0 {
      n := RunReturn(cs, k, regs, trace);
    } else {
      FollowsTail(cs, k, code);
      if code[0].op == HALT {
        n := RunHalt(cs, k, regs, trace);
      } else {
        var first, after := RunOne(cs, k, code[0], regs, trace);
        var rest := RunFrom(cs, k + 1, code[1..], after, trace + OutputOf(code[0]));
        OutcomeTail(code, trace);
        n := Join(ImageOf(cs), StateAt(cs, k, regs, trace), first,
                  StateAt(cs, k + 1, after, trace + OutputOf(code[0])), rest, Outcome(code, trace));
      }
    }
  }

  lemma {:induction false} FollowsTail(cs: seq<L.Chunk>, k: nat, code: seq<IRInstruction>)
    requires Follows(cs, k, code) && |code| > 0
    ensures cs[k] == ChunkOf(code[0]) && Follows(cs, k + 1, code[1..])
  {
    assert cs[k + 0] == ChunkOf(code[0]);
    forall i | 0 <= i < |code| - 1 ensures cs[k + 1 + i] == ChunkOf(code[1..][i]) {
      assert cs[k + (1 + i)] == ChunkOf(code[1 + i]);
    }
  }

  lemma {:induction false} OutcomeTail(code: seq<IRInstruction>, trace: seq<Event>)
    requires |code| > 0 && code[0].op != HALT
    ensures Outcome(code[1..], trace + OutputOf(code[0])) == Outcome(code, trace)
  {
    HaltsTail(code);
    ConcatAssoc(trace, OutputOf(code[0]), Outputs(code[1..]));
  }

  lemma {:induction false} HaltsTail(code: seq<IRInstruction>)
    requires |code| > 0 && code[0].op != HALT
    ensures Halts(code[1..]) <==> Halts(code)
  {
    if i :| 0 <= i < |code| && code[i].op == HALT {
      assert code[1..][i - 1].op == HALT;
    }
  }

  lemma {:induction false} MainChunks(f: IRFunction)
    requires f.name == "main"
    ensures Follows(FunctionChunks(f), 1, Instructions(f.blocks)) && FunctionChunks(f)[0] == L.Plain([])
  {
    var code, cs := Instructions(f.blocks), FunctionChunks(f);
    assert Epilogue(f).code == [0xC3];
    forall i | 0 <= i < |code| ensures cs[1 + i] == ChunkOf(code[i]) {
      assert cs[1 + i] == Chunks(code)[i];
    }
  }

  lemma {:induction false} FirstFunction(fs: seq<IRFunction>)
    requires |fs| > 0
    ensures FunctionChunks(fs[0]) <= ProgramChunks(fs)
  {
    if |fs| == 1 {
      assert ProgramChunks(fs[..0]) == [];
    } else {
      FirstFunction(fs[..|fs| - 1]);
    }
  }

  /** main's chunks are the first function's, whatever functions follow it. */
  lemma {:induction false} MainFollows(fs: seq<IRFunction>)
    requires |fs| > 0 && fs[0].name == "main"
    ensures Follows(ProgramChunks(fs), 1, Instructions(fs[0].blocks)) && ProgramChunks(fs)[0] == L.Plain([])
  {
    MainChunks(fs[0]);
    FirstFunction(fs);
    FollowsPrefix(FunctionChunks(fs[0]), ProgramChunks(fs), 1, Instructions(fs[0].blocks));
  }

  lemma {:induction false} FollowsPrefix(a: seq<L.Chunk>, b: seq<L.Chunk>, k: nat, code: seq<IRInstruction>)
    requires a <= b && Follows(a, k, code)
    ensures Follows(b, k, code)
  {
  }

  /**
    The ELF file around generate()'s output, loaded and entered with any register contents, performs exactly one
    write to standard output per PRINT before main's first HALT, in order and with the PRINT's bytes, and then exits
    with status 0; and it exits at all only if main has a HALT.
   */
  lemma {:induction false} GeneratedProgramRuns(fs: seq<IRFunction>, regs: Registers)
    requires |fs| > 0 && fs[0].name == "main" && Fits(ProgramChunks(fs))
    ensures Elf.Load(Elf.ElfFile(L.Link(ProgramChunks(fs)))) == Some(ImageOf(ProgramChunks(fs)))
    ensures var main := Instructions(fs[0].blocks);
            EndsIn(ImageOf(ProgramChunks(fs)), regs,
                   if Halts(main) then Exited(0, Outputs(main)) else Faulted(Outputs(main)))
  {
    var cs, main := ProgramChunks(fs), Instructions(fs[0].blocks);
    Loaded(cs);
    MainFollows(fs);
    MainEntry(cs);
    var n := RunFrom(cs, 1, main, regs, []);
    assert [] + Outputs(main) == Outputs(main);
  }

  lemma {:induction false} MainEntry(cs: seq<L.Chunk>)
    requires Fits(cs) && |cs| > 0 && cs[0] == L.Plain([])
    ensures ImageOf(cs).entry == Elf.IMAGE_BASE + Offset(cs, 1)
  {
    PlainAt(cs, 0);
    assert cs[..0] == [];
  }

  /** AOTCompiler::compile_to_native between the parser and the output file. */
  method CompileToNative(functions: seq<IRFunction>, asElf: bool) returns (output: seq<byte>)
    ensures asElf ==> output == Elf.ElfFile(L.Link(ProgramChunks(functions)))
    ensures !asElf ==> output == L.Link(ProgramChunks(functions))
  {
    var codegen := new X64Generator();
    output := codegen.Generate(functions);
    if asElf {
      output := Elf.BuildElfExecutable(output);
    }
  }
}
