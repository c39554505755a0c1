/**
  The second native back end: a list of writes becomes one sequence of sign-extended 32-bit moves per write, an exit,
  and the texts behind the code. It is proved against the same layout, loader and machine as the AOT compiler.
 */
module Native {
  import opened Bytes
  import opened Wrappers
  import opened Machine
  import opened Process
  import L = Layout
  import Elf
  import Aot
  import AotCorrect

  const WRITE_PRE: seq<byte> := MovImm32(0xC0, 1) + MovImm32(0xC7, 1) + LEA_RSI
  const EXIT_CODE: seq<byte> := MovImm32(0xC0, 60) + [0x48, 0x31, 0xFF] + SYSCALL_CODE

  function WritePost(length: nat): seq<byte> {
    MovImm32(0xC2, length % TWO32) + SYSCALL_CODE
  }

  function WriteChunk(text: string): L.Chunk {
    L.WithData(WRITE_PRE, BytesOf(text), WritePost(|text|))
  }

  function WriteChunks(writes: seq<string>): (cs: seq<L.Chunk>)
    ensures |cs| == |writes|
  {
    seq(|writes|, i requires 0 <= i < |writes| => WriteChunk(writes[i]))
  }

  function PayloadChunks(writes: seq<string>): seq<L.Chunk> {
    WriteChunks(writes) + [L.Plain(EXIT_CODE)]
  }

  /** emit_mov_reg_imm32 */
  method EmitMovRegImm32(code: seq<byte>, regOpcode: byte, imm: nat) returns (r: seq<byte>)
    ensures r == code + MovImm32(regOpcode, imm)
  {
    r := code + [0x48, 0xC7, regOpcode];
    r := Elf.AppendU32(r, imm);
  }

  /** emit_lea_rsi_rip_placeholder */
  method EmitLeaRsiRipPlaceholder(code: seq<byte>) returns (r: seq<byte>, dispOffset: nat)
    ensures r == code + LEA_RSI + L.ZERO_FIELD && dispOffset == |code| + |LEA_RSI|
  {
    r := code + [0x48, 0x8D, 0x35];
    dispOffset := |r|;
    r := Elf.AppendU32(r, 0);
    LittleEndian4(0);
  }

  /** The code of one write, and where its displacement sits. */
  method EmitWrite(code: seq<byte>, text: string) returns (r: seq<byte>, dispOffset: nat)
    ensures r == code + L.Emit(WriteChunk(text), L.ZERO_FIELD)
    ensures dispOffset == |code| + |WRITE_PRE|
  {
    r, dispOffset := EmitWriteStart(code);
    ConcatAssoc(code, WRITE_PRE + L.ZERO_FIELD, WritePost(|text|));
    r := EmitMovRegImm32(r, 0xC2, |text| % TWO32);
    r := r + [0x0F, 0x05];
  }

  method EmitWriteStart(code: seq<byte>) returns (r: seq<byte>, dispOffset: nat)
    ensures r == code + (WRITE_PRE + L.ZERO_FIELD) && dispOffset == |code| + |WRITE_PRE|
  {
    r := EmitMovRegImm32(code, 0xC0, 1);
    r := EmitMovRegImm32(r, 0xC7, 1);
    r, dispOffset := EmitLeaRsiRipPlaceholder(r);
  }

  /** patch_i32_le */
  method PatchI32(code: seq<byte>, offset: nat, value: int) returns (r: seq<byte>)
    requires offset + 4 <= |code|
    ensures r == L.Patch(code, offset, L.FieldOf(value))
  {
    var v := ToU32(value);
    r := code[offset := v % 0x100];
    r := r[offset + 1 := v / 0x100 % 0x100];
    r := r[offset + 2 := v / 0x1_0000 % 0x100];
    r := r[offset + 3 := v / 0x100_0000 % 0x100];
    LittleEndian4(v);
  }

  /** The growing buffers. */
  datatype Buffers = Buffers(code: seq<byte>, rodata: seq<byte>, dispOffsets: seq<nat>, rodataOffsets: seq<nat>)

  const NOTHING: Buffers := Buffers([], [], [], [])

  /** One more write, its displacement still zero. */
  function Append(b: Buffers, text: string): Buffers {
    Buffers(b.code + L.Emit(WriteChunk(text), L.ZERO_FIELD), b.rodata + BytesOf(text),
            b.dispOffsets + [|b.code| + |WRITE_PRE|], b.rodataOffsets + [|b.rodata|])
  }

  function AppendAll(writes: seq<string>): Buffers {
    if |writes| == 0 then NOTHING else Append(AppendAll(writes[..|writes| - 1]), writes[|writes| - 1])
  }

  ghost predicate Offsets(data: seq<seq<byte>>, rodataOffsets: seq<nat>) {
    && |rodataOffsets| == |data|
    && forall k :: 0 <= k < |data| ==> rodataOffsets[k] == |Flatten(data[..k])|
  }

  lemma {:induction false} OffsetsNext(data: seq<seq<byte>>, rodataOffsets: seq<nat>, d: seq<byte>)
    requires Offsets(data, rodataOffsets)
    ensures Offsets(data + [d], rodataOffsets + [|Flatten(data)|]) && Flatten(data + [d]) == Flatten(data) + d
  {
    var next := data + [d];
    assert next[..|data|] == data;
    forall k | 0 <= k < |next| ensures (rodataOffsets + [|Flatten(data)|])[k] == |Flatten(next[..k])| {
      assert next[..k] == data[..k];
      if k == |data| { assert data[..k] == data; }
    }
  }

  /** The buffers hold what the layout says about the chunks. */
  ghost predicate LaidOut(b: Buffers, cs: seq<L.Chunk>) {
    && b.code == L.Assemble(cs, L.Zeros(L.Refs(cs))) && b.rodata == Flatten(L.Data(cs))
    && b.dispOffsets == L.Fixups(cs) && Offsets(L.Data(cs), b.rodataOffsets)
  }

  lemma {:induction false} LaidOutNext(b: Buffers, cs: seq<L.Chunk>, text: string)
    requires LaidOut(b, cs)
    ensures LaidOut(Append(b, text), cs + [WriteChunk(text)])
  {
    L.AppendChunk(cs, WriteChunk(text));
    OffsetsNext(L.Data(cs), b.rodataOffsets, BytesOf(text));
  }

  /** The buffers after any writes, in terms of the layout. */
  lemma {:induction false} Appended(writes: seq<string>)
    ensures LaidOut(AppendAll(writes), WriteChunks(writes))
  {
    if |writes| > 0 {
      var init, last := writes[..|writes| - 1], writes[|writes| - 1];
      Appended(init);
      LaidOutNext(AppendAll(init), WriteChunks(init), last);
      WriteChunksNext(writes);
    } else {
      NothingLaidOut();
      assert WriteChunks(writes) == [];
    }
  }

  lemma {:induction false} WriteChunksNext(writes: seq<string>)
    requires |writes| > 0
    ensures WriteChunks(writes) == WriteChunks(writes[..|writes| - 1]) + [WriteChunk(writes[|writes| - 1])]
  {
  }

  lemma {:induction false} NothingLaidOut()
    ensures LaidOut(NOTHING, [])
  {
  }

  /** The loop over the writes. */
  method EmitWrites(writes: seq<string>)
      returns (code: seq<byte>, rodata: seq<byte>, dispPatchOffsets: seq<nat>, rodataOffsets: seq<nat>)
    ensures AppendAll(writes) == Buffers(code, rodata, dispPatchOffsets, rodataOffsets)
  {
    code, rodata, dispPatchOffsets, rodataOffsets := [], [], [], [];
    for i := 0 to |writes|
      invariant AppendAll(writes[..i]) == Buffers(code, rodata, dispPatchOffsets, rodataOffsets)
    {
      assert writes[..i + 1][..i] == writes[..i];
      rodataOffsets := rodataOffsets + [|rodata|];
      rodata := rodata + BytesOf(writes[i]);
      var dispOffset;
      code, dispOffset := EmitWrite(code, writes[i]);
      dispPatchOffsets := dispPatchOffsets + [dispOffset];
    }
    assert writes[..|writes|] == writes;
  }

  method EmitExit(code: seq<byte>) returns (r: seq<byte>)
    ensures r == code + EXIT_CODE
  {
    r := EmitMovRegImm32(code, 0xC0, 60);
    r := r + [0x48, 0x31, 0xFF];
    r := r + [0x0F, 0x05];
  }

  /** The loop that patches the displacements. */
  method PatchAll(code: seq<byte>, dispPatchOffsets: seq<nat>, rodataOffsets: seq<nat>, ghost cs: seq<L.Chunk>)
      returns (r: seq<byte>)
    requires code == L.Assemble(cs, L.Zeros(L.Refs(cs)))
    requires dispPatchOffsets == L.Fixups(cs) && Offsets(L.Data(cs), rodataOffsets)
    ensures r == L.Assemble(cs, L.FinalFields(cs))
  {
    r := code;
    var textSize := |code|;
    L.PatchingStarts(cs);
    for i := 0 to |dispPatchOffsets|
      invariant r == L.PartlyPatched(cs, i)
    {
      r := PatchStep(r, i, textSize + rodataOffsets[i], dispPatchOffsets[i], cs);
    }
  }

  method PatchStep(code: seq<byte>, ghost i: nat, target: nat, dispOffset: nat, ghost cs: seq<L.Chunk>)
    returns (r: seq<byte>)
    requires i < L.Refs(cs) && code == L.PartlyPatched(cs, i)
    requires target == L.CodeSize(cs) + |Flatten(L.Data(cs)[..i])| && dispOffset == L.Fixups(cs)[i]
    ensures r == L.PartlyPatched(cs, i + 1)
  {
    var nextIp := dispOffset + 4;
    L.PatchNext(cs, i, dispOffset, target - nextIp);
    r := PatchI32(code, dispOffset, target - nextIp);
  }

  /** emit_native_payload: the machine code. */
  method EmitNativePayload(writes: seq<string>) returns (payload: seq<byte>)
    ensures payload == L.Link(PayloadChunks(writes))
  {
    var code, rodata, dispPatchOffsets, rodataOffsets := EmitWrites(writes);
    Appended(writes);
    L.AppendChunk(WriteChunks(writes), L.Plain(EXIT_CODE));
    code := EmitExit(code);
    code := PatchAll(code, dispPatchOffsets, rodataOffsets, PayloadChunks(writes));
    payload := code + rodata;
  }

  // Running the payload.

  lemma {:induction false} RunOne(cs: seq<L.Chunk>, k: nat, text: string, regs: Registers, trace: seq<Event>)
      returns (n: nat, after: Registers)
    requires Fits(cs) && k < |cs| && cs[k] == WriteChunk(text) && |text| < TWO31
    ensures Run(ImageOf(cs), StateAt(cs, k, regs, trace), n)
         == StateAt(cs, k + 1, after, trace + [Write(1, BytesOf(text))])
  {
    var disp := RefAt(cs, k);
    ImageSize(cs);
    n, after := RunWriteAt(ImageOf(cs), StateAt(cs, k, regs, trace), Offset(cs, k), text, disp, regs, trace,
                           Elf.IMAGE_BASE + Offset(cs, k + 1));
  }

  lemma {:induction false} RunWriteAt(img: Image, start: State, p: nat, text: string, disp: nat, regs: Registers,
          trace: seq<Event>, next: nat)
      returns (n: nat, after: Registers)
    requires start == Running(regs, img.base + p, trace) && next == img.base + p + 30
    requires img.readable && img.executable && img.base + |img.bytes| < TWO64 && disp < TWO31 && |text| < TWO31
    requires Holds(img.bytes, p, WRITE_PRE + LittleEndian(disp, 4) + WritePost(|text|))
    requires Holds(img.bytes, p + 21 + disp, BytesOf(text))
    ensures Run(img, start, n) == Running(after, next, trace + [Write(1, BytesOf(text))])
  {
    WriteDecoded(img.bytes, p, text, disp);
    n, after := RunOutput(img, regs, p, 7, p + 14, disp, BytesOf(text), trace, next);
  }

  /** A write's bytes, instruction by instruction. */
  lemma {:induction false} WriteDecoded(m: seq<byte>, p: nat, text: string, disp: nat)
    requires Holds(m, p, WRITE_PRE + LittleEndian(disp, 4) + WritePost(|text|)) && |text| < TWO31
    ensures Decode(m, p) == Decoded(MovImm(RAX, 1), 7) && Decode(m, p + 7) == Decoded(MovImm(RDI, 1), 7)
    ensures Holds(m, p + 14, LEA_RSI + LittleEndian(disp, 4))
    ensures Decode(m, p + 21) == Decoded(MovImm(RDX, |text|), 7) && Decode(m, p + 28) == Decoded(Syscall, 2)
    ensures p + 30 <= |m|
  {
    WritePlaced(m, p, text, disp);
    DecodeMovImm32(m, p, 0xC0, 1);
    DecodeMovImm32(m, p + 7, 0xC7, 1);
    DecodeMovImm32(m, p + 21, 0xC2, |text|);
    DecodeSyscall(m, p + 28);
  }

  lemma {:induction false} WritePlaced(m: seq<byte>, p: nat, text: string, disp: nat)
    requires Holds(m, p, WRITE_PRE + LittleEndian(disp, 4) + WritePost(|text|)) && |text| < TWO31
    ensures Holds(m, p, MovImm32(0xC0, 1)) && Holds(m, p + 7, MovImm32(0xC7, 1))
    ensures Holds(m, p + 14, LEA_RSI + LittleEndian(disp, 4))
    ensures Holds(m, p + 21, MovImm32(0xC2, |text|)) && Holds(m, p + 28, SYSCALL_CODE)
  {
    var a, b, f := MovImm32(0xC0, 1), MovImm32(0xC7, 1), LittleEndian(disp, 4);
    HoldsSplit(m, p, WRITE_PRE + f, WritePost(|text|));
    HoldsSplit(m, p + 21, MovImm32(0xC2, |text|), SYSCALL_CODE);
    ConcatAssoc(a + b, LEA_RSI, f);
    HoldsSplit(m, p, a + b, LEA_RSI + f);
    HoldsSplit(m, p, a, b);
  }

  lemma {:induction false} RunTheExit(cs: seq<L.Chunk>, k: nat, regs: Registers, trace: seq<Event>) returns (n: nat)
    requires Fits(cs) && k < |cs| && cs[k] == L.Plain(EXIT_CODE)
    ensures Run(ImageOf(cs), StateAt(cs, k, regs, trace), n) == Exited(0, trace)
  {
    PlainAt(cs, k);
    n := RunExitAt(ImageOf(cs), Offset(cs, k), regs, trace);
  }

  lemma {:induction false} RunExitAt(img: Image, p: nat, regs: Registers, trace: seq<Event>) returns (n: nat)
    requires img.executable && Holds(img.bytes, p, EXIT_CODE)
    ensures Run(img, Running(regs, img.base + p, trace), n) == Exited(0, trace)
  {
    ExitPlaced(img.bytes, p);
    n := RunExit(img, regs, p, 7, Clear(RDI), 3, trace);
  }

  lemma {:induction false} ExitPlaced(m: seq<byte>, p: nat)
    requires Holds(m, p, EXIT_CODE)
    ensures Decode(m, p) == Decoded(MovImm(RAX, 60), 7) && Decode(m, p + 7) == Decoded(Clear(RDI), 3)
    ensures Decode(m, p + 10) == Decoded(Syscall, 2)
  {
    HoldsSplit(m, p, MovImm32(0xC0, 60) + [0x48, 0x31, 0xFF], SYSCALL_CODE);
    HoldsSplit(m, p, MovImm32(0xC0, 60), [0x48, 0x31, 0xFF]);
    DecodeMovImm32(m, p, 0xC0, 60);
    DecodeClear(m, p + 7);
    DecodeSyscall(m, p + 10);
  }

  function Events(writes: seq<string>): seq<Event> {
    seq(|writes|, i requires 0 <= i < |writes| => Write(1, BytesOf(writes[i])))
  }

  lemma {:induction false} RunFrom(writes: seq<string>, k: nat, regs: Registers, trace: seq<Event>) returns (n: nat)
    requires Fits(PayloadChunks(writes)) && k <= |writes| && forall i :: 0 <= i < |writes| ==> |writes[i]| < TWO31
    ensures Run(ImageOf(PayloadChunks(writes)), StateAt(PayloadChunks(writes), k, regs, trace), n)
         == Exited(0, trace + Events(writes)[k..])
    decreases |writes| - k
  {
    var cs := PayloadChunks(writes);
    EventsTail(writes, k, trace);
    if k == |writes| {
      n := RunTheExit(cs, k, regs, trace);
    } else {
      var e := Write(1, BytesOf(writes[k]));
      var first, after := RunOne(cs, k, writes[k], regs, trace);
      var rest := RunFrom(writes, k + 1, after, trace + [e]);
      n := Join(ImageOf(cs), StateAt(cs, k, regs, trace), first, StateAt(cs, k + 1, after, trace + [e]), rest,
                Exited(0, trace + Events(writes)[k..]));
    }
  }

  lemma {:induction false} EventsTail(writes: seq<string>, k: nat, trace: seq<Event>)
    requires k <= |writes|
    ensures PayloadChunks(writes)[k] == if k < |writes| then WriteChunk(writes[k]) else L.Plain(EXIT_CODE)
    ensures trace + Events(writes)[k..]
         == if k < |writes| then trace + [Write(1, BytesOf(writes[k]))] + Events(writes)[k + 1..] else trace
  {
    if k < |writes| {
      assert Events(writes)[k..] == [Write(1, BytesOf(writes[k]))] + Events(writes)[k + 1..];
    }
  }

  /**
    The ELF file around the payload, loaded and entered with any register contents, writes exactly the given texts in
    order and exits with status 0. Text lengths below 2^31 survive the sign-extended 32-bit move.
   */
  lemma {:induction false} PayloadRuns(writes: seq<string>, regs: Registers)
    requires Fits(PayloadChunks(writes)) && forall i :: 0 <= i < |writes| ==> |writes[i]| < TWO31
    ensures Elf.Load(Elf.ElfFile(L.Link(PayloadChunks(writes)))) == Some(ImageOf(PayloadChunks(writes)))
    ensures EndsIn(ImageOf(PayloadChunks(writes)), regs, Exited(0, Events(writes)))
  {
    var cs := PayloadChunks(writes);
    Loaded(cs);
    Entry(cs);
    var n := RunFrom(writes, 0, regs, []);
    AllEvents(Events(writes));
  }

  lemma {:induction false} AllEvents(events: seq<Event>)
    ensures [] + events[0..] == events
  {
  }

  lemma {:induction false} Entry(cs: seq<L.Chunk>)
    ensures ImageOf(cs).entry == Elf.IMAGE_BASE + Offset(cs, 0)
  {
    assert cs[..0] == [];
  }

  // Agreement of the two back ends.

  /** The IR that prints the texts and halts. */
  function PrintsThenHalt(writes: seq<string>): seq<Aot.IRInstruction> {
    seq(|writes|, i requires 0 <= i < |writes| => Aot.Print(writes[i])) + [Aot.HALT_INSTRUCTION]
  }

  lemma {:induction false} PrintsOutput(writes: seq<string>)
    ensures Aot.Outputs(PrintsThenHalt(writes)) == Events(writes)
  {
    var code := PrintsThenHalt(writes);
    if |writes| > 0 {
      assert code[1..] == PrintsThenHalt(writes[1..]);
      PrintsOutput(writes[1..]);
      assert Events(writes) == [Write(1, BytesOf(writes[0]))] + Events(writes[1..]);
    }
  }

  /** Both executables, for the same texts, do the same thing on any register contents. */
  lemma {:induction false} BackEndsAgree(writes: seq<string>, regs: Registers, s: State, t: State)
    requires Fits(PayloadChunks(writes)) && forall i :: 0 <= i < |writes| ==> |writes[i]| < TWO31
    requires Fits(Aot.ProgramChunks([Aot.MainFunction(PrintsThenHalt(writes))]))
    requires EndsIn(ImageOf(PayloadChunks(writes)), regs, s)
    requires EndsIn(ImageOf(Aot.ProgramChunks([Aot.MainFunction(PrintsThenHalt(writes))])), regs, t)
    ensures s == t == Exited(0, Events(writes))
  {
    var code := PrintsThenHalt(writes);
    var f := Aot.MainFunction(code);
    assert f.blocks[..0] == [];
    assert Aot.Instructions(f.blocks) == [] + code == code;
    assert code[|writes|].op == Aot.HALT;
    PrintsOutput(writes);
    AotCorrect.GeneratedProgramRuns([f], regs);
    PayloadRuns(writes, regs);
    OutcomeUnique(ImageOf(PayloadChunks(writes)), regs, s, Exited(0, Events(writes)));
    OutcomeUnique(ImageOf(Aot.ProgramChunks([f])), regs, t, Exited(0, Events(writes)));
  }

  /** The two ELF builders, side by side. */
  method BuildBoth(machineCode: seq<byte>) returns (first: seq<byte>, second: seq<byte>)
    ensures first == second
  {
    first := Elf.BuildElfExecutable(machineCode);
    second := Elf.BuildElfImage(machineCode);
  }
}
