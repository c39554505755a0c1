/**
  The intermediate representation, what it means, and the x86-64 generator that appends to a code buffer and
  back-patches it.
 */
module Aot {
  import opened Bytes
  import opened Machine
  import L = Layout

  datatype IROp =
    | MOV | LOAD | STORE | ADD | SUB | MUL | DIV | MOD | AND | OR | XOR | NOT | SHL | SHR | ROT
    | JMP | JEQ | JNE | JLT | JLE | JGT | JGE | CALL | RET | SYSCALL | PRINT | HALT

  datatype Kind = Immediate | Register | Memory | Label

  datatype IRValue = IRValue(kind: Kind, value: Word, target: string)

  datatype IRInstruction = IRInstruction(op: IROp, dst: IRValue, src1: IRValue, src2: IRValue, text: string)

  datatype IRBasicBlock = IRBasicBlock(name: string, instructions: seq<IRInstruction>)

  datatype IRFunction = IRFunction(name: string, blocks: seq<IRBasicBlock>, stackSize: Word)

  const NO_VALUE: IRValue := IRValue(Immediate, 0, "")

  function Print(text: string): IRInstruction {
    IRInstruction(PRINT, NO_VALUE, NO_VALUE, NO_VALUE, text)
  }

  const HALT_INSTRUCTION: IRInstruction := IRInstruction(HALT, NO_VALUE, NO_VALUE, NO_VALUE, "")

  /** The entry function, of one block. */
  function MainFunction(code: seq<IRInstruction>): IRFunction {
    IRFunction("main", [IRBasicBlock("entry", code)], 0)
  }

  // What an IR function means.

  function Instructions(blocks: seq<IRBasicBlock>): seq<IRInstruction> {
    if |blocks| == 0 then []
    else Instructions(blocks[..|blocks| - 1]) + blocks[|blocks| - 1].instructions
  }

  /** Control reaches a HALT. */
  predicate Halts(code: seq<IRInstruction>) {
    exists i :: 0 <= i < |code| && code[i].op == HALT
  }

  /** What one instruction writes to standard output. */
  function OutputOf(i: IRInstruction): seq<Event> {
    if i.op == PRINT then [Write(1, BytesOf(i.text))] else []
  }

  /** One write per PRINT before the first HALT, in order. */
  function Outputs(code: seq<IRInstruction>): seq<Event> {
    if |code| == 0 || code[0].op == HALT then [] else OutputOf(code[0]) + Outputs(code[1..])
  }

  // What the generator emits.

  /** The register number as the encoding sees it: a uint8_t whose low three bits and bit 8 or above select it. */
  function RegisterOf(value: Word): nat {
    var r := value % 0x100;
    if r >= 8 then 8 + r % 8 else r
  }

  const PRINT_PRE: seq<byte> := MovImm64(RAX, 1) + MovImm64(RDI, 1) + LEA_RSI
  const HALT_CODE: seq<byte> := MovImm64(RAX, 60) + MovImm64(RDI, 0) + SYSCALL_CODE

  function PrintPost(length: nat): seq<byte> {
    MovImm64(RDX, length) + SYSCALL_CODE
  }

  function PrintChunk(text: string): L.Chunk {
    L.WithData(PRINT_PRE, BytesOf(text), PrintPost(|text|))
  }

  function MovChunk(dst: IRValue, src: IRValue): (c: L.Chunk)
    ensures c.Plain?
  {
    if src.kind == Immediate then L.Plain(MovImm64(RegisterOf(dst.value), src.value)) else L.Plain([])
  }

  /** The chunk for one instruction. */
  function ChunkOf(i: IRInstruction): L.Chunk {
    match i.op
    case MOV => MovChunk(i.dst, i.src1)
    case PRINT => PrintChunk(i.text)
    case HALT => L.Plain(HALT_CODE)
    case _ => L.Plain([0x90])
  }

  function Chunks(code: seq<IRInstruction>): (cs: seq<L.Chunk>)
    ensures |cs| == |code|
  {
    seq(|code|, i requires 0 <= i < |code| => ChunkOf(code[i]))
  }

  /** add r64, imm32 */
  function AddRegImm32(reg: nat, imm: int): seq<byte>
    requires reg < 8
  {
    [0x48, 0x81, 0xC0 + reg] + LittleEndian(ToU32(imm), 4)
  }

  /** push rbp; mov rbp, rsp; and room for the locals. The entry function has none. */
  function Prologue(f: IRFunction): L.Chunk {
    if f.name == "main" then L.Plain([])
    else L.Plain([0x55, 0x48, 0x89, 0xE5] + if f.stackSize > 0 then AddRegImm32(RSP, -(f.stackSize as int)) else [])
  }

  /** mov rsp, rbp; pop rbp; and the return. */
  function Epilogue(f: IRFunction): L.Chunk {
    L.Plain((if f.name == "main" then [] else [0x48, 0x89, 0xEC, 0x5D]) + [0xC3])
  }

  function FunctionChunks(f: IRFunction): seq<L.Chunk> {
    [Prologue(f)] + Chunks(Instructions(f.blocks)) + [Epilogue(f)]
  }

  function ProgramChunks(fs: seq<IRFunction>): seq<L.Chunk> {
    if |fs| == 0 then [] else ProgramChunks(fs[..|fs| - 1]) + FunctionChunks(fs[|fs| - 1])
  }

  /** The generator's growing buffers. */
  datatype Buffers = Buffers(code: seq<byte>, pool: seq<seq<byte>>, offsets: seq<nat>, fixups: seq<(nat, nat)>)

  const NOTHING: Buffers := Buffers([], [], [], [])

  /** One more chunk, its displacement still zero and recorded with the number of its string. */
  function Append(b: Buffers, c: L.Chunk): Buffers {
    match c
    case Plain(code) => b.(code := b.code + code)
    case WithData(pre, data, _) =>
      Buffers(b.code + L.Emit(c, L.ZERO_FIELD), b.pool + [data], b.offsets + [0],
              b.fixups + [(|b.code| + |pre|, |b.pool|)])
  }

  function AppendAll(b: Buffers, cs: seq<L.Chunk>): Buffers {
    if |cs| == 0 then b else Append(AppendAll(b, L.Init(cs)), L.Last(cs))
  }

  lemma {:induction false} AppendConcat(b: Buffers, x: seq<L.Chunk>, y: seq<L.Chunk>)
    ensures AppendAll(b, x + y) == AppendAll(AppendAll(b, x), y)
  {
    if |y| == 0 {
      assert x + y == x;
    } else {
      AppendConcat(b, x, L.Init(y));
      assert L.Init(x + y) == x + L.Init(y);
    }
  }

  /** The buffers after any chunks: zero displacements, and the k-th fixup is for the k-th string. */
  lemma {:induction false} Appended(cs: seq<L.Chunk>)
    ensures var b := AppendAll(NOTHING, cs);
            && b.code == L.Assemble(cs, L.Zeros(L.Refs(cs)))
            && b.pool == L.Data(cs) && |b.offsets| == L.Refs(cs) == |b.fixups|
            && forall k :: 0 <= k < L.Refs(cs) ==> b.fixups[k] == (L.Fixups(cs)[k], k)
  {
    if |cs| > 0 {
      Appended(L.Init(cs));
      L.AppendChunk(L.Init(cs), L.Last(cs));
      assert cs == L.Init(cs) + [L.Last(cs)];
    }
  }

  /** x86_64Generator */
  class X64Generator {
    var code: seq<byte>
    var stringPool: seq<seq<byte>>
    var stringPoolOffsets: seq<nat>
    var printFixups: seq<(nat, nat)>

    constructor ()
      ensures Buf() == NOTHING
    {
      code, stringPool, stringPoolOffsets, printFixups := [], [], [], [];
    }

    function Buf(): Buffers
      reads this
    {
      Buffers(code, stringPool, stringPoolOffsets, printFixups)
    }

    method EmitU8(b: byte)
      modifies this`code
      ensures code == old(code) + [b]
    {
      code := code + [b];
    }

    method EmitU32(dword: nat)
      modifies this`code
      ensures code == old(code) + LittleEndian(dword, 4)
    {
      EmitU8(dword % 0x100);
      EmitU8(dword / 0x100 % 0x100);
      EmitU8(dword / 0x1_0000 % 0x100);
      EmitU8(dword / 0x100_0000 % 0x100);
      LittleEndian4(dword);
    }

    method EmitU64(qword: nat)
      modifies this`code
      ensures code == old(code) + LittleEndian(qword, 8)
    {
      EmitU32(qword % TWO32);
      EmitU32(qword / TWO32 % TWO32);
      LittleEndian8(qword, qword % TWO32, qword / TWO32 % TWO32);
    }

    method EmitMovRegImm64(reg: byte, imm: nat)
      modifies this`code
      ensures code == old(code) + MovImm64(RegisterOf(reg), imm)
    {
      EmitU8(if reg >= 8 then 0x49 else 0x48);
      EmitU8(0xB8 + reg % 8);
      EmitU64(imm);
    }

    method EmitSyscall()
      modifies this`code
      ensures code == old(code) + SYSCALL_CODE
    {
      EmitU8(0x0F);
      EmitU8(0x05);
    }

    /** Returns the position of the displacement field. */
    method EmitLeaRsiRipPlaceholder() returns (dispPos: nat)
      modifies this`code
      ensures dispPos == |old(code)| + |LEA_RSI|
      ensures code == old(code) + LEA_RSI + L.ZERO_FIELD
    {
      EmitU8(0x48);
      EmitU8(0x8D);
      EmitU8(0x35);
      dispPos := |code|;
      EmitU32(0);
      LittleEndian4(0);
    }

    /** The part of a PRINT up to its displacement field, whose position it returns. */
    method EmitPrintStart() returns (dispPos: nat)
      modifies this`code
      ensures code == old(code) + (PRINT_PRE + L.ZERO_FIELD)
      ensures dispPos == |old(code)| + |PRINT_PRE|
    {
      EmitMovRegImm64(RAX, 1);
      EmitMovRegImm64(RDI, 1);
      dispPos := EmitLeaRsiRipPlaceholder();
    }

    method EmitPrint(text: string) returns (dispPos: nat)
      modifies this`code
      ensures code == old(code) + L.Emit(PrintChunk(text), L.ZERO_FIELD)
      ensures dispPos == |old(code)| + |PRINT_PRE|
    {
      ConcatAssoc(code, PRINT_PRE + L.ZERO_FIELD, PrintPost(|text|));
      dispPos := EmitPrintStart();
      EmitPrintEnd(|text|);
    }

    method EmitPrintEnd(length: nat)
      modifies this`code
      ensures code == old(code) + PrintPost(length)
    {
      EmitMovRegImm64(RDX, length);
      EmitSyscall();
    }

    method EmitHalt()
      modifies this`code
      ensures code == old(code) + HALT_CODE
    {
      EmitMovRegImm64(RAX, 60);
      EmitMovRegImm64(RDI, 0);
      EmitSyscall();
    }

    method GeneratePrint(text: string)
      modifies this
      ensures Buf() == Append(old(Buf()), PrintChunk(text))
    {
      var poolIndex := |stringPool|;
      stringPool := stringPool + [BytesOf(text)];
      stringPoolOffsets := stringPoolOffsets + [0];
      var dispPos := EmitPrint(text);
      printFixups := printFixups + [(dispPos, poolIndex)];
    }

    method GenerateInstruction(instr: IRInstruction)
      modifies this
      ensures Buf() == Append(old(Buf()), ChunkOf(instr))
    {
      match instr.op {
        case MOV =>
          if instr.src1.kind == Immediate {
            EmitMovRegImm64(instr.dst.value % 0x100, instr.src1.value);
          }
        case PRINT =>
          GeneratePrint(instr.text);
        case HALT =>
          EmitHalt();
        case _ =>
          EmitU8(0x90);
      }
    }

    method GenerateBasicBlock(block: IRBasicBlock)
      modifies this
      ensures Buf() == AppendAll(old(Buf()), Chunks(block.instructions))
    {
      for i := 0 to |block.instructions|
        invariant Buf() == AppendAll(old(Buf()), Chunks(block.instructions[..i]))
      {
        GenerateInstruction(block.instructions[i]);
        assert L.Init(Chunks(block.instructions[..i + 1])) == Chunks(block.instructions[..i]);
      }
      assert block.instructions[..|block.instructions|] == block.instructions;
    }

    /** add r64, imm32 */
    method EmitAddRegImm32(reg: byte, imm: int)
      requires reg < 8
      modifies this`code
      ensures code == old(code) + AddRegImm32(reg, imm)
    {
      EmitU8(0x48);
      EmitU8(0x81);
      EmitU8(0xC0 + reg);
      EmitU32(ToU32(imm));
    }

    method EmitPrologue(f: IRFunction)
      modifies this`code
      ensures Buf() == Append(old(Buf()), Prologue(f))
    {
      if f.name != "main" {
        EmitU8(0x55);
        EmitU8(0x48); EmitU8(0x89); EmitU8(0xE5);
        if f.stackSize > 0 {
          EmitAddRegImm32(RSP, -(f.stackSize as int));
        }
      }
    }

    method EmitEpilogue(f: IRFunction)
      modifies this`code
      ensures Buf() == Append(old(Buf()), Epilogue(f))
    {
      if f.name != "main" {
        EmitU8(0x48); EmitU8(0x89); EmitU8(0xEC);
        EmitU8(0x5D);
      }
      EmitU8(0xC3);
    }

    method GenerateFunction(f: IRFunction)
      modifies this
      ensures Buf() == AppendAll(old(Buf()), FunctionChunks(f))
    {
      EmitPrologue(f);
      ghost var body := Buf();
      for i := 0 to |f.blocks|
        invariant Buf() == AppendAll(body, Chunks(Instructions(f.blocks[..i])))
      {
        GenerateBasicBlock(f.blocks[i]);
        BlocksConcat(body, f.blocks, i);
      }
      assert f.blocks[..|f.blocks|] == f.blocks;
      EmitEpilogue(f);
      FunctionConcat(old(Buf()), f);
    }

    /** Code with every displacement patched, then the string pool. */
    method Generate(functions: seq<IRFunction>) returns (image: seq<byte>)
      modifies this
      ensures image == L.Link(ProgramChunks(functions))
    {
      code, stringPool, stringPoolOffsets, printFixups := [], [], [], [];
      for i := 0 to |functions|
        invariant Buf() == AppendAll(NOTHING, ProgramChunks(functions[..i]))
      {
        GenerateFunction(functions[i]);
        assert functions[..i + 1][..i] == functions[..i];
        AppendConcat(NOTHING, ProgramChunks(functions[..i]), FunctionChunks(functions[i]));
      }
      assert functions[..|functions|] == functions;
      ghost var cs := ProgramChunks(functions);
      Appended(cs);
      var poolBaseInCode := |code|;
      PlaceStrings();
      PatchAll(poolBaseInCode, cs);
      AppendStrings();
      image := code;
    }

    /** Each string's offset within the data section. */
    method PlaceStrings()
      requires |stringPoolOffsets| == |stringPool|
      modifies this`stringPoolOffsets
      ensures |stringPoolOffsets| == |stringPool|
      ensures forall k :: 0 <= k < |stringPool| ==> stringPoolOffsets[k] == |Flatten(stringPool[..k])|
    {
      var runningOffset := 0;
      for i := 0 to |stringPool|
        invariant |stringPoolOffsets| == |stringPool|
        invariant runningOffset == |Flatten(stringPool[..i])|
        invariant forall k :: 0 <= k < i ==> stringPoolOffsets[k] == |Flatten(stringPool[..k])|
      {
        stringPoolOffsets := stringPoolOffsets[i := runningOffset];
        runningOffset := runningOffset + |stringPool[i]|;
        assert stringPool[..i + 1][..i] == stringPool[..i];
      }
    }

    method AppendStrings()
      modifies this`code
      ensures code == old(code) + Flatten(stringPool)
    {
      for i := 0 to |stringPool|
        invariant code == old(code) + Flatten(stringPool[..i])
      {
        code := code + stringPool[i];
        assert stringPool[..i + 1][..i] == stringPool[..i];
      }
      assert stringPool[..|stringPool|] == stringPool;
    }

    /** Write every recorded displacement into its place. */
    method PatchAll(poolBaseInCode: nat, ghost cs: seq<L.Chunk>)
      requires code == L.Assemble(cs, L.Zeros(L.Refs(cs))) && poolBaseInCode == |code|
      requires stringPool == L.Data(cs) && |stringPoolOffsets| == |stringPool| == |printFixups|
      requires forall k :: 0 <= k < |stringPool| ==> stringPoolOffsets[k] == |Flatten(stringPool[..k])|
      requires forall k :: 0 <= k < |printFixups| ==> printFixups[k] == (L.Fixups(cs)[k], k)
      modifies this`code
      ensures code == L.Assemble(cs, L.FinalFields(cs))
    {
      L.PatchingStarts(cs);
      for i := 0 to |printFixups|
        invariant code == L.PartlyPatched(cs, i)
      {
        PatchFixup(i, poolBaseInCode, cs);
      }
    }

    method PatchFixup(i: nat, poolBaseInCode: nat, ghost cs: seq<L.Chunk>)
      requires i < |printFixups| == L.Refs(cs) && printFixups[i] == (L.Fixups(cs)[i], i)
      requires i < |stringPoolOffsets| && stringPoolOffsets[i] == |Flatten(L.Data(cs)[..i])|
      requires poolBaseInCode == L.CodeSize(cs) && code == L.PartlyPatched(cs, i)
      modifies this`code
      ensures code == L.PartlyPatched(cs, i + 1)
    {
      var dispPos, strIdx := printFixups[i].0, printFixups[i].1;
      var instrEnd, strOff := dispPos + 4, poolBaseInCode + stringPoolOffsets[strIdx];
      code := PatchDisp(code, dispPos, strOff - instrEnd, i, cs);
    }
  }

  /** The four byte stores of a displacement, the i-th to be patched. */
  method PatchDisp(code: seq<byte>, dispPos: nat, disp: int, ghost i: nat, ghost cs: seq<L.Chunk>)
    returns (r: seq<byte>)
    requires i < L.Refs(cs) && code == L.PartlyPatched(cs, i)
    requires dispPos == L.Fixups(cs)[i] && disp == L.Displacement(cs, i)
    ensures r == L.PartlyPatched(cs, i + 1)
  {
    L.PatchNext(cs, i, dispPos, disp);
    r := StoreField(code, dispPos, ToU32(disp));
  }

  method StoreField(code: seq<byte>, dispPos: nat, disp32: nat) returns (r: seq<byte>)
    requires dispPos + 4 <= |code|
    ensures r == L.Patch(code, dispPos, LittleEndian(disp32, 4))
  {
    LittleEndian4(disp32);
    r := code[dispPos := disp32 % 0x100];
    r := r[dispPos + 1 := disp32 / 0x100 % 0x100];
    r := r[dispPos + 2 := disp32 / 0x1_0000 % 0x100];
    r := r[dispPos + 3 := disp32 / 0x100_0000 % 0x100];
  }

  lemma {:induction false} BlocksConcat(b: Buffers, blocks: seq<IRBasicBlock>, i: nat)
    requires i < |blocks|
    ensures AppendAll(AppendAll(b, Chunks(Instructions(blocks[..i]))), Chunks(blocks[i].instructions))
         == AppendAll(b, Chunks(Instructions(blocks[..i + 1])))
  {
    assert blocks[..i + 1][..i] == blocks[..i];
    var x, y := Instructions(blocks[..i]), blocks[i].instructions;
    assert Chunks(x + y) == Chunks(x) + Chunks(y);
    AppendConcat(b, Chunks(x), Chunks(y));
  }

  lemma {:induction false} FunctionConcat(b: Buffers, f: IRFunction)
    ensures AppendAll(b, FunctionChunks(f))
         == Append(AppendAll(Append(b, Prologue(f)), Chunks(Instructions(f.blocks))), Epilogue(f))
  {
    var p, body := [Prologue(f)], Chunks(Instructions(f.blocks));
    assert L.Init(p) == [];
    AppendConcat(b, p, body);
    assert L.Init(FunctionChunks(f)) == p + body;
  }
}
