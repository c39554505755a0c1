/** From source lines to the trace of the executable: the front end, the generator and the ELF builder together. */
module Source {
  import opened Bytes
  import opened Wrappers
  import opened Machine
  import opened Aot
  import opened Process
  import opened AotCorrect
  import opened FrontEnd
  import L = Layout
  import Elf

  function SourceChunks(m: Statics, lines: seq<string>): seq<L.Chunk> {
    ProgramChunks([MainFunction(WithHalt(Lower(m, lines).1))])
  }

  /** The executable of a source loads, prints what first-match semantics says up to the first halt, and exits 0. */
  lemma {:induction false} SourceRuns(m: Statics, lines: seq<string>, items: seq<Item>, regs: Registers)
    requires Good(items) && NoArrows(items) && Cleaned(lines) == WrittenAll(items)
    requires Fits(SourceChunks(m, lines))
    ensures Elf.Load(Elf.ElfFile(L.Link(SourceChunks(m, lines)))) == Some(ImageOf(SourceChunks(m, lines)))
    ensures EndsIn(ImageOf(SourceChunks(m, lines)), regs, Exited(0, Outputs(Meaning(items))))
  {
    var code := Lower(m, lines).1;
    SourceMeaning(m, lines, items);
    AlwaysHalts(code);
    var main := MainFunction(WithHalt(code));
    GeneratedProgramRuns([main], regs);
    OneBlock(main.blocks[0]);
  }

  lemma {:induction false} OneBlock(block: IRBasicBlock)
    ensures Instructions([block]) == block.instructions
  {
    assert [block][..0] == [];
    assert Instructions([]) + block.instructions == block.instructions;
  }

  /** The compiler: None for an empty source. */
  method Compile(lines: seq<string>, leftover: Statics) returns (executable: Option<seq<byte>>)
    ensures executable == if |lines| == 0 then None else Some(Elf.ElfFile(L.Link(SourceChunks(leftover, lines))))
  {
    var parser := new Parser(lines, leftover);
    var functions := parser.Parse([]);
    if functions.None? {
      return None;
    }
    assert functions.value == [MainFunction(WithHalt(Lower(leftover, lines).1))];
    var file := CompileToNative(functions.value, true);
    return Some(file);
  }
}
