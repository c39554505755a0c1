/** A linked program inside its loaded ELF file: where each chunk's bytes are, and where its reference leads. */
module Process {
  import opened Bytes
  import opened Wrappers
  import opened Machine
  import L = Layout
  import Elf

  /** The segment of the ELF file around the linked chunks. */
  function ImageOf(cs: seq<L.Chunk>): Image {
    Image(Elf.IMAGE_BASE, Elf.ElfFile(L.Link(cs)), true, true, Elf.IMAGE_BASE + Elf.CODE_OFFSET)
  }

  /** The segment is within the 64-bit address space, and every displacement keeps its sign in 32 bits. */
  ghost predicate Fits(cs: seq<L.Chunk>) {
    && Elf.IMAGE_BASE + Elf.CODE_OFFSET + |L.Link(cs)| < TWO64
    && forall k :: 0 <= k < L.Refs(cs) ==> L.Displacement(cs, k) < TWO31
  }

  /** It is enough that the linked code and data are below 2^31 bytes. */
  lemma {:induction false} SmallFits(cs: seq<L.Chunk>)
    requires |L.Link(cs)| < TWO31
    ensures Fits(cs)
  {
    forall k | 0 <= k < L.Refs(cs) ensures L.Displacement(cs, k) < TWO31 {
      FlattenPlaced(L.Data(cs), k);
    }
  }

  lemma {:induction false} Loaded(cs: seq<L.Chunk>)
    requires Fits(cs)
    ensures Elf.Load(Elf.ElfFile(L.Link(cs))) == Some(ImageOf(cs))
  {
    Elf.LoadsBack(L.Link(cs));
  }

  /** Where chunk k's code starts in the segment. */
  function Offset(cs: seq<L.Chunk>, k: nat): nat
    requires k <= |cs|
  {
    Elf.CODE_OFFSET + L.CodeSize(cs[..k])
  }

  lemma {:induction false} ImageSize(cs: seq<L.Chunk>)
    requires Fits(cs)
    ensures |ImageOf(cs).bytes| == Elf.CODE_OFFSET + |L.Link(cs)| && ImageOf(cs).base + |ImageOf(cs).bytes| < TWO64
  {
    Elf.HeaderSize(L.Link(cs));
  }

  lemma {:induction false} CodeAt(cs: seq<L.Chunk>, p: nat, bs: seq<byte>)
    requires Fits(cs) && Holds(L.Link(cs), p, bs)
    ensures |ImageOf(cs).bytes| == Elf.CODE_OFFSET + |L.Link(cs)|
    ensures Holds(ImageOf(cs).bytes, Elf.CODE_OFFSET + p, bs)
  {
    Elf.HeaderSize(L.Link(cs));
    HoldsBack(Elf.HeaderOf(L.Link(cs)), L.Link(cs), p, bs);
  }

  lemma {:induction false} PlainAt(cs: seq<L.Chunk>, k: nat)
    requires Fits(cs) && k < |cs| && cs[k].Plain?
    ensures Holds(ImageOf(cs).bytes, Offset(cs, k), cs[k].code)
    ensures Offset(cs, k + 1) == Offset(cs, k) + |cs[k].code|
  {
    L.PlainPlaced(cs, k);
    CodeAt(cs, L.CodeSize(cs[..k]), cs[k].code);
    L.NextChunk(cs, k);
  }

  /** The displacement in the code is not negative, fits its 32 bits, and leads to the chunk's own data. */
  lemma {:induction false} RefAt(cs: seq<L.Chunk>, k: nat) returns (disp: nat)
    requires Fits(cs) && k < |cs| && cs[k].WithData?
    ensures disp < TWO31
    ensures Holds(ImageOf(cs).bytes, Offset(cs, k), cs[k].pre + LittleEndian(disp, 4) + cs[k].post)
    ensures Holds(ImageOf(cs).bytes, Offset(cs, k) + |cs[k].pre| + 4 + disp, cs[k].data)
    ensures Offset(cs, k + 1) == Offset(cs, k) + |cs[k].pre| + 4 + |cs[k].post|
  {
    L.RefPlaced(cs, k);
    var r := L.Refs(cs[..k]);
    disp := L.Displacement(cs, r);
    CodeAt(cs, L.CodeSize(cs[..k]), L.Emit(cs[k], L.FinalFields(cs)[r]));
    CodeAt(cs, L.DataStart(cs, k), cs[k].data);
    SmallField(disp);
    L.NextChunk(cs, k);
  }

  lemma {:induction false} SmallField(disp: nat)
    requires disp < TWO31
    ensures L.FieldOf(disp) == LittleEndian(disp, 4)
  {
    assert ToU32(disp) == disp;
  }

  /** What the machine reads from the field is the displacement it was written for if and only if that is in the range
      of a signed 32-bit number. */
  lemma {:induction false} FieldReadsBack(disp: int)
    ensures FromLittleEndian(L.FieldOf(disp)) < TWO32
    ensures SignExtend32(FromLittleEndian(L.FieldOf(disp))) == disp <==> -TWO31 <= disp < TWO31
  {
    Widths();
    LittleEndianRoundTrip(ToU32(disp), 4);
  }

  /** Control at chunk k. */
  function StateAt(cs: seq<L.Chunk>, k: nat, regs: Registers, trace: seq<Event>): State
    requires k <= |cs|
  {
    Running(regs, Elf.IMAGE_BASE + Offset(cs, k), trace)
  }
}
