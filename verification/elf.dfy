/**
  The two ELF builders, and a loader that reads a file back as chapters 4 and 5 of the System V gABI lay it out:
  the ELF header, one program header, and the PT_LOAD segment it describes.
 */
module Elf {
  import opened Bytes
  import opened Wrappers
  import opened Machine

  const IMAGE_BASE: nat := 0x40_0000
  const EHDR_SIZE: nat := 64
  const PHDR_SIZE: nat := 56
  const CODE_OFFSET: nat := 120

  const IDENT: seq<byte> := [0x7F, 0x45, 0x4C, 0x46, 2, 1, 1, 0, 0, 0, 0, 0, 0, 0, 0, 0]

  /** A header field: its width in bytes and its value. */
  datatype Field = Field(width: nat, value: nat)

  /** The fields behind e_ident, in file order: the ELF header, then the program header, for a file of this size. */
  function FieldAt(k: nat, fileSize: nat): Field
    requires k < 21
  {
    match k
    case 0 => Field(2, 2)  // e_type = ET_EXEC
    case 1 => Field(2, 0x3E)  // e_machine = EM_X86_64
    case 2 => Field(4, 1)  // e_version
    case 3 => Field(8, IMAGE_BASE + CODE_OFFSET)  // e_entry
    case 4 => Field(8, EHDR_SIZE)  // e_phoff
    case 5 => Field(8, 0)  // e_shoff
    case 6 => Field(4, 0)  // e_flags
    case 7 => Field(2, EHDR_SIZE)  // e_ehsize
    case 8 => Field(2, PHDR_SIZE)  // e_phentsize
    case 9 => Field(2, 1)  // e_phnum
    case 10 => Field(2, 0)  // e_shentsize
    case 11 => Field(2, 0)  // e_shnum
    case 12 => Field(2, 0)  // e_shstrndx
    case 13 => Field(4, 1)  // p_type = PT_LOAD
    case 14 => Field(4, 5)  // p_flags = PF_X | PF_R
    case 15 => Field(8, 0)  // p_offset
    case 16 => Field(8, IMAGE_BASE)  // p_vaddr
    case 17 => Field(8, IMAGE_BASE)  // p_paddr
    case 18 => Field(8, fileSize)  // p_filesz
    case 19 => Field(8, fileSize)  // p_memsz
    case 20 => Field(8, 0x1000)  // p_align
  }

  function HeaderFields(fileSize: nat): (fields: seq<Field>)
    ensures |fields| == 21
  {
    seq(21, k requires 0 <= k < 21 => FieldAt(k, fileSize))
  }

  function Parts(fields: seq<Field>): (parts: seq<seq<byte>>)
    ensures |parts| == |fields|
  {
    seq(|fields|, k requires 0 <= k < |fields| => LittleEndian(fields[k].value, fields[k].width))
  }

  function HeaderOf(code: seq<byte>): seq<byte> {
    IDENT + Flatten(Parts(HeaderFields(CODE_OFFSET + |code|)))
  }

  function ElfFile(code: seq<byte>): seq<byte> {
    HeaderOf(code) + code
  }

  // Loading.

  function ReadField(file: seq<byte>, at: nat, width: nat): nat
    requires at + width <= |file|
  {
    FromLittleEndian(file[at..at + width])
  }

  /** The process image of an executable with a single segment; None for anything else. */
  function Load(file: seq<byte>): Option<Image> {
    if |file| < 64 || file[..7] != [0x7F, 0x45, 0x4C, 0x46, 2, 1, 1] then None
    else if ReadField(file, 16, 2) != 2 || ReadField(file, 18, 2) != 0x3E || ReadField(file, 20, 4) != 1 then None
    else if ReadField(file, 52, 2) != 64 || ReadField(file, 54, 2) != 56 || ReadField(file, 56, 2) != 1 then None
    else
      var entry, ph := ReadField(file, 24, 8), ReadField(file, 32, 8);
      if |file| < ph + 56 || ReadField(file, ph, 4) != 1 then None
      else
        var flags, offset, vaddr := ReadField(file, ph + 4, 4), ReadField(file, ph + 8, 8), ReadField(file, ph + 16, 8);
        var fileSize, memSize := ReadField(file, ph + 32, 8), ReadField(file, ph + 40, 8);
        var align := ReadField(file, ph + 48, 8);
        if memSize < fileSize || |file| < offset + fileSize then None
        else if align > 1 && vaddr % align != offset % align then None
        else
          var bytes := file[offset..offset + fileSize] + seq(memSize - fileSize, _ => 0);
          Some(Image(vaddr, bytes, flags / 4 % 2 == 1, flags % 2 == 1, entry))
  }

  // What the builders append.

  /** append_u16_le, append_u32_le and append_u64_le. */
  method AppendU16(out: seq<byte>, v: nat) returns (r: seq<byte>)
    ensures r == out + LittleEndian(v, 2)
  {
    r := out + [v % 0x100];
    r := r + [v / 0x100 % 0x100];
    Shr8Small(v);
  }

  method AppendU32(out: seq<byte>, v: nat) returns (r: seq<byte>)
    ensures r == out + LittleEndian(v, 4)
  {
    r := out + [v % 0x100];
    r := r + [v / 0x100 % 0x100];
    r := r + [v / 0x1_0000 % 0x100];
    r := r + [v / 0x100_0000 % 0x100];
    LittleEndian4(v);
  }

  method AppendU64(out: seq<byte>, v: nat) returns (r: seq<byte>)
    ensures r == out + LittleEndian(v, 8)
  {
    r := AppendU32(out, v % TWO32);
    r := AppendU32(r, v / TWO32 % TWO32);
    LittleEndian8(v, v % TWO32, v / TWO32 % TWO32);
  }

  /** The loop that pushes one byte per shift by eight bits. */
  method PushShifted(out: seq<byte>, v: nat, n: nat) returns (r: seq<byte>)
    ensures r == out + LittleEndian(v, n)
  {
    r := out;
    for i := 0 to n
      invariant r == out + LittleEndian(v, n)[..i]
    {
      r := r + [Shr8(v, i) % 0x100];
    }
  }

  /** The loop that pushes n zero bytes. */
  method PushZeros(out: seq<byte>, n: nat) returns (r: seq<byte>)
    ensures r == out + LittleEndian(0, n)
  {
    r := out;
    for i := 0 to n
      invariant r == out + LittleEndian(0, n)[..i]
    {
      Shr8Zero(i);
      r := r + [0];
    }
  }

  lemma {:induction false} EightZeros()
    ensures LittleEndian(0, 8) == [0, 0, 0, 0, 0, 0, 0, 0]
  {
    forall i: nat | i < 8 ensures LittleEndian(0, 8)[i] == 0 {
      Shr8Zero(i);
    }
  }

  lemma {:induction false} Shr8Zero(k: nat)
    ensures Shr8(0, k) == 0
  {
    if k > 0 { Shr8Zero(k - 1); }
  }

  /** The header up to its k-th field. */
  ghost function HeaderUpTo(fileSize: nat, k: nat): seq<byte>
    requires k <= 21
  {
    IDENT + Flatten(Parts(HeaderFields(fileSize))[..k])
  }

  lemma {:induction false} HeaderStarts(fileSize: nat)
    ensures HeaderUpTo(fileSize, 0) == IDENT
  {
    assert Parts(HeaderFields(fileSize))[..0] == [];
  }

  lemma {:induction false} HeaderDone(code: seq<byte>)
    ensures HeaderUpTo(CODE_OFFSET + |code|, 21) == HeaderOf(code)
  {
    var parts := Parts(HeaderFields(CODE_OFFSET + |code|));
    assert parts[..21] == parts;
  }

  /** One more field after the first k. */
  lemma {:induction false} NextPart(out: seq<byte>, fileSize: nat, k: nat, v: nat, width: nat)
    requires k < 21 && out == HeaderUpTo(fileSize, k) && FieldAt(k, fileSize) == Field(width, v)
    ensures out + LittleEndian(v, width) == HeaderUpTo(fileSize, k + 1)
  {
    var parts, bs := Parts(HeaderFields(fileSize)), LittleEndian(v, width);
    assert parts[..k + 1][..k] == parts[..k];
    assert IDENT + (Flatten(parts[..k]) + bs) == out + bs;
  }

  /** A one-byte value pushed as a field of two bytes, or of four. */
  method Push2(out: seq<byte>, v: byte) returns (r: seq<byte>)
    ensures r == out + LittleEndian(v, 2)
  {
    r := out + [v, 0];
    Shr8Small(v);
  }

  method Push4(out: seq<byte>, v: byte) returns (r: seq<byte>)
    ensures r == out + LittleEndian(v, 4)
  {
    r := out + [v, 0, 0, 0];
    LittleEndian4(v);
  }

  /** The ELF header part of AOTCompiler::build_elf_executable. */
  method BuildElfExecutableEhdr(fileSize: nat) returns (out: seq<byte>)
    ensures out == HeaderUpTo(fileSize, 7)
  {
    var entry := IMAGE_BASE + CODE_OFFSET;
    out := [0x7F, 0x45, 0x4C, 0x46, 2, 1, 1, 0];
    out := PushZeros(out, 8);
    EightZeros();
    HeaderStarts(fileSize);
    NextPart(out, fileSize, 0, 2, 2);
    out := Push2(out, 2);  // e_type
    NextPart(out, fileSize, 1, 0x3E, 2);
    out := Push2(out, 0x3E);  // e_machine
    NextPart(out, fileSize, 2, 1, 4);
    out := Push4(out, 1);  // e_version
    NextPart(out, fileSize, 3, entry, 8);
    out := PushShifted(out, entry, 8);  // e_entry
    NextPart(out, fileSize, 4, EHDR_SIZE, 8);
    out := PushShifted(out, EHDR_SIZE, 8);  // e_phoff
    NextPart(out, fileSize, 5, 0, 8);
    out := PushZeros(out, 8);  // e_shoff
    NextPart(out, fileSize, 6, 0, 4);
    out := PushZeros(out, 4);  // e_flags
  }

  /** Its sizes and counts. */
  method BuildElfExecutableSizes(fileSize: nat, start: seq<byte>) returns (out: seq<byte>)
    requires start == HeaderUpTo(fileSize, 7)
    ensures out == HeaderUpTo(fileSize, 13)
  {
    out := start;
    NextPart(out, fileSize, 7, 64, 2);
    out := Push2(out, 64);  // e_ehsize
    NextPart(out, fileSize, 8, 56, 2);
    out := Push2(out, 56);  // e_phentsize
    NextPart(out, fileSize, 9, 1, 2);
    out := Push2(out, 1);  // e_phnum
    NextPart(out, fileSize, 10, 0, 2);
    out := Push2(out, 0);  // e_shentsize
    NextPart(out, fileSize, 11, 0, 2);
    out := Push2(out, 0);  // e_shnum
    NextPart(out, fileSize, 12, 0, 2);
    out := Push2(out, 0);  // e_shstrndx
  }

  /** The program header part of AOTCompiler::build_elf_executable. */
  method BuildElfExecutablePhdr(fileSize: nat, ehdr: seq<byte>) returns (out: seq<byte>)
    requires ehdr == HeaderUpTo(fileSize, 13)
    ensures out == HeaderUpTo(fileSize, 21)
  {
    out := ehdr;
    NextPart(out, fileSize, 13, 1, 4);
    out := Push4(out, 1);  // p_type
    NextPart(out, fileSize, 14, 5, 4);
    out := Push4(out, 5);  // p_flags
    NextPart(out, fileSize, 15, 0, 8);
    out := PushZeros(out, 8);  // p_offset
    NextPart(out, fileSize, 16, IMAGE_BASE, 8);
    out := PushShifted(out, IMAGE_BASE, 8);  // p_vaddr
    NextPart(out, fileSize, 17, IMAGE_BASE, 8);
    out := PushShifted(out, IMAGE_BASE, 8);  // p_paddr
    NextPart(out, fileSize, 18, fileSize, 8);
    out := PushShifted(out, fileSize, 8);  // p_filesz
    NextPart(out, fileSize, 19, fileSize, 8);
    out := PushShifted(out, fileSize, 8);  // p_memsz
    NextPart(out, fileSize, 20, 0x1000, 8);
    out := PushShifted(out, 0x1000, 8);  // p_align
  }

  /** AOTCompiler::build_elf_executable */
  method BuildElfExecutable(machineCode: seq<byte>) returns (out: seq<byte>)
    ensures out == ElfFile(machineCode)
  {
    var fileSize := CODE_OFFSET + |machineCode|;
    out := BuildElfExecutableEhdr(fileSize);
    out := BuildElfExecutableSizes(fileSize, out);
    out := BuildElfExecutablePhdr(fileSize, out);
    HeaderDone(machineCode);
    out := out + machineCode;
  }

  /** The ELF header part of build_elf_image. */
  method BuildElfImageEhdr(fileSize: nat) returns (out: seq<byte>)
    ensures out == HeaderUpTo(fileSize, 7)
  {
    out := [0x7F, 0x45, 0x4C, 0x46, 2, 1, 1, 0];
    out := PushZeros(out, 8);
    EightZeros();
    HeaderStarts(fileSize);
    NextPart(out, fileSize, 0, 2, 2);
    out := AppendU16(out, 2);  // e_type
    NextPart(out, fileSize, 1, 0x3E, 2);
    out := AppendU16(out, 0x3E);  // e_machine
    NextPart(out, fileSize, 2, 1, 4);
    out := AppendU32(out, 1);  // e_version
    NextPart(out, fileSize, 3, IMAGE_BASE + CODE_OFFSET, 8);
    out := AppendU64(out, IMAGE_BASE + CODE_OFFSET);  // e_entry
    NextPart(out, fileSize, 4, EHDR_SIZE, 8);
    out := AppendU64(out, EHDR_SIZE);  // e_phoff
    NextPart(out, fileSize, 5, 0, 8);
    out := AppendU64(out, 0);  // e_shoff
    NextPart(out, fileSize, 6, 0, 4);
    out := AppendU32(out, 0);  // e_flags
  }

  /** Its sizes and counts. */
  method BuildElfImageSizes(fileSize: nat, start: seq<byte>) returns (out: seq<byte>)
    requires start == HeaderUpTo(fileSize, 7)
    ensures out == HeaderUpTo(fileSize, 13)
  {
    out := start;
    NextPart(out, fileSize, 7, EHDR_SIZE, 2);
    out := AppendU16(out, EHDR_SIZE);  // e_ehsize
    NextPart(out, fileSize, 8, PHDR_SIZE, 2);
    out := AppendU16(out, PHDR_SIZE);  // e_phentsize
    NextPart(out, fileSize, 9, 1, 2);
    out := AppendU16(out, 1);  // e_phnum
    NextPart(out, fileSize, 10, 0, 2);
    out := AppendU16(out, 0);  // e_shentsize
    NextPart(out, fileSize, 11, 0, 2);
    out := AppendU16(out, 0);  // e_shnum
    NextPart(out, fileSize, 12, 0, 2);
    out := AppendU16(out, 0);  // e_shstrndx
  }

  /** The program header part of build_elf_image. */
  method BuildElfImagePhdr(fileSize: nat, ehdr: seq<byte>) returns (out: seq<byte>)
    requires ehdr == HeaderUpTo(fileSize, 13)
    ensures out == HeaderUpTo(fileSize, 21)
  {
    out := ehdr;
    NextPart(out, fileSize, 13, 1, 4);
    out := AppendU32(out, 1);  // p_type
    NextPart(out, fileSize, 14, 5, 4);
    out := AppendU32(out, 5);  // p_flags
    NextPart(out, fileSize, 15, 0, 8);
    out := AppendU64(out, 0);  // p_offset
    NextPart(out, fileSize, 16, IMAGE_BASE, 8);
    out := AppendU64(out, IMAGE_BASE);  // p_vaddr
    NextPart(out, fileSize, 17, IMAGE_BASE, 8);
    out := AppendU64(out, IMAGE_BASE);  // p_paddr
    NextPart(out, fileSize, 18, fileSize, 8);
    out := AppendU64(out, fileSize);  // p_filesz
    NextPart(out, fileSize, 19, fileSize, 8);
    out := AppendU64(out, fileSize);  // p_memsz
    NextPart(out, fileSize, 20, 0x1000, 8);
    out := AppendU64(out, 0x1000);  // p_align
  }

  /** build_elf_image */
  method BuildElfImage(machineCode: seq<byte>) returns (out: seq<byte>)
    ensures out == ElfFile(machineCode)
  {
    var fileSize := CODE_OFFSET + |machineCode|;
    out := BuildElfImageEhdr(fileSize);
    out := BuildElfImageSizes(fileSize, out);
    out := BuildElfImagePhdr(fileSize, out);
    HeaderDone(machineCode);
    out := out + machineCode;
  }

  // Reading the file back.

  /** Where the fields start: 16 bytes of e_ident, then the ELF header up to 64. */
  ghost predicate EhdrOffsets(parts: seq<seq<byte>>) {
    && |parts| == 21
    && |Flatten(parts[..0])| + 16 == 16
    && |Flatten(parts[..1])| + 16 == 18
    && |Flatten(parts[..2])| + 16 == 20
    && |Flatten(parts[..3])| + 16 == 24
    && |Flatten(parts[..4])| + 16 == 32
    && |Flatten(parts[..5])| + 16 == 40
    && |Flatten(parts[..6])| + 16 == 48
    && |Flatten(parts[..7])| + 16 == 52
    && |Flatten(parts[..8])| + 16 == 54
    && |Flatten(parts[..9])| + 16 == 56
    && |Flatten(parts[..10])| + 16 == 58
    && |Flatten(parts[..11])| + 16 == 60
    && |Flatten(parts[..12])| + 16 == 62
    && |Flatten(parts[..13])| + 16 == 64
  }

  /** The program header from 64 up to 120. */
  ghost predicate PhdrOffsets(parts: seq<seq<byte>>) {
    && |parts| == 21
    && |Flatten(parts[..13])| + 16 == 64
    && |Flatten(parts[..14])| + 16 == 68
    && |Flatten(parts[..15])| + 16 == 72
    && |Flatten(parts[..16])| + 16 == 80
    && |Flatten(parts[..17])| + 16 == 88
    && |Flatten(parts[..18])| + 16 == 96
    && |Flatten(parts[..19])| + 16 == 104
    && |Flatten(parts[..20])| + 16 == 112
    && |Flatten(parts)| + 16 == CODE_OFFSET
  }

  lemma {:induction false} EhdrSizes(fields: seq<Field>, fileSize: nat)
    requires fields == HeaderFields(fileSize)
    ensures EhdrOffsets(Parts(fields))
  {
    var parts := Parts(fields);
    assert parts[..0] == [];
    FlattenNext(parts, 0);
    FlattenNext(parts, 1);
    FlattenNext(parts, 2);
    FlattenNext(parts, 3);
    FlattenNext(parts, 4);
    FlattenNext(parts, 5);
    FlattenNext(parts, 6);
    FlattenNext(parts, 7);
    FlattenNext(parts, 8);
    FlattenNext(parts, 9);
    FlattenNext(parts, 10);
    FlattenNext(parts, 11);
    FlattenNext(parts, 12);
  }

  lemma {:induction false} EhdrEnd(fields: seq<Field>, fileSize: nat)
    requires fields == HeaderFields(fileSize)
    ensures |Flatten(Parts(fields)[..13])| + 16 == 64
  {
    EhdrSizes(fields, fileSize);
  }

  lemma {:induction false} PhdrSizes(fields: seq<Field>, fileSize: nat)
    requires fields == HeaderFields(fileSize)
    ensures PhdrOffsets(Parts(fields))
  {
    var parts := Parts(fields);
    EhdrEnd(fields, fileSize);
    FlattenNext(parts, 13);
    FlattenNext(parts, 14);
    FlattenNext(parts, 15);
    FlattenNext(parts, 16);
    FlattenNext(parts, 17);
    FlattenNext(parts, 18);
    FlattenNext(parts, 19);
    FlattenNext(parts, 20);
    assert parts[..21] == parts;
  }

  lemma {:induction false} ReadsBack(fields: seq<Field>, code: seq<byte>, k: nat, at: nat, v: nat, width: nat)
    requires k < |fields| && at == 16 + |Flatten(Parts(fields)[..k])|
    requires fields[k] == Field(width, v) && v < Pow256(width)
    ensures at + width <= |IDENT + Flatten(Parts(fields)) + code|
    ensures ReadField(IDENT + Flatten(Parts(fields)) + code, at, width) == v
  {
    var parts := Parts(fields);
    FlattenPlaced(parts, k);
    HoldsBack(IDENT, Flatten(parts), |Flatten(parts[..k])|, parts[k]);
    HoldsFront(IDENT + Flatten(parts), code, at, parts[k]);
    LittleEndianRoundTrip(v, width);
  }

  /** Every field at the offset the gABI gives it: those of the ELF header that a loader looks at. */
  ghost predicate EhdrReads(file: seq<byte>) {
    && |file| >= EHDR_SIZE
    && ReadField(file, 16, 2) == 2  // e_type
    && ReadField(file, 18, 2) == 0x3E  // e_machine
    && ReadField(file, 20, 4) == 1  // e_version
    && ReadField(file, 24, 8) == 0x40_0078  // e_entry
    && ReadField(file, 32, 8) == 64  // e_phoff
    && ReadField(file, 52, 2) == 64  // e_ehsize
    && ReadField(file, 54, 2) == 56  // e_phentsize
    && ReadField(file, 56, 2) == 1  // e_phnum
  }

  /** The rest of the ELF header: the identification, no flags and no sections. */
  ghost predicate EhdrRest(file: seq<byte>) {
    && |file| >= EHDR_SIZE
    && file[..16] == [0x7F, 0x45, 0x4C, 0x46, 2, 1, 1, 0, 0, 0, 0, 0, 0, 0, 0, 0]  // e_ident
    && ReadField(file, 40, 8) == 0  // e_shoff
    && ReadField(file, 48, 4) == 0  // e_flags
    && ReadField(file, 58, 2) == 0  // e_shentsize
    && ReadField(file, 60, 2) == 0  // e_shnum
    && ReadField(file, 62, 2) == 0  // e_shstrndx
  }

  /** And in the program header behind it. */
  ghost predicate PhdrReads(file: seq<byte>, size: nat) {
    && |file| >= CODE_OFFSET
    && ReadField(file, 64, 4) == 1  // p_type
    && ReadField(file, 68, 4) == 5  // p_flags
    && ReadField(file, 72, 8) == 0  // p_offset
    && ReadField(file, 80, 8) == 0x40_0000  // p_vaddr
    && ReadField(file, 88, 8) == 0x40_0000  // p_paddr
    && ReadField(file, 96, 8) == size  // p_filesz
    && ReadField(file, 104, 8) == size  // p_memsz
    && ReadField(file, 112, 8) == 0x1000  // p_align
  }

  lemma {:induction false} EhdrReadsBack(code: seq<byte>)
    ensures EhdrReads(ElfFile(code))
  {
    var fields := HeaderFields(CODE_OFFSET + |code|);
    HeaderSize(code);
    EhdrSizes(fields, CODE_OFFSET + |code|);
    Widths();
    ReadsBack(fields, code, 0, 16, 2, 2);
    ReadsBack(fields, code, 1, 18, 0x3E, 2);
    ReadsBack(fields, code, 2, 20, 1, 4);
    ReadsBack(fields, code, 3, 24, IMAGE_BASE + CODE_OFFSET, 8);
    ReadsBack(fields, code, 4, 32, EHDR_SIZE, 8);
    ReadsBack(fields, code, 7, 52, EHDR_SIZE, 2);
    ReadsBack(fields, code, 8, 54, PHDR_SIZE, 2);
    ReadsBack(fields, code, 9, 56, 1, 2);
  }

  lemma {:induction false} EhdrRestBack(code: seq<byte>)
    ensures EhdrRest(ElfFile(code))
  {
    var fields := HeaderFields(CODE_OFFSET + |code|);
    HeaderSize(code);
    EhdrSizes(fields, CODE_OFFSET + |code|);
    Widths();
    ReadsBack(fields, code, 5, 40, 0, 8);
    ReadsBack(fields, code, 6, 48, 0, 4);
    ReadsBack(fields, code, 10, 58, 0, 2);
    ReadsBack(fields, code, 11, 60, 0, 2);
    ReadsBack(fields, code, 12, 62, 0, 2);
    assert ElfFile(code)[..16] == HeaderOf(code)[..16] == IDENT;
  }

  lemma {:induction false} PhdrReadsBack(code: seq<byte>)
    requires CODE_OFFSET + |code| < TWO64
    ensures PhdrReads(ElfFile(code), CODE_OFFSET + |code|)
  {
    var size := CODE_OFFSET + |code|;
    var fields := HeaderFields(size);
    PhdrSizes(fields, size);
    Widths();
    ReadsBack(fields, code, 13, 64, 1, 4);
    ReadsBack(fields, code, 14, 68, 5, 4);
    ReadsBack(fields, code, 15, 72, 0, 8);
    ReadsBack(fields, code, 16, 80, IMAGE_BASE, 8);
    ReadsBack(fields, code, 17, 88, IMAGE_BASE, 8);
    ReadsBack(fields, code, 18, 96, size, 8);
    ReadsBack(fields, code, 19, 104, size, 8);
    ReadsBack(fields, code, 20, 112, 0x1000, 8);
  }

  lemma {:induction false} FieldsReadBack(code: seq<byte>)
    requires CODE_OFFSET + |code| < TWO64
    ensures |HeaderOf(code)| == CODE_OFFSET
    ensures EhdrReads(ElfFile(code)) && EhdrRest(ElfFile(code)) && PhdrReads(ElfFile(code), CODE_OFFSET + |code|)
  {
    HeaderSize(code);
    EhdrRestBack(code);
    EhdrReadsBack(code);
    PhdrReadsBack(code);
  }

  /** The file is an executable whose one segment is the whole file at 0x400000, entered at the first code byte. */
  lemma {:induction false} LoadsBack(code: seq<byte>)
    requires CODE_OFFSET + |code| < TWO64
    ensures Load(ElfFile(code)) == Some(Image(IMAGE_BASE, ElfFile(code), true, true, IMAGE_BASE + CODE_OFFSET))
  {
    FieldsReadBack(code);
    LoadedImage(HeaderOf(code), code);
  }

  lemma {:induction false} LoadedImage(header: seq<byte>, code: seq<byte>)
    requires |header| == CODE_OFFSET && header[..16] == IDENT
    requires EhdrReads(header + code) && PhdrReads(header + code, |header + code|)
    ensures Load(header + code) == Some(Image(IMAGE_BASE, header + code, true, true, IMAGE_BASE + CODE_OFFSET))
  {
    var file := header + code;
    assert file[..7] == header[..16][..7] == IDENT[..7];
    assert file[0..|file|] + seq(0, _ => 0) == file;
  }

  lemma {:induction false} HeaderSize(code: seq<byte>)
    ensures |HeaderOf(code)| == CODE_OFFSET
  {
    PhdrSizes(HeaderFields(CODE_OFFSET + |code|), CODE_OFFSET + |code|);
  }
}
