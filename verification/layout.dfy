/**
  Code followed by a data pool, with RIP-relative references from the one to the other. Both native back ends emit
  code with zero displacements first, record where each displacement sits, and patch them once the pool's place is
  known. Here is what the finished image is, and that patching reaches it.
 */
module Layout {
  import opened Bytes

  /** A piece of code, either without a reference or with one 32-bit displacement to its own data. */
  datatype Chunk =
    | Plain(code: seq<byte>)
    | WithData(pre: seq<byte>, data: seq<byte>, post: seq<byte>)

  /** A displacement as it sits in the code. */
  type Field = s: seq<byte> | |s| == 4 witness [0, 0, 0, 0]

  const ZERO_FIELD: Field := [0, 0, 0, 0]

  function FieldOf(disp: int): Field {
    LittleEndian(ToU32(disp), 4)
  }

  function Size(c: Chunk): nat {
    match c
    case Plain(code) => |code|
    case WithData(pre, _, post) => |pre| + 4 + |post|
  }

  function Emit(c: Chunk, field: Field): (s: seq<byte>)
    ensures |s| == Size(c)
  {
    match c
    case Plain(code) => code
    case WithData(pre, _, post) => pre + field + post
  }

  function Init(cs: seq<Chunk>): seq<Chunk>
    requires |cs| > 0
  {
    cs[..|cs| - 1]
  }

  function Last(cs: seq<Chunk>): Chunk
    requires |cs| > 0
  {
    cs[|cs| - 1]
  }

  function CodeSize(cs: seq<Chunk>): nat {
    if |cs| == 0 then 0 else CodeSize(Init(cs)) + Size(Last(cs))
  }

  /** The number of displacements. */
  function Refs(cs: seq<Chunk>): nat {
    if |cs| == 0 then 0 else Refs(Init(cs)) + (if Last(cs).WithData? then 1 else 0)
  }

  /** Where each displacement sits in the code. */
  function Fixups(cs: seq<Chunk>): (s: seq<nat>)
    ensures |s| == Refs(cs)
  {
    if |cs| == 0 then []
    else if Last(cs).WithData? then Fixups(Init(cs)) + [CodeSize(Init(cs)) + |Last(cs).pre|]
    else Fixups(Init(cs))
  }

  /** The data of every reference, in order. */
  function Data(cs: seq<Chunk>): (s: seq<seq<byte>>)
    ensures |s| == Refs(cs)
  {
    if |cs| == 0 then []
    else if Last(cs).WithData? then Data(Init(cs)) + [Last(cs).data]
    else Data(Init(cs))
  }

  function InitFields(cs: seq<Chunk>, fields: seq<Field>): (f: seq<Field>)
    requires |cs| > 0 && |fields| == Refs(cs)
    ensures |f| == Refs(Init(cs))
  {
    if Last(cs).WithData? then fields[..|fields| - 1] else fields
  }

  function LastField(cs: seq<Chunk>, fields: seq<Field>): Field
    requires |cs| > 0 && |fields| == Refs(cs)
  {
    if Last(cs).WithData? then fields[|fields| - 1] else ZERO_FIELD
  }

  /** The code with the given displacement fields. */
  function Assemble(cs: seq<Chunk>, fields: seq<Field>): (s: seq<byte>)
    requires |fields| == Refs(cs)
    ensures |s| == CodeSize(cs)
  {
    if |cs| == 0 then [] else Assemble(Init(cs), InitFields(cs, fields)) + Emit(Last(cs), LastField(cs, fields))
  }

  function Zeros(n: nat): (f: seq<Field>)
    ensures |f| == n
  {
    seq(n, _ => ZERO_FIELD)
  }

  /** From the end of the k-th displacement field to its data behind the whole code. */
  function Displacement(cs: seq<Chunk>, k: nat): int
    requires k < Refs(cs)
  {
    CodeSize(cs) + |Flatten(Data(cs)[..k])| - (Fixups(cs)[k] + 4)
  }

  function FinalFields(cs: seq<Chunk>): (f: seq<Field>)
    ensures |f| == Refs(cs)
  {
    seq(Refs(cs), k requires 0 <= k < Refs(cs) => FieldOf(Displacement(cs, k)))
  }

  /** The finished image: patched code, then the pool. */
  function Link(cs: seq<Chunk>): (s: seq<byte>)
    ensures |s| == CodeSize(cs) + |Flatten(Data(cs))|
  {
    Assemble(cs, FinalFields(cs)) + Flatten(Data(cs))
  }

  /** Overwrite the four bytes at position p. */
  function Patch(s: seq<byte>, p: nat, field: Field): (r: seq<byte>)
    requires p + 4 <= |s|
    ensures |r| == |s|
  {
    s[..p] + field + s[p + 4..]
  }

  lemma {:induction false} FixupInCode(cs: seq<Chunk>, k: nat)
    requires k < Refs(cs)
    ensures Fixups(cs)[k] + 4 <= CodeSize(cs)
  {
    if !(Last(cs).WithData? && k == Refs(cs) - 1) {
      FixupInCode(Init(cs), k);
    }
  }

  lemma {:induction false} PatchFront(s: seq<byte>, t: seq<byte>, p: nat, field: Field)
    requires p + 4 <= |s|
    ensures Patch(s + t, p, field) == Patch(s, p, field) + t
  {
  }

  lemma {:induction false} PatchAt(a: seq<byte>, was: Field, b: seq<byte>, field: Field)
    ensures Patch(a + was + b, |a|, field) == a + field + b
  {
  }

  /** Patching one recorded position changes exactly that field. */
  lemma {:induction false} PatchOne(cs: seq<Chunk>, fields: seq<Field>, k: nat, field: Field)
    requires |fields| == Refs(cs) && k < Refs(cs)
    ensures Fixups(cs)[k] + 4 <= CodeSize(cs)
    ensures Patch(Assemble(cs, fields), Fixups(cs)[k], field) == Assemble(cs, fields[k := field])
  {
    FixupInCode(cs, k);
    if Last(cs).WithData? && k == |fields| - 1 {
      PatchLastOf(cs, fields, field);
    } else {
      var last := Emit(Last(cs), LastField(cs, fields));
      PatchOne(Init(cs), InitFields(cs, fields), k, field);
      PatchFront(Assemble(Init(cs), InitFields(cs, fields)), last, Fixups(cs)[k], field);
      InitFieldsUpdate(cs, fields, k, field);
    }
  }

  lemma {:induction false} InitFieldsUpdate(cs: seq<Chunk>, fields: seq<Field>, k: nat, field: Field)
    requires |cs| > 0 && |fields| == Refs(cs) && k < Refs(Init(cs))
    ensures InitFields(cs, fields[k := field]) == InitFields(cs, fields)[k := field]
    ensures LastField(cs, fields[k := field]) == LastField(cs, fields)
  {
  }

  lemma {:induction false} PatchLastOf(cs: seq<Chunk>, fields: seq<Field>, field: Field)
    requires |cs| > 0 && Last(cs).WithData? && |fields| == Refs(cs)
    ensures var k := |fields| - 1;
            && Fixups(cs)[k] + 4 <= CodeSize(cs)
            && Patch(Assemble(cs, fields), Fixups(cs)[k], field) == Assemble(cs, fields[k := field])
  {
    var k := |fields| - 1;
    LastFixup(cs);
    PatchLast(cs, fields[..k], fields[k], field);
    assert fields == fields[..k] + [fields[k]];
    assert fields[k := field] == fields[..k] + [field];
  }

  lemma {:induction false} PatchLast(cs: seq<Chunk>, before: seq<Field>, was: Field, field: Field)
    requires |cs| > 0 && Last(cs).WithData? && |before| == Refs(Init(cs))
    ensures Patch(Assemble(cs, before + [was]), CodeSize(Init(cs)) + |Last(cs).pre|, field)
         == Assemble(cs, before + [field])
  {
    AssembleLast(cs, before, was);
    AssembleLast(cs, before, field);
    PatchEmit(Assemble(Init(cs), before), Last(cs), was, field);
  }

  lemma {:induction false} PatchEmit(code: seq<byte>, c: Chunk, was: Field, field: Field)
    requires c.WithData?
    ensures Patch(code + Emit(c, was), |code| + |c.pre|, field) == code + Emit(c, field)
  {
    EmitSplit(code, c, was);
    EmitSplit(code, c, field);
    PatchAt(code + c.pre, was, c.post, field);
  }

  lemma {:induction false} AssembleLast(cs: seq<Chunk>, fields: seq<Field>, field: Field)
    requires |cs| > 0 && Last(cs).WithData? && |fields| == Refs(Init(cs))
    ensures Assemble(cs, fields + [field]) == Assemble(Init(cs), fields) + Emit(Last(cs), field)
  {
    assert InitFields(cs, fields + [field]) == fields;
  }

  lemma {:induction false} LastFixup(cs: seq<Chunk>)
    requires |cs| > 0 && Last(cs).WithData?
    ensures Fixups(cs)[Refs(cs) - 1] == CodeSize(Init(cs)) + |Last(cs).pre|
  {
  }

  lemma {:induction false} EmitSplit(before: seq<byte>, c: Chunk, field: Field)
    requires c.WithData?
    ensures before + Emit(c, field) == (before + c.pre) + field + c.post
  {
  }

  /** The code once the first k displacements are patched. */
  function PartlyPatched(cs: seq<Chunk>, k: nat): (s: seq<byte>)
    requires k <= Refs(cs)
    ensures |s| == CodeSize(cs)
  {
    Assemble(cs, FinalFields(cs)[..k] + Zeros(Refs(cs) - k))
  }

  lemma {:induction false} PatchingStarts(cs: seq<Chunk>)
    ensures PartlyPatched(cs, 0) == Assemble(cs, Zeros(Refs(cs)))
    ensures PartlyPatched(cs, Refs(cs)) == Assemble(cs, FinalFields(cs))
  {
    assert FinalFields(cs)[..0] + Zeros(Refs(cs)) == Zeros(Refs(cs));
    assert FinalFields(cs)[..Refs(cs)] + Zeros(0) == FinalFields(cs);
  }

  /** Writing the k-th displacement over its zero field. */
  lemma {:induction false} PatchNext(cs: seq<Chunk>, k: nat, position: nat, disp: int)
    requires k < Refs(cs) && position == Fixups(cs)[k] && disp == Displacement(cs, k)
    ensures position + 4 <= CodeSize(cs)
    ensures Patch(PartlyPatched(cs, k), position, FieldOf(disp)) == PartlyPatched(cs, k + 1)
  {
    var fields := FinalFields(cs)[..k] + Zeros(Refs(cs) - k);
    PatchOne(cs, fields, k, FieldOf(disp));
    OneMoreField(FinalFields(cs), k);
    assert FinalFields(cs)[k] == FieldOf(disp);
  }

  lemma {:induction false} OneMoreField(final: seq<Field>, k: nat)
    requires k < |final|
    ensures (final[..k] + Zeros(|final| - k))[k := final[k]] == final[..k + 1] + Zeros(|final| - (k + 1))
  {
  }

  /** Appending one chunk with a zero displacement. */
  lemma {:induction false} AppendChunk(cs: seq<Chunk>, c: Chunk)
    ensures Refs(cs + [c]) == Refs(cs) + (if c.WithData? then 1 else 0)
    ensures Assemble(cs + [c], Zeros(Refs(cs + [c]))) == Assemble(cs, Zeros(Refs(cs))) + Emit(c, ZERO_FIELD)
    ensures CodeSize(cs + [c]) == CodeSize(cs) + Size(c)
    ensures Fixups(cs + [c]) == Fixups(cs) + if c.WithData? then [CodeSize(cs) + |c.pre|] else []
    ensures Data(cs + [c]) == Data(cs) + if c.WithData? then [c.data] else []
  {
    assert Init(cs + [c]) == cs;
    if c.WithData? {
      assert Zeros(Refs(cs) + 1)[..Refs(cs)] == Zeros(Refs(cs));
    }
  }

  /** One more chunk. */
  lemma {:induction false} NextChunk(cs: seq<Chunk>, i: nat)
    requires i < |cs|
    ensures CodeSize(cs[..i + 1]) == CodeSize(cs[..i]) + Size(cs[i])
    ensures Refs(cs[..i + 1]) == Refs(cs[..i]) + (if cs[i].WithData? then 1 else 0)
  {
    assert Init(cs[..i + 1]) == cs[..i];
  }

  lemma {:induction false} PrefixSizes(cs: seq<Chunk>, i: nat)
    requires i <= |cs|
    ensures CodeSize(cs[..i]) <= CodeSize(cs) && Refs(cs[..i]) <= Refs(cs)
  {
    if i == |cs| {
      assert cs[..i] == cs;
    } else {
      PrefixSizes(Init(cs), i);
      assert Init(cs)[..i] == cs[..i];
    }
  }

  /** Chunk i's reference is number Refs(cs[..i]), for its position and for its data. */
  lemma {:induction false} RefAt(cs: seq<Chunk>, i: nat)
    requires i < |cs| && cs[i].WithData?
    ensures Refs(cs[..i]) < Refs(cs)
    ensures Fixups(cs)[Refs(cs[..i])] == CodeSize(cs[..i]) + |cs[i].pre|
    ensures Data(cs)[Refs(cs[..i])] == cs[i].data
    ensures Data(cs)[..Refs(cs[..i])] == Data(cs[..i])
  {
    if i == |cs| - 1 {
      assert cs[..i] == Init(cs);
    } else {
      RefAt(Init(cs), i);
      assert Init(cs)[..i] == cs[..i];
    }
  }

  /** The field chunk i gets. */
  function FieldAt(cs: seq<Chunk>, fields: seq<Field>, i: nat): Field
    requires i < |cs| && |fields| == Refs(cs)
  {
    if cs[i].WithData? then RefAt(cs, i); fields[Refs(cs[..i])] else ZERO_FIELD
  }

  lemma {:induction false} FieldAtInit(cs: seq<Chunk>, fields: seq<Field>, i: nat)
    requires i < |cs| - 1 && |fields| == Refs(cs)
    ensures Init(cs)[..i] == cs[..i]
    ensures FieldAt(Init(cs), InitFields(cs, fields), i) == FieldAt(cs, fields, i)
  {
    assert Init(cs)[..i] == cs[..i];
    if cs[i].WithData? {
      RefAt(Init(cs), i);
    }
  }

  /** Each chunk's code sits right behind the code of the chunks before it. */
  lemma {:induction false} ChunkPlaced(cs: seq<Chunk>, fields: seq<Field>, i: nat)
    requires i < |cs| && |fields| == Refs(cs)
    ensures Holds(Assemble(cs, fields), CodeSize(cs[..i]), Emit(cs[i], FieldAt(cs, fields, i)))
  {
    var before, last := Assemble(Init(cs), InitFields(cs, fields)), Emit(Last(cs), LastField(cs, fields));
    if i == |cs| - 1 {
      assert cs[..i] == Init(cs);
      HoldsEnd(before, last);
    } else {
      ChunkPlaced(Init(cs), InitFields(cs, fields), i);
      FieldAtInit(cs, fields, i);
      HoldsFront(before, last, CodeSize(cs[..i]), Emit(cs[i], FieldAt(cs, fields, i)));
    }
  }

  /** Where chunk i's data starts in the image. */
  function DataStart(cs: seq<Chunk>, i: nat): nat
    requires i <= |cs|
  {
    CodeSize(cs) + |Flatten(Data(cs[..i]))|
  }

  /** A plain chunk's code sits right behind the chunks before it. */
  lemma {:induction false} PlainPlaced(cs: seq<Chunk>, i: nat)
    requires i < |cs| && cs[i].Plain?
    ensures Holds(Link(cs), CodeSize(cs[..i]), cs[i].code)
  {
    ChunkPlaced(cs, FinalFields(cs), i);
    HoldsFront(Assemble(cs, FinalFields(cs)), Flatten(Data(cs)), CodeSize(cs[..i]), cs[i].code);
  }

  /**
    A chunk with a reference sits right behind the chunks before it, its field is that of the distance from the
    field's end to the chunk's own data, and the data is there.
   */
  lemma {:induction false} RefPlaced(cs: seq<Chunk>, i: nat)
    requires i < |cs| && cs[i].WithData?
    ensures Refs(cs[..i]) < Refs(cs)
    ensures Displacement(cs, Refs(cs[..i])) == DataStart(cs, i) - (CodeSize(cs[..i]) + |cs[i].pre| + 4) >= 0
    ensures Holds(Link(cs), CodeSize(cs[..i]), Emit(cs[i], FinalFields(cs)[Refs(cs[..i])]))
    ensures Holds(Link(cs), DataStart(cs, i), cs[i].data)
  {
    var k, code, pool := Refs(cs[..i]), Assemble(cs, FinalFields(cs)), Flatten(Data(cs));
    RefAt(cs, i);
    ChunkPlaced(cs, FinalFields(cs), i);
    HoldsFront(code, pool, CodeSize(cs[..i]), Emit(cs[i], FinalFields(cs)[k]));
    FlattenPlaced(Data(cs), k);
    HoldsBack(code, pool, |Flatten(Data(cs[..i]))|, cs[i].data);
  }
}
