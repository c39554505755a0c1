/**
  Base64 as in section 4 of RFC 4648, wrapped to lines of at most 76 characters as section 6.8 of RFC 2045 wants them.
  Decoding undoes encoding and wrapping, and encoding undoes decoding.
 */
module Base64 {
  import opened Bytes
  import opened Wrappers
  import opened Strings

  type Sextet = v: nat | v < 64

  /** The alphabet, Table 1 of RFC 4648: A to Z, a to z, 0 to 9, + and /. */
  function Character(v: Sextet): char {
    if v < 26 then (v + 'A' as int) as char
    else if v < 52 then (v - 26 + 'a' as int) as char
    else if v < 62 then (v - 52 + '0' as int) as char
    else if v == 62 then '+' else '/'
  }

  const UPPER: string := "ABCDEFGHIJKLMNOPQRSTUVWXYZ"
  const LOWER: string := "abcdefghijklmnopqrstuvwxyz"
  const DIGITS: string := "0123456789"

  lemma {:induction false} UpperAt(v: nat)
    requires v < 26
    ensures UPPER[v] == Character(v)
  {
  }

  lemma {:induction false} LowerAt(v: nat)
    requires v < 26
    ensures LOWER[v] == Character(26 + v)
  {
  }

  lemma {:induction false} DigitAt(v: nat)
    requires v < 10
    ensures DIGITS[v] == Character(52 + v)
  {
  }

  /** The characters of the table in order. */
  lemma {:induction false} Alphabet(v: Sextet)
    ensures |UPPER + LOWER + DIGITS + "+/"| == 64 && Character(v) == (UPPER + LOWER + DIGITS + "+/")[v]
  {
    assert |UPPER| == 26 && |LOWER| == 26 && |DIGITS| == 10;
    if v < 26 {
      UpperAt(v);
    } else if v < 52 {
      LowerAt(v - 26);
    } else if v < 62 {
      DigitAt(v - 52);
    }
  }

  function ValueOf(c: char): Option<Sextet> {
    if 'A' <= c <= 'Z' then Some(c as int - 'A' as int)
    else if 'a' <= c <= 'z' then Some(c as int - 'a' as int + 26)
    else if '0' <= c <= '9' then Some(c as int - '0' as int + 52)
    else if c == '+' then Some(62)
    else if c == '/' then Some(63)
    else None
  }

  lemma {:induction false} CharacterValue(v: Sextet)
    ensures ValueOf(Character(v)) == Some(v) && Character(v) != '=' && Character(v) != '\n'
  {
  }

  lemma {:induction false} ValueCharacter(c: char)
    requires ValueOf(c).Some?
    ensures Character(ValueOf(c).value) == c
  {
  }

  // Three bytes and four characters.

  function First(a: byte): Sextet {
    a / 4
  }

  function Second(a: byte, b: byte): Sextet {
    a % 4 * 16 + b / 16
  }

  function Third(b: byte, c: byte): Sextet {
    b % 16 * 4 + c / 64
  }

  function Fourth(c: byte): Sextet {
    c % 64
  }

  lemma {:induction false} Div64(q: nat, r: nat)
    requires r < 64
    ensures (64 * q + r) / 64 == q && (64 * q + r) % 64 == r
  {
  }

  lemma {:induction false} DivTwice(x: nat)
    ensures x / 0x1000 == x / 64 / 64 && x / 0x4_0000 == x / 64 / 64 / 64
  {
  }

  /** The 24 bits of three bytes, six at a time. */
  lemma {:induction false} TripleSextets(a: byte, b: byte, c: byte, triple: nat)
    requires triple == a * 0x1_0000 + b * 0x100 + c
    ensures triple / 0x4_0000 % 64 == First(a) && triple / 0x1000 % 64 == Second(a, b)
    ensures triple / 0x40 % 64 == Third(b, c) && triple % 64 == Fourth(c)
  {
    var v0: nat, v1: nat, v2: nat, v3: nat := First(a), Second(a, b), Third(b, c), Fourth(c);
    SextetsOf(a, b, c);
    assert triple == 64 * (64 * (64 * v0 + v1) + v2) + v3;
    Div64(64 * (64 * v0 + v1) + v2, v3);
    Div64(64 * v0 + v1, v2);
    Div64(v0, v1);
    Div64(0, v0);
    DivTwice(triple);
  }

  lemma {:induction false} SextetsOf(a: byte, b: byte, c: byte)
    ensures var v0: nat, v1: nat, v2: nat, v3: nat := First(a), Second(a, b), Third(b, c), Fourth(c);
      a * 0x1_0000 + b * 0x100 + c == v0 * 0x4_0000 + v1 * 0x1000 + v2 * 0x40 + v3
  {
  }

  function FirstByte(v0: Sextet, v1: Sextet): byte {
    v0 * 4 + v1 / 16
  }

  function SecondByte(v1: Sextet, v2: Sextet): byte {
    v1 % 16 * 16 + v2 / 4
  }

  function ThirdByte(v2: Sextet, v3: Sextet): byte {
    v2 % 4 * 64 + v3
  }

  lemma {:induction false} BytesBack(a: byte, b: byte, c: byte)
    ensures FirstByte(First(a), Second(a, b)) == a
    ensures SecondByte(Second(a, b), Third(b, c)) == b
    ensures ThirdByte(Third(b, c), Fourth(c)) == c
    ensures Second(a, 0) % 16 == 0 && Third(b, 0) % 4 == 0
  {
  }

  lemma {:induction false} SextetsBack(v0: Sextet, v1: Sextet, v2: Sextet, v3: Sextet)
    ensures var a, b, c := FirstByte(v0, v1), SecondByte(v1, v2), ThirdByte(v2, v3);
      First(a) == v0 && Second(a, b) == v1 && Third(b, c) == v2 && Fourth(c) == v3
    ensures v1 % 16 == 0 ==> Second(FirstByte(v0, v1), 0) == v1
    ensures v2 % 4 == 0 ==> Third(SecondByte(v1, v2), 0) == v2
  {
  }

  // Encoding.

  /** Four characters for n bytes, padding where there are no bytes. */
  function Quad(v0: Sextet, v1: Sextet, v2: Sextet, v3: Sextet, n: nat): (s: string)
    ensures |s| == 4
  {
    [Character(v0), Character(v1), if n >= 2 then Character(v2) else '=', if n >= 3 then Character(v3) else '=']
  }

  /** The characters for n bytes; the bytes that are not there count as zero. */
  function Group(a: byte, b: byte, c: byte, n: nat): (s: string)
    ensures |s| == 4
  {
    Quad(First(a), Second(a, b), Third(b, c), Fourth(c), n)
  }

  /** Byte i of the data, or zero. */
  function ByteOr0(data: seq<byte>, i: nat): byte {
    if i < |data| then data[i] else 0
  }

  function FirstGroup(data: seq<byte>): (s: string)
    requires |data| > 0
    ensures |s| == 4
  {
    Group(data[0], ByteOr0(data, 1), ByteOr0(data, 2), |data|)
  }

  function Encoded(data: seq<byte>): string {
    if |data| == 0 then "" else if |data| <= 3 then FirstGroup(data) else FirstGroup(data) + Encoded(data[3..])
  }

  lemma {:induction false} EncodedLength(data: seq<byte>)
    ensures |Encoded(data)| == 4 * ((|data| + 2) / 3)
    decreases |data|
  {
    if 0 < |data| <= 3 {
      assert (|data| + 2) / 3 == 1;
    } else if |data| > 3 {
      var rest := Encoded(data[3..]);
      EncodedLength(data[3..]);
      GroupsOf(|data|);
      assert Encoded(data) == FirstGroup(data) + rest;
    }
  }

  lemma {:induction false} GroupsOf(n: nat)
    requires n > 3
    ensures (n + 2) / 3 == 1 + (n - 3 + 2) / 3
  {
  }

  /** out is what the bytes before i contribute, or everything. */
  ghost predicate EncodedTo(data: seq<byte>, i: nat, out: string) {
    if i < |data| then out + Encoded(data[i..]) == Encoded(data) else out == Encoded(data)
  }

  lemma {:induction false} EncodeStep(data: seq<byte>, i: nat, out: string)
    requires i < |data| && EncodedTo(data, i, out)
    ensures EncodedTo(data, i + 3, out + FirstGroup(data[i..]))
  {
    var rest := data[i..];
    if |rest| > 3 {
      assert rest[3..] == data[i + 3..];
      assert out + (FirstGroup(rest) + Encoded(data[i + 3..])) == out + FirstGroup(rest) + Encoded(data[i + 3..]);
    }
  }

  /** The body of the loop. */
  method AppendGroup(before: string, data: seq<byte>, i: nat) returns (out: string)
    requires i < |data|
    ensures out == before + FirstGroup(data[i..])
  {
    var a: nat, b: nat, c: nat :=
      data[i], if i + 1 < |data| then data[i + 1] else 0, if i + 2 < |data| then data[i + 2] else 0;
    var triple := a * 0x1_0000 + b * 0x100 + c;
    TripleSextets(a, b, c, triple);
    assert FirstGroup(data[i..]) == Group(a, b, c, |data| - i);
    out := before + [Character(triple / 0x4_0000 % 64)];
    out := out + [Character(triple / 0x1000 % 64)];
    out := out + [if i + 1 < |data| then Character(triple / 0x40 % 64) else '='];
    out := out + [if i + 2 < |data| then Character(triple % 64) else '='];
  }

  method Base64Encode(data: seq<byte>) returns (out: string)
    ensures out == Encoded(data)
  {
    out := "";
    var i := 0;
    assert data[0..] == data;
    while i < |data|
      invariant EncodedTo(data, i, out)
      decreases |data| - i
    {
      EncodeStep(data, i, out);
      out := AppendGroup(out, data, i);
      i := i + 3;
    }
  }

  // Decoding.

  /** Four characters; padding is allowed in the last group only, and the bits it leaves over must be zero. */
  function DecodedGroup(s: string, last: bool): (r: Option<seq<byte>>)
    requires |s| == 4
  {
    if ValueOf(s[0]).None? || ValueOf(s[1]).None? then None
    else
      var v0, v1 := ValueOf(s[0]).value, ValueOf(s[1]).value;
      if s[2] == '=' && s[3] == '=' then if last && v1 % 16 == 0 then Some([FirstByte(v0, v1)]) else None
      else if ValueOf(s[2]).None? then None
      else
        var v2 := ValueOf(s[2]).value;
        if s[3] == '=' then if last && v2 % 4 == 0 then Some([FirstByte(v0, v1), SecondByte(v1, v2)]) else None
        else if ValueOf(s[3]).None? then None
        else Some([FirstByte(v0, v1), SecondByte(v1, v2), ThirdByte(v2, ValueOf(s[3]).value)])
  }

  function Decoded(s: string): (r: Option<seq<byte>>)
    decreases |s|
  {
    if |s| == 0 then Some([])
    else if |s| < 4 then None
    else
      var group, rest := DecodedGroup(s[..4], |s| == 4), Decoded(s[4..]);
      if group.Some? && rest.Some? then Some(group.value + rest.value) else None
  }

  /** What n bytes' worth of sextets stand for. */
  function Unpacked(v0: Sextet, v1: Sextet, v2: Sextet, v3: Sextet, n: nat): (g: seq<byte>)
    requires n >= 1
  {
    if n == 1 then [FirstByte(v0, v1)]
    else if n == 2 then [FirstByte(v0, v1), SecondByte(v1, v2)]
    else [FirstByte(v0, v1), SecondByte(v1, v2), ThirdByte(v2, v3)]
  }

  lemma {:induction false} QuadDecodes(v0: Sextet, v1: Sextet, v2: Sextet, v3: Sextet, n: nat, last: bool)
    requires n >= 1 && (n < 3 ==> last) && (n == 1 ==> v1 % 16 == 0) && (n == 2 ==> v2 % 4 == 0)
    ensures DecodedGroup(Quad(v0, v1, v2, v3, n), last) == Some(Unpacked(v0, v1, v2, v3, n))
  {
    CharacterValue(v0);
    CharacterValue(v1);
    CharacterValue(v2);
    CharacterValue(v3);
  }

  /** The bytes of a group. */
  function Taken(a: byte, b: byte, c: byte, n: nat): seq<byte>
    requires n >= 1
  {
    if n == 1 then [a] else if n == 2 then [a, b] else [a, b, c]
  }

  lemma {:induction false} UnpackedBack(a: byte, b: byte, c: byte, n: nat)
    requires n >= 1
    ensures Unpacked(First(a), Second(a, b), Third(b, c), Fourth(c), n) == Taken(a, b, c, n)
  {
    BytesBack(a, b, c);
  }

  lemma {:induction false} GroupDecodes(a: byte, b: byte, c: byte, n: nat, last: bool)
    requires 1 <= n && (n < 2 ==> b == 0) && (n < 3 ==> c == 0 && last)
    ensures DecodedGroup(Group(a, b, c, n), last) == Some(Taken(a, b, c, n))
  {
    BytesBack(a, b, c);
    QuadDecodes(First(a), Second(a, b), Third(b, c), Fourth(c), n, last);
    UnpackedBack(a, b, c, n);
  }

  lemma {:induction false} DecodeEncoded(data: seq<byte>)
    ensures Decoded(Encoded(data)) == Some(data)
    decreases |data|
  {
    if |data| > 0 {
      var s, first := Encoded(data), FirstGroup(data);
      FirstGroupDecodes(data);
      EncodedLength(data);
      assert s[..4] == first;
      if |data| <= 3 {
        assert s[4..] == "";
        assert data + [] == data;
      } else {
        DecodeEncoded(data[3..]);
        assert s[4..] == Encoded(data[3..]);
        assert data == data[..3] + data[3..];
      }
    }
  }

  lemma {:induction false} FirstGroupDecodes(data: seq<byte>)
    requires |data| > 0
    ensures DecodedGroup(FirstGroup(data), |data| <= 3) == Some(if |data| <= 3 then data else data[..3])
  {
    GroupDecodes(data[0], ByteOr0(data, 1), ByteOr0(data, 2), |data|, |data| <= 3);
    assert Taken(data[0], ByteOr0(data, 1), ByteOr0(data, 2), |data|) == if |data| <= 3 then data else data[..3];
  }

  /** The sextets that a group's characters stand for, and how many bytes they are. */
  lemma {:induction false} GroupShape(s: string, last: bool)
    returns (v0: Sextet, v1: Sextet, v2: Sextet, v3: Sextet, n: nat)
    requires |s| == 4 && DecodedGroup(s, last).Some?
    ensures 1 <= n <= 3 && (n < 3 ==> last && v3 == 0)
    ensures (n == 1 ==> v1 % 16 == 0 && v2 == 0) && (n == 2 ==> v2 % 4 == 0)
    ensures s == Quad(v0, v1, v2, v3, n) && DecodedGroup(s, last).value == Unpacked(v0, v1, v2, v3, n)
  {
    v0, v1, v2, v3, n := ValueOf(s[0]).value, ValueOf(s[1]).value, 0, 0, 1;
    ValueCharacter(s[0]);
    ValueCharacter(s[1]);
    if ValueOf(s[2]).Some? {
      v2, n := ValueOf(s[2]).value, 2;
      ValueCharacter(s[2]);
      if ValueOf(s[3]).Some? {
        v3, n := ValueOf(s[3]).value, 3;
        ValueCharacter(s[3]);
      }
    }
  }

  lemma {:induction false} RepackGroup(v0: Sextet, v1: Sextet, v2: Sextet, v3: Sextet, n: nat)
    requires 1 <= n <= 3 && (n < 3 ==> v3 == 0) && (n == 1 ==> v1 % 16 == 0 && v2 == 0) && (n == 2 ==> v2 % 4 == 0)
    ensures FirstGroup(Unpacked(v0, v1, v2, v3, n)) == Quad(v0, v1, v2, v3, n)
  {
    var g := Unpacked(v0, v1, v2, v3, n);
    SextetsBack(v0, v1, v2, v3);
    assert FirstGroup(g) == Group(g[0], ByteOr0(g, 1), ByteOr0(g, 2), n);
    SameQuad(First(g[0]), Second(g[0], ByteOr0(g, 1)), Third(ByteOr0(g, 1), ByteOr0(g, 2)), Fourth(ByteOr0(g, 2)),
             v0, v1, v2, v3, n);
  }

  lemma {:induction false} SameQuad(a0: Sextet, a1: Sextet, a2: Sextet, a3: Sextet,
                                    b0: Sextet, b1: Sextet, b2: Sextet, b3: Sextet, n: nat)
    requires a0 == b0 && a1 == b1 && (n >= 2 ==> a2 == b2) && (n >= 3 ==> a3 == b3)
    ensures Quad(a0, a1, a2, a3, n) == Quad(b0, b1, b2, b3, n)
  {
  }

  lemma {:induction false} GroupEncodes(s: string, last: bool)
    requires |s| == 4 && DecodedGroup(s, last).Some?
    ensures var g := DecodedGroup(s, last).value;
      1 <= |g| <= 3 && (|g| < 3 ==> last) && FirstGroup(g) == s
  {
    var v0, v1, v2, v3, n := GroupShape(s, last);
    RepackGroup(v0, v1, v2, v3, n);
  }

  /** Only the encoding of a byte string decodes to it. */
  lemma {:induction false} EncodeDecoded(s: string)
    requires Decoded(s).Some?
    ensures Encoded(Decoded(s).value) == s
    decreases |s|
  {
    if |s| > 0 {
      GroupEncodes(s[..4], |s| == 4);
      EncodeDecoded(s[4..]);
      var g, rest := DecodedGroup(s[..4], |s| == 4).value, Decoded(s[4..]).value;
      EncodeConcat(g, rest);
      assert s == s[..4] + s[4..];
    }
  }

  lemma {:induction false} EncodeConcat(g: seq<byte>, rest: seq<byte>)
    requires 1 <= |g| <= 3 && (|g| < 3 ==> rest == [])
    ensures Encoded(g + rest) == FirstGroup(g) + Encoded(rest)
  {
    if |rest| == 0 {
      assert g + rest == g;
      assert FirstGroup(g) + "" == FirstGroup(g);
    } else {
      assert (g + rest)[3..] == rest;
    }
  }

  lemma {:induction false} GroupCharacters(a: byte, b: byte, c: byte, n: nat)
    requires 1 <= n
    ensures var s := Group(a, b, c, n);
      && '\n' !in s && s[0] != '=' && s[1] != '=' && (s[2] == '=' <==> n < 2) && (s[3] == '=' <==> n < 3)
  {
    CharacterValue(First(a));
    CharacterValue(Second(a, b));
    CharacterValue(Third(b, c));
    CharacterValue(Fourth(c));
  }

  lemma {:induction false} OnlyLegal(data: seq<byte>)
    ensures '\n' !in Encoded(data)
    decreases |data|
  {
    if |data| > 0 {
      GroupCharacters(data[0], ByteOr0(data, 1), ByteOr0(data, 2), |data|);
      if |data| > 3 {
        OnlyLegal(data[3..]);
      }
    }
  }

  // Lines.

  /** substr(0, width). */
  function Cut(s: string, width: nat): (line: string)
    ensures |line| == if |s| <= width then |s| else width
    ensures line == s[..|line|]
  {
    if |s| <= width then s else s[..width]
  }

  function Lines(s: string, width: nat): (ls: seq<string>)
    requires width > 0
    ensures forall i :: 0 <= i < |ls| ==> 0 < |ls[i]| <= width
    ensures forall i :: 0 <= i < |ls| - 1 ==> |ls[i]| == width
    decreases |s|
  {
    if |s| == 0 then [] else [Cut(s, width)] + Lines(s[|Cut(s, width)|..], width)
  }

  function Terminated(lines: seq<string>): string {
    if |lines| == 0 then "" else lines[0] + "\n" + Terminated(lines[1..])
  }

  lemma {:induction false} TerminatedFirst(line: string, rest: seq<string>)
    ensures Terminated([line] + rest) == line + ("\n" + Terminated(rest))
    ensures Joined([line] + rest) == line + Joined(rest)
  {
    assert ([line] + rest)[1..] == rest;
    assert line + "\n" + Terminated(rest) == line + ("\n" + Terminated(rest));
  }

  function Wrapped(s: string, width: nat): string {
    if width == 0 then s else Terminated(Lines(s, width))
  }

  method WrapBase64Lines(b64: string, width: nat) returns (out: string)
    ensures out == Wrapped(b64, width)
  {
    if width == 0 {
      return b64;
    }
    out := "";
    var i := 0;
    WrapStart(b64, width);
    while i < |b64|
      invariant WrappedTo(b64, width, i, out)
      decreases |b64| - i
    {
      WrapStep(b64, i, width, out);
      out := out + Cut(b64[i..], width) + "\n";
      i := i + width;
    }
  }

  /** out is what the characters before i contribute, or everything. */
  ghost predicate WrappedTo(s: string, width: nat, i: nat, out: string)
    requires width > 0
  {
    if i < |s| then out + Terminated(Lines(s[i..], width)) == Wrapped(s, width) else out == Wrapped(s, width)
  }

  lemma {:induction false} WrapStart(s: string, width: nat)
    requires width > 0
    ensures WrappedTo(s, width, 0, "")
  {
    assert s[0..] == s;
    assert "" + Terminated(Lines(s, width)) == Terminated(Lines(s, width));
  }

  lemma {:induction false} WrapStep(s: string, i: nat, width: nat, out: string)
    requires i < |s| && width > 0 && WrappedTo(s, width, i, out)
    ensures WrappedTo(s, width, i + width, out + Cut(s[i..], width) + "\n")
  {
    var rest := s[i..];
    var line := Cut(rest, width);
    TerminatedFirst(line, Lines(rest[|line|..], width));
    if i + width < |s| {
      assert rest[|line|..] == s[i + width..];
      assert out + (line + ("\n" + Terminated(Lines(s[i + width..], width))))
          == out + line + "\n" + Terminated(Lines(s[i + width..], width));
    } else {
      assert rest[|line|..] == "";
      assert out + (line + ("\n" + "")) == out + line + "\n";
    }
  }

  /** The text without its line feeds. */
  function Unwrapped(s: string): string {
    if |s| == 0 then "" else (if s[0] == '\n' then "" else [s[0]]) + Unwrapped(s[1..])
  }

  lemma {:induction false} UnwrapLine(line: string, rest: string)
    requires '\n' !in line
    ensures Unwrapped(line + rest) == line + Unwrapped(rest)
    decreases |line|
  {
    if |line| == 0 {
      assert line + rest == rest;
    } else {
      assert (line + rest)[1..] == line[1..] + rest;
      UnwrapLine(line[1..], rest);
    }
  }

  lemma {:induction false} UnwrapFirst(line: string, rest: seq<string>)
    requires '\n' !in line
    ensures Unwrapped(Terminated([line] + rest)) == line + Unwrapped(Terminated(rest))
  {
    var tail := "\n" + Terminated(rest);
    TerminatedFirst(line, rest);
    UnwrapLine(line, tail);
    assert tail[1..] == Terminated(rest);
  }

  lemma {:induction false} UnwrapLines(s: string, width: nat)
    requires '\n' !in s && width > 0
    ensures Unwrapped(Terminated(Lines(s, width))) == s && Joined(Lines(s, width)) == s
    decreases |s|
  {
    if |s| > 0 {
      var line := Cut(s, width);
      var rest := s[|line|..];
      UnwrapLines(rest, width);
      UnwrapFirst(line, Lines(rest, width));
      TerminatedFirst(line, Lines(rest, width));
      assert s == line + rest;
    }
  }

  /** Wrapped to any width, the text of any bytes has lines of at most that width, and joined and decoded it is the
      bytes again. */
  lemma {:induction false} WrappedRoundTrip(data: seq<byte>, width: nat)
    ensures Decoded(Unwrapped(Wrapped(Encoded(data), width))) == Some(data)
    ensures width > 0 ==> Joined(Lines(Encoded(data), width)) == Encoded(data)
  {
    OnlyLegal(data);
    DecodeEncoded(data);
    if width == 0 {
      UnwrapLine(Encoded(data), "");
      assert Encoded(data) + "" == Encoded(data);
      assert Encoded(data) + Unwrapped("") == Encoded(data);
    } else {
      UnwrapLines(Encoded(data), width);
    }
  }

  /** How many bytes the last group lacks. */
  function Missing(n: nat): nat {
    (3 - n % 3) % 3
  }

  /** One, two or no characters of padding at the end, by the number of bytes left over; and none anywhere else. */
  lemma {:induction false} Padding(data: seq<byte>)
    ensures var s := Encoded(data);
      |s| >= Missing(|data|) && forall i :: 0 <= i < |s| ==> (s[i] == '=' <==> i >= |s| - Missing(|data|))
    decreases |data|
  {
    if |data| > 0 {
      GroupCharacters(data[0], ByteOr0(data, 1), ByteOr0(data, 2), |data|);
      if |data| > 3 {
        Padding(data[3..]);
        assert Missing(|data|) == Missing(|data| - 3);
        var s, first, rest := Encoded(data), FirstGroup(data), Encoded(data[3..]);
        forall i | 0 <= i < |s| ensures s[i] == if i < 4 then first[i] else rest[i - 4] {
        }
      }
    }
  }

  const LINE_WIDTH: nat := 76

  /** The base64 text of a file. */
  method Pack(data: seq<byte>) returns (text: string)
    ensures Decoded(Unwrapped(text)) == Some(data)
    ensures text == Terminated(Lines(Encoded(data), LINE_WIDTH))
    ensures forall i :: 0 <= i < |Lines(Encoded(data), LINE_WIDTH)| ==> |Lines(Encoded(data), LINE_WIDTH)[i]| <= 76
  {
    var b64 := Base64Encode(data);
    text := WrapBase64Lines(b64, LINE_WIDTH);
    WrappedRoundTrip(data, LINE_WIDTH);
  }
}
