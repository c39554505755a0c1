/** Bytes, little-endian fields and two's complement, as the code generators and file builders use them. */
module Bytes {

  type byte = x: int | 0 <= x < 0x100

  const TWO31: int := 0x8000_0000
  const TWO32: int := 0x1_0000_0000
  const TWO64: int := 0x1_0000_0000_0000_0000

  /** A 64-bit machine word. */
  type Word = x: int | 0 <= x < TWO64

  function Pow256(n: nat): (p: nat)
    ensures p >= 1
  {
    if n == 0 then 1 else 256 * Pow256(n - 1)
  }

  /** v shifted right by 8 * k bits. */
  function Shr8(v: nat, k: nat): nat {
    if k == 0 then v else Shr8(v / 256, k - 1)
  }

  /** The n-byte little-endian field that holds v mod 256^n. */
  function LittleEndian(v: nat, n: nat): (s: seq<byte>)
    ensures |s| == n
  {
    seq(n, i requires 0 <= i < n => Shr8(v, i) % 256)
  }

  function FromLittleEndian(s: seq<byte>): nat {
    if |s| == 0 then 0 else s[0] + 256 * FromLittleEndian(s[1..])
  }

  lemma {:induction false} LittleEndianRoundTrip(v: nat, n: nat)
    requires v < Pow256(n)
    ensures FromLittleEndian(LittleEndian(v, n)) == v
  {
    if n > 0 {
      LittleEndianRoundTrip(v / 256, n - 1);
      assert LittleEndian(v, n)[1..] == LittleEndian(v / 256, n - 1);
    }
  }

  lemma {:induction false} FromLittleEndianBound(s: seq<byte>)
    ensures FromLittleEndian(s) < Pow256(|s|)
  {
    if |s| > 0 {
      FromLittleEndianBound(s[1..]);
    }
  }

  lemma {:induction false} Widths()
    ensures Pow256(2) == 0x1_0000 && Pow256(4) == TWO32 && Pow256(8) == TWO64
  {
    assert Pow256(3) == 0x100_0000;
    assert Pow256(5) == 0x100 * TWO32;
    assert Pow256(6) == 0x1_0000 * TWO32;
    assert Pow256(7) == 0x100_0000 * TWO32;
  }

  /** The bytes a 32-bit value is pushed as, one shift and mask at a time. */
  lemma {:induction false} LittleEndian4(v: nat)
    ensures LittleEndian(v, 4) == [v % 256, v / 0x100 % 256, v / 0x1_0000 % 256, v / 0x100_0000 % 256]
  {
    Shr8Small(v);
  }

  lemma {:induction false} Shr8Split(v: nat, m: nat, k: nat)
    ensures Shr8(v, m + k) == Shr8(Shr8(v, m), k)
  {
    if m > 0 {
      Shr8Split(v / 256, m - 1, k);
    }
  }

  lemma {:induction false} Shr8Small(v: nat)
    ensures Shr8(v, 0) == v && Shr8(v, 1) == v / 0x100 && Shr8(v, 2) == v / 0x1_0000
    ensures Shr8(v, 3) == v / 0x100_0000 && Shr8(v, 4) == v / TWO32
  {
    var w1, w2, w3 := v / 256, v / 256 / 256, v / 256 / 256 / 256;
    assert Shr8(v, 1) == Shr8(w1, 0);
    assert Shr8(v, 2) == Shr8(w1, 1) == Shr8(w2, 0);
    assert Shr8(v, 3) == Shr8(w1, 2) == Shr8(w2, 1) == Shr8(w3, 0);
    assert Shr8(v, 4) == Shr8(w1, 3) == Shr8(w2, 2) == Shr8(w3, 1) == Shr8(w3 / 256, 0);
    assert w3 / 256 == v / TWO32;
  }

  lemma {:induction false} DropHigh(q: nat, s: nat)
    ensures (256 * q + s) % 256 == s % 256
  {
  }

  lemma {:induction false} LowBytes(v: nat)
    ensures v % TWO32 % 256 == v % 256 && v % TWO32 / 0x100 % 256 == v / 0x100 % 256
    ensures v % TWO32 / 0x1_0000 % 256 == v / 0x1_0000 % 256
    ensures v % TWO32 / 0x100_0000 % 256 == v / 0x100_0000 % 256
  {
    var q, r := v / TWO32, v % TWO32;
    DropHigh(0x100_0000 * q, r);
    assert v / 0x100 == 256 * (0x1_0000 * q) + r / 0x100;
    DropHigh(0x1_0000 * q, r / 0x100);
    assert v / 0x1_0000 == 256 * (0x100 * q) + r / 0x1_0000;
    DropHigh(0x100 * q, r / 0x1_0000);
    assert v / 0x100_0000 == 256 * q + r / 0x100_0000;
    DropHigh(q, r / 0x100_0000);
  }

  lemma {:induction false} LittleEndian4Mod(v: nat, u: nat)
    requires u == v % TWO32
    ensures LittleEndian(v, 4) == LittleEndian(u, 4)
  {
    LowBytes(v);
    LittleEndian4(v);
    LittleEndian4(u);
  }

  /** Pushing the low half and then the high half is pushing the eight-byte field. */
  lemma {:induction false} LittleEndian8(v: nat, low: nat, high: nat)
    requires low == v % TWO32 && high == v / TWO32 % TWO32
    ensures LittleEndian(v, 8) == LittleEndian(low, 4) + LittleEndian(high, 4)
  {
    Shr8Small(v);
    LittleEndian4Mod(v, low);
    LittleEndian4Mod(v / TWO32, high);
    var s := LittleEndian(v, 8);
    forall k | 0 <= k < 4 ensures s[4 + k] == LittleEndian(v / TWO32, 4)[k] {
      Shr8Split(v, 4, k);
    }
  }

  /** The uint32_t a signed value is cast to. */
  function ToU32(x: int): (r: nat)
    ensures r < TWO32
  {
    x % TWO32
  }

  /** The signed value of a 32-bit immediate or displacement. */
  function SignExtend32(u: nat): int
    requires u < TWO32
  {
    if u < TWO31 then u else u - TWO32
  }

  /** The bytes of a std::string. */
  function BytesOf(text: string): (s: seq<byte>)
    ensures |s| == |text|
    ensures forall i :: 0 <= i < |s| ==> s[i] == text[i] as int % 0x100
  {
    seq(|text|, i requires 0 <= i < |text| => text[i] as int % 0x100)
  }

  lemma {:induction false} BytesOfConcat(a: string, b: string)
    ensures BytesOf(a + b) == BytesOf(a) + BytesOf(b)
  {
  }

  /** bs occupies m from index p on. */
  predicate Holds(m: seq<byte>, p: int, bs: seq<byte>) {
    0 <= p && p + |bs| <= |m| && m[p..p + |bs|] == bs
  }

  lemma {:induction false} HoldsSplit(m: seq<byte>, p: int, a: seq<byte>, b: seq<byte>)
    requires Holds(m, p, a + b)
    ensures Holds(m, p, a) && Holds(m, p + |a|, b)
  {
    assert m[p..p + |a|] == m[p..p + |a + b|][..|a|] == a;
    assert m[p + |a|..p + |a| + |b|] == m[p..p + |a + b|][|a|..] == b;
  }

  lemma {:induction false} HoldsEnd(front: seq<byte>, bs: seq<byte>)
    ensures Holds(front + bs, |front|, bs)
  {
    assert (front + bs)[|front|..|front| + |bs|] == bs;
  }

  lemma {:induction false} HoldsFront(m: seq<byte>, rest: seq<byte>, p: nat, bs: seq<byte>)
    requires Holds(m, p, bs)
    ensures Holds(m + rest, p, bs)
  {
    assert (m + rest)[p..p + |bs|] == m[p..p + |bs|];
  }

  lemma {:induction false} HoldsBack(front: seq<byte>, m: seq<byte>, p: nat, bs: seq<byte>)
    requires Holds(m, p, bs)
    ensures Holds(front + m, |front| + p, bs)
  {
    assert (front + m)[|front| + p..|front| + p + |bs|] == m[p..p + |bs|];
  }

  function Flatten(ss: seq<seq<byte>>): seq<byte> {
    if |ss| == 0 then [] else Flatten(ss[..|ss| - 1]) + ss[|ss| - 1]
  }

  /** Each piece is where the pieces before it end. */
  lemma {:induction false} FlattenPlaced(ss: seq<seq<byte>>, k: nat)
    requires k < |ss|
    ensures Holds(Flatten(ss), |Flatten(ss[..k])|, ss[k])
  {
    var before, last := Flatten(ss[..|ss| - 1]), ss[|ss| - 1];
    if k == |ss| - 1 {
      HoldsEnd(before, last);
    } else {
      FlattenPlaced(ss[..|ss| - 1], k);
      assert ss[..|ss| - 1][..k] == ss[..k];
      HoldsFront(before, last, |Flatten(ss[..k])|, ss[k]);
    }
  }

  lemma {:induction false} FlattenNext(ss: seq<seq<byte>>, k: nat)
    requires k < |ss|
    ensures |Flatten(ss[..k + 1])| == |Flatten(ss[..k])| + |ss[k]|
  {
    assert ss[..k + 1][..k] == ss[..k];
  }

  lemma {:induction false} ConcatAssoc<T>(a: seq<T>, b: seq<T>, c: seq<T>)
    ensures (a + b) + c == a + (b + c)
  {
  }

  /** The same front can be taken away. */
  lemma {:induction false} SameFront<T>(front: seq<T>, a: seq<T>, b: seq<T>)
    ensures front + a == front + b <==> a == b
  {
    if front + a == front + b {
      assert (front + a)[|front|..] == a && (front + b)[|front|..] == b;
    }
  }
}
