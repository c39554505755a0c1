/** Numbers in source lines: reading them as the C library does, and writing them. */
module Numbers {
  import opened Bytes
  import opened Strings
  import opened Text
  import opened Wrappers

  // Reading.

  function DigitValue(c: char): nat {
    if '0' <= c <= '9' then c as int - '0' as int
    else if 'a' <= c <= 'z' then c as int - 'a' as int + 10
    else if 'A' <= c <= 'Z' then c as int - 'A' as int + 10
    else 36
  }

  /** How many digits a text starts with. */
  function DigitCount(s: string, base: nat): (n: nat)
    ensures n <= |s|
  {
    if |s| == 0 || DigitValue(s[0]) >= base then 0 else 1 + DigitCount(s[1..], base)
  }

  function Value(digits: string, base: nat): nat {
    if |digits| == 0 then 0
    else Value(digits[..|digits| - 1], base) * base + DigitValue(digits[|digits| - 1])
  }

  function Unsigned(s: string, base: nat): Option<nat> {
    var n := DigitCount(s, base);
    if n == 0 then None else Some(Value(s[..n], base))
  }

  predicate HasHexPrefix(s: string) {
    |s| > 2 && s[0] == '0' && (s[1] == 'x' || s[1] == 'X') && DigitValue(s[2]) < 16
  }

  function Magnitude(s: string): Option<nat> {
    if HasHexPrefix(s) then Unsigned(s[2..], 16)
    else if |s| > 0 && s[0] == '0' then Unsigned(s, 8)
    else Unsigned(s, 10)
  }

  /** strtoul with base 0, section 7.22.1.4 of C11, for 64 bits; nothing where std::stoul throws. What stands behind the
      digits is ignored, and a sign wraps around. */
  function Stoul(s: string): Option<Word> {
    var t := TrimLeft(s, SPACE);
    var signed := |t| > 0 && (t[0] == '-' || t[0] == '+');
    match Magnitude(if signed then t[1..] else t)
    case None => None
    case Some(v) =>
      if v >= TWO64 then None else if signed && t[0] == '-' then Some((TWO64 - v) % TWO64) else Some(v)
  }

  // Writing.

  datatype Radix = Octal | Decimal | Hex

  function Base(r: Radix): nat {
    match r
    case Octal => 8
    case Decimal => 10
    case Hex => 16
  }

  function DigitChar(d: nat, upper: bool): char
    requires d < 16
  {
    if upper then "0123456789ABCDEF"[d] else "0123456789abcdef"[d]
  }

  function Spelled(v: nat, r: Radix, upper: bool): (s: string)
    ensures |s| > 0
  {
    match r
    case Octal => if v < 8 then [DigitChar(v, upper)] else Spelled(v / 8, r, upper) + [DigitChar(v % 8, upper)]
    case Decimal => if v < 10 then [DigitChar(v, upper)] else Spelled(v / 10, r, upper) + [DigitChar(v % 10, upper)]
    case Hex => if v < 16 then [DigitChar(v, upper)] else Spelled(v / 16, r, upper) + [DigitChar(v % 16, upper)]
  }

  function Prefix(r: Radix, upper: bool): string {
    match r
    case Octal => "0"
    case Decimal => ""
    case Hex => if upper then "0X" else "0x"
  }

  predicate IsDigit(c: char, r: Radix) {
    exists d, upper :: 0 <= d < Base(r) && c == DigitChar(d, upper)
  }

  lemma {:induction false} DigitBack(d: nat, upper: bool)
    requires d < 16
    ensures DigitValue(DigitChar(d, upper)) == d && (d > 0 ==> DigitChar(d, upper) != '0')
  {
  }

  lemma {:induction false} DigitExact(c: char, r: Radix)
    ensures DigitValue(c) < Base(r) <==> IsDigit(c, r)
  {
    if DigitValue(c) < Base(r) {
      var d := DigitValue(c);
      assert c == DigitChar(d, false) || c == DigitChar(d, true);
    }
    if d: nat, upper :| d < Base(r) && c == DigitChar(d, upper) {
      DigitBack(d, upper);
    }
  }

  lemma {:induction false} CountDigits(s: string, rest: string, base: nat)
    requires forall k :: 0 <= k < |s| ==> DigitValue(s[k]) < base
    requires rest == "" || DigitValue(rest[0]) >= base
    ensures DigitCount(s + rest, base) == |s|
    decreases |s|
  {
    if |s| == 0 {
      assert s + rest == rest;
    } else {
      assert (s + rest)[1..] == s[1..] + rest;
      CountDigits(s[1..], rest, base);
    }
  }

  lemma {:induction false} ValueLast(front: string, d: nat, upper: bool, base: nat)
    requires d < 16
    ensures Value(front + [DigitChar(d, upper)], base) == Value(front, base) * base + d
  {
    DigitBack(d, upper);
    assert (front + [DigitChar(d, upper)])[..|front|] == front;
  }

  lemma {:induction false} SpelledLast(v: nat, r: Radix, upper: bool) returns (front: string, q: nat, d: nat)
    ensures d < Base(r) <= 16 && v == q * Base(r) + d && Spelled(v, r, upper) == front + [DigitChar(d, upper)]
    ensures if q == 0 then front == "" else q < v && front == Spelled(q, r, upper)
  {
    var base := Base(r);
    q, d := v / base, v % base;
    front := if v < base then "" else Spelled(q, r, upper);
  }

  lemma {:induction false} SpelledValue(v: nat, r: Radix, upper: bool)
    ensures Value(Spelled(v, r, upper), Base(r)) == v
    decreases v
  {
    var front, q, d := SpelledLast(v, r, upper);
    ValueLast(front, d, upper, Base(r));
    if q > 0 {
      SpelledValue(q, r, upper);
    }
  }

  /** Digits only, and none too many. */
  lemma {:induction false} SpelledDigits(v: nat, r: Radix, upper: bool)
    ensures forall k :: 0 <= k < |Spelled(v, r, upper)| ==> DigitValue(Spelled(v, r, upper)[k]) < Base(r)
    ensures v > 0 ==> Spelled(v, r, upper)[0] != '0'
    decreases v
  {
    var front, q, d := SpelledLast(v, r, upper);
    DigitBack(d, upper);
    if q > 0 {
      SpelledDigits(q, r, upper);
    }
  }

  lemma {:induction false} UnsignedRead(v: nat, r: Radix, upper: bool, rest: string)
    requires rest == "" || !IsDigit(rest[0], r)
    ensures Unsigned(Spelled(v, r, upper) + rest, Base(r)) == Some(v)
  {
    var s := Spelled(v, r, upper);
    SpelledValue(v, r, upper);
    SpelledDigits(v, r, upper);
    if rest != "" {
      DigitExact(rest[0], r);
    }
    CountDigits(s, rest, Base(r));
    assert (s + rest)[..|s|] == s;
  }

  /** A number in any of the three notations, whatever stands behind its digits. */
  lemma {:induction false} MagnitudeRead(v: nat, r: Radix, upper: bool, rest: string)
    requires (r.Decimal? ==> v > 0) && (rest == "" || !IsDigit(rest[0], r))
    ensures Magnitude(Prefix(r, upper) + Spelled(v, r, upper) + rest) == Some(v)
  {
    var digits := Spelled(v, r, upper);
    SpelledDigits(v, r, upper);
    UnsignedRead(v, r, upper, rest);
    match r {
      case Octal =>
        SpelledValue(v, r, upper);
        if rest != "" {
          DigitExact(rest[0], r);
        }
        OctalRead(digits, rest, v);
      case Decimal => assert "" + digits + rest == digits + rest;
      case Hex => HexRead(Prefix(r, upper), digits, rest);
    }
  }

  lemma {:induction false} HexRead(prefix: string, digits: string, rest: string)
    requires prefix == "0x" || prefix == "0X"
    requires |digits| > 0 && DigitValue(digits[0]) < 16
    ensures Magnitude(prefix + digits + rest) == Unsigned(digits + rest, 16)
  {
    var s := prefix + digits + rest;
    assert s[2..] == digits + rest;
    assert s[2] == digits[0];
  }

  lemma {:induction false} OctalRead(digits: string, rest: string, v: nat)
    requires |digits| > 0 && forall k :: 0 <= k < |digits| ==> DigitValue(digits[k]) < 8
    requires rest == "" || DigitValue(rest[0]) >= 8
    requires Value(digits, 8) == v
    ensures Magnitude("0" + digits + rest) == Some(v)
  {
    var s := "0" + digits;
    assert s[0] == '0' && forall k :: 1 <= k < |s| ==> s[k] == digits[k - 1];
    CountDigits(s, rest, 8);
    assert (s + rest)[..|s|] == s;
    LeadingZero(digits);
    assert (s + rest)[1] == digits[0];
  }

  lemma {:induction false} LeadingZero(digits: string)
    ensures Value("0" + digits, 8) == Value(digits, 8)
    decreases |digits|
  {
    var s := "0" + digits;
    if |digits| == 0 {
      assert s[..0] == "";
    } else {
      assert s[..|s| - 1] == "0" + digits[..|digits| - 1];
      LeadingZero(digits[..|digits| - 1]);
    }
  }

  predicate IsSign(s: string) {
    s == "" || s == "+" || s == "-"
  }

  lemma {:induction false} SignCut(blanks: string, sign: string, number: string)
    requires AllBlank(blanks, SPACE) && IsSign(sign)
    requires |number| > 0 ==> number[0] !in SPACE && number[0] != '+' && number[0] != '-'
    ensures Stoul(blanks + sign + number)
         == match Magnitude(number)
            case None => None
            case Some(v) => if v >= TWO64 then None else if sign == "-" then Some((TWO64 - v) % TWO64) else Some(v)
  {
    var t := sign + number;
    assert blanks + sign + number == blanks + t;
    TrimLeftBlanks(blanks, t, SPACE);
    if sign == "" {
      assert t == number;
    } else {
      assert t[1..] == number;
    }
  }

  /** What is read: the number as it was written in octal, decimal or hexadecimal, of either case, whatever stands
      behind it; nothing if it has more than 64 bits; and a minus wraps around. */
  lemma {:induction false} NumberExact(blanks: string, sign: string, v: nat, r: Radix, upper: bool, rest: string)
    requires AllBlank(blanks, SPACE) && IsSign(sign)
    requires (r.Decimal? ==> v > 0) && (rest == "" || !IsDigit(rest[0], r))
    ensures Stoul(blanks + sign + (Prefix(r, upper) + Spelled(v, r, upper) + rest))
         == if v >= TWO64 then None else if sign == "-" then Some((TWO64 - v) % TWO64) else Some(v)
  {
    var number := Prefix(r, upper) + Spelled(v, r, upper) + rest;
    SpelledDigits(v, r, upper);
    assert number[0] == (if r.Decimal? then Spelled(v, r, upper)[0] else '0');
    SignCut(blanks, sign, number);
    MagnitudeRead(v, r, upper, rest);
  }

  predicate HexFollows(rest: string) {
    |rest| > 1 && (rest[0] == 'x' || rest[0] == 'X') && IsDigit(rest[1], Hex)
  }

  /** A zero with neither an octal digit nor a hexadecimal number behind it is a zero, an x included. */
  lemma {:induction false} ZeroRead(blanks: string, sign: string, rest: string)
    requires AllBlank(blanks, SPACE) && IsSign(sign)
    requires (rest == "" || !IsDigit(rest[0], Octal)) && !HexFollows(rest)
    ensures Stoul(blanks + sign + ("0" + rest)) == Some(0)
  {
    var s := "0" + rest;
    SignCut(blanks, sign, s);
    if |rest| > 0 {
      DigitExact(rest[0], Octal);
    }
    if |rest| > 1 {
      DigitExact(rest[1], Hex);
    }
    CountDigits("0", rest, 8);
    assert s[..1] == "0";
    assert Value("", 8) == 0 && "0"[..0] == "";
  }

  /** Without a decimal digit there is no number. */
  lemma {:induction false} NoNumber(blanks: string, sign: string, rest: string)
    requires AllBlank(blanks, SPACE) && IsSign(sign)
    requires |rest| > 0 ==> rest[0] !in SPACE && rest[0] != '+' && rest[0] != '-' && !IsDigit(rest[0], Decimal)
    ensures Stoul(blanks + sign + rest) == None
  {
    SignCut(blanks, sign, rest);
    if |rest| > 0 {
      DigitExact(rest[0], Decimal);
    }
  }

  /** Numbers of 64 bits, alone. */
  lemma {:induction false} NumberRead(v: Word)
    ensures Stoul("0x" + Spelled(v, Hex, false)) == Some(v)
    ensures Stoul(Spelled(v, Decimal, false)) == Some(v)
  {
    NumberExact("", "", v, Hex, false, "");
    var hex := "0x" + Spelled(v, Hex, false);
    assert "" + "" + (Prefix(Hex, false) + Spelled(v, Hex, false) + "") == hex;
    if v > 0 {
      NumberExact("", "", v, Decimal, false, "");
      assert "" + "" + (Prefix(Decimal, false) + Spelled(v, Decimal, false) + "") == Spelled(v, Decimal, false);
    } else {
      assert Value("", 8) == 0;
    }
  }
}
