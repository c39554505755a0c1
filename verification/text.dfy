/**
  The string handling of the second front end: quoting, reading quoted text, comment stripping and trimming. Every text
  survives being printed as a quoted string and read back.
 */
module Text {
  import opened Strings
  import opened Wrappers

  /** isspace in the C locale. */
  const SPACE: Blanks := {' ', '\t', '\n', '\U{000B}', '\U{000C}', '\r'}

  // Quoting.

  function QuoteChar(c: char): (s: string)
    ensures 1 <= |s| <= 2
  {
    match c
    case '\\' => "\\\\"
    case '"' => "\\\""
    case '\n' => "\\n"
    case '\r' => "\\r"
    case '\t' => "\\t"
    case _ => [c]
  }

  function Body(s: string): string {
    if |s| == 0 then "" else QuoteChar(s[0]) + Body(s[1..])
  }

  function Quoted(s: string): string {
    "\"" + Body(s) + "\""
  }

  method QuoteForLog(text: string) returns (out: string)
    ensures out == Quoted(text)
  {
    out := "\"";
    for i := 0 to |text|
      invariant out + Body(text[i..]) == "\"" + Body(text)
    {
      assert text[i..][1..] == text[i + 1..];
      assert out + (QuoteChar(text[i]) + Body(text[i + 1..])) == out + QuoteChar(text[i]) + Body(text[i + 1..]);
      match text[i] {
        case '\\' => out := out + "\\\\";
        case '"' => out := out + "\\\"";
        case '\n' => out := out + "\\n";
        case '\r' => out := out + "\\r";
        case '\t' => out := out + "\\t";
        case _ => out := out + [text[i]];
      }
    }
    out := out + "\"";
  }

  // Unescaping.

  function EscapeOf(c: char): string {
    match c
    case 'n' => "\n"
    case 't' => "\t"
    case 'r' => "\r"
    case '"' => "\""
    case '\\' => "\\"
    case '0' => "\0"
    case _ => ['\\', c]
  }

  function Unescaped(raw: string): string {
    if |raw| == 0 then ""
    else if raw[0] != '\\' then [raw[0]] + Unescaped(raw[1..])
    else if |raw| == 1 then "\\"
    else EscapeOf(raw[1]) + Unescaped(raw[2..])
  }

  /** out is what the first i characters stand for. */
  ghost predicate UnescapedTo(raw: string, i: nat, out: string) {
    i <= |raw| && out + Unescaped(raw[i..]) == Unescaped(raw)
  }

  lemma {:induction false} UnescapeOne(raw: string, i: nat, out: string)
    requires i < |raw| && UnescapedTo(raw, i, out)
    ensures
      if raw[i] != '\\' then UnescapedTo(raw, i + 1, out + [raw[i]])
      else if i + 1 == |raw| then out + "\\" == Unescaped(raw)
      else UnescapedTo(raw, i + 2, out + EscapeOf(raw[i + 1]))
  {
    assert raw[i..][1..] == raw[i + 1..];
    if raw[i] != '\\' {
      assert out + ([raw[i]] + Unescaped(raw[i + 1..])) == out + [raw[i]] + Unescaped(raw[i + 1..]);
    } else if i + 1 < |raw| {
      assert raw[i..][2..] == raw[i + 2..];
      assert out + (EscapeOf(raw[i + 1]) + Unescaped(raw[i + 2..]))
          == out + EscapeOf(raw[i + 1]) + Unescaped(raw[i + 2..]);
    }
  }

  method AppendEscape(before: string, n: char) returns (out: string)
    ensures out == before + EscapeOf(n)
  {
    out := before;
    match n {
      case 'n' => out := out + "\n";
      case 't' => out := out + "\t";
      case 'r' => out := out + "\r";
      case '"' => out := out + "\"";
      case '\\' => out := out + "\\";
      case '0' => out := out + "\0";
      case _ =>
        out := out + "\\";
        out := out + [n];
    }
  }

  method UnescapeString(raw: string) returns (out: string)
    ensures out == Unescaped(raw)
  {
    out := "";
    var i := 0;
    assert raw[0..] == raw;
    while i < |raw|
      invariant UnescapedTo(raw, i, out)
    {
      UnescapeOne(raw, i, out);
      if raw[i] != '\\' {
        out := out + [raw[i]];
        i := i + 1;
      } else if i + 1 >= |raw| {
        return out + "\\";
      } else {
        out := AppendEscape(out, raw[i + 1]);
        i := i + 2;
      }
    }
  }

  // Reading the first quoted string of a line.

  /** What is read from the rest of a line. */
  function Extracted(rest: string, inString: bool, escaped: bool, raw: string): Option<string>
    decreases |rest|
  {
    if |rest| == 0 then None
    else if !inString then Extracted(rest[1..], rest[0] == '"', escaped, raw)
    else if escaped then Extracted(rest[1..], true, false, raw + [rest[0]])
    else if rest[0] == '\\' then Extracted(rest[1..], true, true, raw + [rest[0]])
    else if rest[0] == '"' then Some(Unescaped(raw))
    else Extracted(rest[1..], true, false, raw + [rest[0]])
  }

  method ExtractQuotedString(line: string) returns (result: Option<string>)
    ensures result == Extracted(line, false, false, "")
  {
    var inString, escaped, raw := false, false, "";
    assert line[0..] == line;
    for i := 0 to |line|
      invariant Extracted(line[i..], inString, escaped, raw) == Extracted(line, false, false, "")
    {
      assert line[i..][1..] == line[i + 1..];
      var c := line[i];
      if !inString {
        if c == '"' {
          inString := true;
        }
      } else if escaped {
        raw := raw + [c];
        escaped := false;
      } else if c == '\\' {
        raw := raw + [c];
        escaped := true;
      } else if c == '"' {
        var out := UnescapeString(raw);
        return Some(out);
      } else {
        raw := raw + [c];
      }
    }
    return None;
  }

  // Comments.

  /** How much of the rest of a line stays. */
  function Kept(rest: string, inString: bool, escaped: bool): (n: nat)
    ensures n <= |rest|
    decreases |rest|
  {
    if |rest| < 2 then |rest|
    else if escaped then 1 + Kept(rest[1..], inString, false)
    else if rest[0] == '\\' && inString then 1 + Kept(rest[1..], inString, true)
    else if rest[0] == '"' then 1 + Kept(rest[1..], !inString, false)
    else if !inString && rest[0] == '/' && rest[1] == '/' then 0
    else 1 + Kept(rest[1..], inString, false)
  }

  function Normalized(line: string): string {
    Trim(line[..Kept(line, false, false)], SPACE)
  }

  method StripLineComment(line: string) returns (out: string)
    ensures out == line[..Kept(line, false, false)]
  {
    var inString, escaped := false, false;
    var i := 0;
    assert line[0..] == line;
    while i + 1 < |line|
      invariant i <= |line| && i + Kept(line[i..], inString, escaped) == Kept(line, false, false)
    {
      var c := line[i];
      assert line[i..][1..] == line[i + 1..];
      if escaped {
        escaped := false;
      } else if c == '\\' && inString {
        escaped := true;
      } else if c == '"' {
        inString := !inString;
      } else if !inString && c == '/' && line[i + 1] == '/' {
        return line[..i];
      }
      i := i + 1;
    }
    return line;
  }

  method NormalizeSourceLine(line: string) returns (out: string)
    ensures out == Normalized(line)
  {
    out := StripLineComment(line);
    out := TrimBoth(out, SPACE);
  }

  // Every text survives.

  lemma {:induction false} UnescapedChar(c: char, rest: string)
    ensures Unescaped(QuoteChar(c) + rest) == [c] + Unescaped(rest)
  {
    assert (QuoteChar(c) + rest)[|QuoteChar(c)|..] == rest;
  }

  lemma {:induction false} UnescapedBody(s: string)
    ensures Unescaped(Body(s)) == s
  {
    if |s| > 0 {
      UnescapedChar(s[0], Body(s[1..]));
      UnescapedBody(s[1..]);
    }
  }

  const ESCAPES := {'n', 't', 'r', '"', '\\', '0'}

  predicate EscapeAt(raw: string, i: int) {
    0 <= i < |raw| - 1 && raw[i] == '\\' && raw[i + 1] in ESCAPES
  }

  /** No backslash stands before a character that makes it an escape. */
  predicate NoEscapes(raw: string) {
    forall i :: 0 <= i < |raw| ==> !EscapeAt(raw, i)
  }

  lemma {:induction false} NoEscapesTail(raw: string, n: nat)
    requires n <= |raw|
    ensures NoEscapes(raw) <==> (forall i :: 0 <= i < n ==> !EscapeAt(raw, i)) && NoEscapes(raw[n..])
  {
    var tail := raw[n..];
    assert forall i :: 0 <= i < |tail| ==> (EscapeAt(tail, i) <==> EscapeAt(raw, i + n));
    forall i | n <= i < |raw| && NoEscapes(tail) ensures !EscapeAt(raw, i) {
      assert !EscapeAt(tail, i - n);
    }
  }

  /** A text is changed by unescaping if and only if it has one of the six escapes; it gets shorter then. */
  lemma {:induction false} UnchangedExact(raw: string)
    ensures if NoEscapes(raw) then Unescaped(raw) == raw else |Unescaped(raw)| < |raw|
    decreases |raw|
  {
    if |raw| > 1 {
      var n := if raw[0] == '\\' then 2 else 1;
      assert EscapeAt(raw, 0) <==> raw[0] == '\\' && raw[1] in ESCAPES;
      assert raw[0] == '\\' && raw[1] == '\\' ==> EscapeAt(raw, 0);
      NoEscapesTail(raw, n);
      UnchangedExact(raw[n..]);
      assert raw == raw[..n] + raw[n..];
    } else if |raw| == 1 {
      assert raw[1..] == "" && raw == [raw[0]] + "";
    }
  }

  /** Inside quotes, one quoted character. */
  lemma {:induction false} ExtractChar(c: char, rest: string, raw: string)
    ensures Extracted(QuoteChar(c) + rest, true, false, raw) == Extracted(rest, true, false, raw + QuoteChar(c))
  {
    var q := QuoteChar(c);
    var line := q + rest;
    if |q| == 2 {
      assert line[1..] == [q[1]] + rest && line[1..][1..] == rest;
      assert raw + [q[0]] + [q[1]] == raw + q;
    } else {
      assert line[1..] == rest;
    }
  }

  lemma {:induction false} ExtractBody(s: string, rest: string, raw: string)
    ensures Extracted(Body(s) + "\"" + rest, true, false, raw) == Some(Unescaped(raw + Body(s)))
    decreases |s|
  {
    if |s| == 0 {
      assert Body(s) + "\"" + rest == "\"" + rest;
      assert raw + "" == raw;
    } else {
      var tail := Body(s[1..]) + "\"" + rest;
      assert Body(s) + "\"" + rest == QuoteChar(s[0]) + tail;
      ExtractChar(s[0], tail, raw);
      ExtractBody(s[1..], rest, raw + QuoteChar(s[0]));
      assert raw + QuoteChar(s[0]) + Body(s[1..]) == raw + Body(s);
    }
  }

  lemma {:induction false} ExtractBefore(before: string, rest: string)
    requires '"' !in before
    ensures Extracted(before + rest, false, false, "") == Extracted(rest, false, false, "")
    decreases |before|
  {
    if |before| == 0 {
      assert before + rest == rest;
    } else {
      assert (before + rest)[1..] == before[1..] + rest;
      ExtractBefore(before[1..], rest);
    }
  }

  /** A quoted text is read back, whatever stands behind it and whatever without quotes before it. */
  lemma {:induction false} ExtractQuoted(before: string, s: string, after: string)
    requires '"' !in before
    ensures Extracted(before + Quoted(s) + after, false, false, "") == Some(s)
  {
    var tail := Body(s) + "\"" + after;
    assert before + Quoted(s) + after == before + ("\"" + tail);
    ExtractBefore(before, "\"" + tail);
    assert ("\"" + tail)[1..] == tail;
    ExtractBody(s, after, "");
    assert "" + Body(s) == Body(s);
    UnescapedBody(s);
  }

  lemma {:induction false} KeepChar(c: char, rest: string)
    requires |rest| > 0
    ensures Kept(QuoteChar(c) + rest, true, false) == |QuoteChar(c)| + Kept(rest, true, false)
  {
    var q := QuoteChar(c);
    var line := q + rest;
    if |q| == 2 {
      assert line[1..] == [q[1]] + rest && line[1..][1..] == rest;
    } else {
      assert line[1..] == rest;
    }
  }

  /** A quoted text ends outside quotes, with nothing cut. */
  lemma {:induction false} KeepBody(s: string, rest: string)
    ensures Kept(Body(s) + "\"" + rest, true, false) == |Body(s)| + 1 + Kept(rest, false, false)
    decreases |s|
  {
    if |s| == 0 {
      var line := Body(s) + "\"" + rest;
      assert line[1..] == rest;
    } else {
      var tail := Body(s[1..]) + "\"" + rest;
      assert Body(s) + "\"" + rest == QuoteChar(s[0]) + tail;
      KeepChar(s[0], tail);
      KeepBody(s[1..], rest);
    }
  }

  /** Characters that mean nothing to the comment stripper. */
  predicate Plain(s: string) {
    forall i :: 0 <= i < |s| ==> s[i] != '"' && s[i] != '/'
  }

  lemma {:induction false} KeepPlain(front: string, rest: string)
    requires Plain(front)
    ensures Kept(front + rest, false, false) == |front| + Kept(rest, false, false)
    decreases |front|
  {
    if |front| == 0 {
      assert front + rest == rest;
    } else {
      assert (front + rest)[1..] == front[1..] + rest;
      KeepPlain(front[1..], rest);
    }
  }

  function SayLine(s: string): string {
    "say " + Quoted(s) + ";"
  }

  lemma {:induction false} SayLineParts(before: string, s: string, rest: string)
    ensures before + SayLine(s) + rest == before + "say " + ("\"" + (Body(s) + "\"" + (";" + rest)))
    ensures |SayLine(s)| == 4 + (1 + |Body(s)| + 1) + 1
  {
  }

  lemma {:induction false} KeepSayLine(before: string, s: string, rest: string)
    requires AllBlank(before, SPACE)
    ensures Kept(before + SayLine(s) + rest, false, false) == |before + SayLine(s)| + Kept(rest, false, false)
  {
    var front, tail := before + "say ", Body(s) + "\"" + (";" + rest);
    SayLineParts(before, s, rest);
    KeepPlain(front, "\"" + tail);
    assert ("\"" + tail)[1..] == tail;
    KeepBody(s, ";" + rest);
    KeepPlain(";", rest);
  }

  /** Normalising a say line leaves it, whatever quotes, backslashes or comment marks its text has; indentation,
      trailing blanks and a comment behind it go away. */
  lemma {:induction false} SayLineNormalized(before: string, s: string, after: string, comment: string)
    requires AllBlank(before, SPACE) && AllBlank(after, SPACE) && (comment == "" || Starts(comment, "//"))
    ensures Normalized(before + SayLine(s) + after + comment) == SayLine(s)
  {
    var line := before + SayLine(s) + after + comment;
    assert line == before + SayLine(s) + (after + comment);
    KeepSayLine(before, s, after + comment);
    KeepPlain(after, comment);
    if comment != "" {
      assert comment[0] == comment[..2][0] && comment[1] == comment[..2][1];
    }
    assert Kept(comment, false, false) == 0;
    assert line[..|before + SayLine(s) + after|] == before + SayLine(s) + after;
    TrimAround(before, SayLine(s), after, SPACE);
  }

  /** So a say line in any layout yields its text. */
  lemma {:induction false} SayLineRead(before: string, s: string, after: string, comment: string)
    requires AllBlank(before, SPACE) && AllBlank(after, SPACE) && (comment == "" || Starts(comment, "//"))
    ensures Extracted(Normalized(before + SayLine(s) + after + comment), false, false, "") == Some(s)
  {
    SayLineNormalized(before, s, after, comment);
    ExtractQuoted("say ", s, ";");
  }

  // Lines in parts.

  /** Between quotes: every backslash has a character behind it, and every quote a backslash before it. */
  predicate Closed(raw: string) {
    if |raw| == 0 then true
    else if raw[0] == '\\' then |raw| > 1 && Closed(raw[2..])
    else raw[0] != '"' && Closed(raw[1..])
  }

  /** What is quoted is such a text. */
  lemma {:induction false} BodyClosed(s: string)
    ensures Closed(Body(s))
  {
    if |s| > 0 {
      BodyClosed(s[1..]);
      var body := Body(s);
      assert body[|QuoteChar(s[0])|..] == Body(s[1..]);
    }
  }

  predicate CommentAt(s: string, i: nat) {
    i + 1 < |s| && s[i] == '/' && s[i + 1] == '/'
  }

  /** No quotes and no comment mark. */
  predicate Outside(s: string) {
    forall i :: 0 <= i < |s| ==> s[i] != '"' && !CommentAt(s, i)
  }

  /** What stands outside quotes, and what stands between them. */
  datatype Part = Code(text: string) | Quote(raw: string)

  function PartLine(p: Part): string {
    if p.Code? then p.text else "\"" + p.raw + "\""
  }

  function PartsLine(ps: seq<Part>): string {
    if |ps| == 0 then "" else PartLine(ps[0]) + PartsLine(ps[1..])
  }

  predicate GoodPart(p: Part) {
    if p.Code? then Outside(p.text) else Closed(p.raw)
  }

  /** Good parts, of which no two that touch are outside quotes. */
  predicate GoodParts(ps: seq<Part>) {
    && (forall k :: 0 <= k < |ps| ==> GoodPart(ps[k]))
    && (forall k :: 0 < k < |ps| && ps[k].Code? ==> ps[k - 1].Quote?)
  }

  /** A slash outside quotes does not meet another one. */
  predicate NoSlashMeets(p: Part, rest: string) {
    p.Code? && |p.text| > 0 && p.text[|p.text| - 1] == '/' ==> rest == "" || rest[0] != '/'
  }

  lemma {:induction false} KeepOutside(s: string, rest: string)
    requires Outside(s) && NoSlashMeets(Code(s), rest)
    ensures Kept(s + rest, false, false) == |s| + Kept(rest, false, false)
    decreases |s|
  {
    if |s| == 0 {
      assert s + rest == rest;
    } else {
      var line := s + rest;
      assert line[1..] == s[1..] + rest;
      assert !CommentAt(line, 0) by {
        assert !CommentAt(s, 0);
      }
      forall i | 0 <= i < |s[1..]| ensures !CommentAt(s[1..], i) {
        assert !CommentAt(s, i + 1);
      }
      KeepOutside(s[1..], rest);
    }
  }

  lemma {:induction false} KeepPair(c: char, rest: string)
    requires |rest| > 0
    ensures Kept(['\\', c] + rest, true, false) == 2 + Kept(rest, true, false)
  {
    var line := ['\\', c] + rest;
    assert line[1..] == [c] + rest && line[1..][1..] == rest;
  }

  lemma {:induction false} KeepClosed(raw: string, rest: string)
    requires Closed(raw)
    ensures Kept(raw + ("\"" + rest), true, false) == |raw| + 1 + Kept(rest, false, false)
    decreases |raw|
  {
    var line := raw + ("\"" + rest);
    if |raw| == 0 {
      assert line[1..] == rest;
    } else if raw[0] == '\\' {
      assert line == ['\\', raw[1]] + (raw[2..] + ("\"" + rest));
      KeepPair(raw[1], raw[2..] + ("\"" + rest));
      KeepClosed(raw[2..], rest);
    } else {
      assert line[1..] == raw[1..] + ("\"" + rest);
      KeepClosed(raw[1..], rest);
    }
  }

  lemma {:induction false} KeepPart(p: Part, rest: string)
    requires GoodPart(p) && NoSlashMeets(p, rest)
    ensures Kept(PartLine(p) + rest, false, false) == |PartLine(p)| + Kept(rest, false, false)
  {
    if p.Code? {
      KeepOutside(p.text, rest);
    } else {
      var line := PartLine(p) + rest;
      assert line[1..] == p.raw + ("\"" + rest);
      KeepClosed(p.raw, rest);
    }
  }

  lemma {:induction false} PartsTail(ps: seq<Part>, end: string)
    requires |ps| > 0 && GoodParts(ps) && NoSlashMeets(ps[|ps| - 1], end)
    ensures GoodParts(ps[1..]) && NoSlashMeets(ps[0], PartsLine(ps[1..]) + end)
    ensures |ps| > 1 ==> NoSlashMeets(ps[1..][|ps[1..]| - 1], end)
  {
    var tail := ps[1..];
    assert forall k :: 0 <= k < |tail| ==> tail[k] == ps[k + 1];
    if |tail| == 0 {
      assert PartsLine(tail) + end == end;
    } else if tail[0].Quote? {
      assert (PartsLine(tail) + end)[0] == '"';
    }
  }

  lemma {:induction false} KeepParts(ps: seq<Part>, end: string)
    requires GoodParts(ps) && (|ps| > 0 ==> NoSlashMeets(ps[|ps| - 1], end))
    ensures Kept(PartsLine(ps) + end, false, false) == |PartsLine(ps)| + Kept(end, false, false)
    decreases |ps|
  {
    if |ps| == 0 {
      assert PartsLine(ps) + end == end;
    } else {
      PartsTail(ps, end);
      KeepPart(ps[0], PartsLine(ps[1..]) + end);
      KeepParts(ps[1..], end);
      FirstPart(ps, end);
    }
  }

  lemma {:induction false} FirstPart(ps: seq<Part>, end: string)
    requires |ps| > 0
    ensures PartsLine(ps) + end == PartLine(ps[0]) + (PartsLine(ps[1..]) + end)
    ensures |PartsLine(ps)| == |PartLine(ps[0])| + |PartsLine(ps[1..])|
  {
  }

  /** Of a line in parts, with a comment behind it or not, just the parts are left: a comment mark inside quotes, a
      backslash outside them and a single slash are nothing special. */
  lemma {:induction false} CommentCut(ps: seq<Part>, comment: string)
    requires GoodParts(ps) && (comment == "" || CommentAt(comment, 0))
    requires |ps| > 0 ==> NoSlashMeets(ps[|ps| - 1], comment)
    ensures var line := PartsLine(ps) + comment; line[..Kept(line, false, false)] == PartsLine(ps)
  {
    KeepParts(ps, comment);
  }

  /** Behind a quote that does not close there is no comment. */
  lemma {:induction false} OpenKept(ps: seq<Part>, s: string)
    requires GoodParts(ps)
    ensures var line := PartsLine(ps) + ("\"" + Body(s)); line[..Kept(line, false, false)] == line
  {
    var end := "\"" + Body(s);
    KeepParts(ps, end);
    assert end[1..] == Body(s);
    OpenBodyKept(s);
  }

  lemma {:induction false} OpenBodyKept(s: string)
    ensures Kept(Body(s), true, false) == |Body(s)|
    decreases |s|
  {
    if |s| > 0 {
      var c := s[0];
      var tail := Body(s[1..]);
      if tail == "" {
        assert Body(s) == QuoteChar(c);
      } else {
        KeepChar(c, tail);
        OpenBodyKept(s[1..]);
      }
    }
  }

  // Texts that do not close.

  /** Without a closing quote nothing is read. */
  lemma {:induction false} OpenNotRead(before: string, s: string)
    requires '"' !in before
    ensures Extracted(before, false, false, "") == None
    ensures Extracted(before + "\"" + Body(s), false, false, "") == None
  {
    ExtractBefore(before, "");
    assert before + "" == before;
    var rest := "\"" + Body(s);
    assert before + "\"" + Body(s) == before + rest;
    ExtractBefore(before, rest);
    assert rest[1..] == Body(s);
    OpenBodyNotRead(s, "");
  }

  lemma {:induction false} OpenBodyNotRead(s: string, raw: string)
    ensures Extracted(Body(s), true, false, raw) == None
    decreases |s|
  {
    if |s| > 0 {
      ExtractChar(s[0], Body(s[1..]), raw);
      OpenBodyNotRead(s[1..], raw + QuoteChar(s[0]));
    }
  }
}
