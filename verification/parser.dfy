/**
  The AOT front end: source lines, one after the other, to PRINT and HALT instructions. It keeps the value matched on
  and whether an arm has been taken from line to line, and even from file to file.
 */
module FrontEnd {
  import opened Strings
  import opened Wrappers
  import opened Aot

  // Cleaning a line.

  /** Where a comment cuts the line, looking from i on with a quote open or not. */
  function CutFrom(line: string, i: nat, inString: bool): (n: nat)
    requires i <= |line|
    ensures i <= n <= |line|
    decreases |line| - i
  {
    if i + 1 >= |line| then |line|
    else
      var inside := if line[i] == '"' then !inString else inString;
      if !inside && line[i] == '/' && line[i + 1] == '/' then i else CutFrom(line, i + 1, inside)
  }

  function Clean(raw: string): string {
    Trim(raw[..CutFrom(raw, 0, false)], SPACE_AND_TAB)
  }

  // Escapes.

  function Escaped(c: char): string {
    match c
    case 'n' => "\n"
    case 't' => "\t"
    case 'r' => "\r"
    case '"' => "\""
    case _ => ['\\', c]
  }

  function Unescape(text: string): string {
    if |text| == 0 then ""
    else if text[0] == '\\' && |text| > 1 then Escaped(text[1]) + Unescape(text[2..])
    else [text[0]] + Unescape(text[1..])
  }

  /** out is what the first i characters stand for. */
  ghost predicate UnescapedTo(text: string, i: nat, out: string) {
    i <= |text| && out + Unescape(text[i..]) == Unescape(text)
  }

  lemma {:induction false} UnescapeOne(text: string, i: nat, out: string)
    requires i < |text| && UnescapedTo(text, i, out)
    ensures if text[i] == '\\' && i + 1 < |text| then UnescapedTo(text, i + 2, out + Escaped(text[i + 1]))
      else UnescapedTo(text, i + 1, out + [text[i]])
  {
    assert text[i..][1..] == text[i + 1..];
    if text[i] == '\\' && i + 1 < |text| {
      assert text[i..][2..] == text[i + 2..];
      assert out + (Escaped(text[i + 1]) + Unescape(text[i + 2..]))
          == out + Escaped(text[i + 1]) + Unescape(text[i + 2..]);
    } else {
      assert out + ([text[i]] + Unescape(text[i + 1..])) == out + [text[i]] + Unescape(text[i + 1..]);
    }
  }

  // One line.

  const ARROW := "=>"

  datatype Statics = Statics(matchVal: string, resolved: bool)

  predicate Skipped(line: string) {
    || line == "" || line == "{" || line == "}" || line == "};"
    || Starts(line, "fn ") || Starts(line, "let ") || Starts(line, "const ")
    || Starts(line, "on ") || Starts(line, "interrupt ") || Starts(line, "return")
  }

  lemma {:induction false} BraceAfterPrefix(line: string)
    requires Starts(line, "match ") && Find(line, "{", 0) != -1
    ensures Find(line, "{", 0) >= 6
  {
    var end := Find(line, "{", 0);
    assert line[end] == '{' by { assert At(line, "{", end); }
    forall i | 0 <= i < 6 ensures line[i] != '{' {
      assert line[i] == line[..6][i] == "match "[i];
    }
  }

  function Header(m: Statics, line: string): Statics
    requires Starts(line, "match ")
  {
    var end := Find(line, "{", 0);
    if end == -1 then m.(resolved := false)
    else
      BraceAfterPrefix(line);
      Statics(Trim(line[6..end], SPACE_AND_TAB), false)
  }

  function SayOf(line: string): seq<IRInstruction> {
    var start := Find(line, "\"", 0);
    var end := FindLast(line, '"');
    if start != -1 && end != -1 && start < end then [Print(Unescape(line[start + 1..end]) + "\n")] else []
  }

  /** A line that is neither skipped nor a match header, with any arm already cut off. */
  function Emitted(line: string): seq<IRInstruction> {
    if Starts(line, "say ") then SayOf(line)
    else if Starts(line, "halt") then [HALT_INSTRUCTION]
    else []
  }

  function Handle(m: Statics, line: string): (Statics, seq<IRInstruction>) {
    if Skipped(line) then (m, [])
    else if Starts(line, "match ") then (Header(m, line), [])
    else
      var arrow := Find(line, ARROW, 0);
      if arrow == -1 then (m, Emitted(line))
      else if m.resolved then (m, [])
      else
        var condition, action := Trim(line[..arrow], SPACE_AND_TAB), TrimLeft(line[arrow + 2..], SPACE_AND_TAB);
        if condition == m.matchVal || condition == "_" then
          (m.(resolved := true), if Starts(action, "say ") then SayOf(action) else [])
        else (m, [])
  }

  function Lower(m: Statics, lines: seq<string>): (Statics, seq<IRInstruction>) {
    if |lines| == 0 then (m, [])
    else
      var before := Lower(m, lines[..|lines| - 1]);
      var last := Handle(before.0, Clean(lines[|lines| - 1]));
      (last.0, before.1 + last.1)
  }

  function WithHalt(code: seq<IRInstruction>): seq<IRInstruction> {
    if Halts(code) then code else code + [HALT_INSTRUCTION]
  }

  /** The two statics of the parser are fields here: a parser that goes on where another one stopped is one whose
      fields start with any values. */
  class Parser {
    const lines: seq<string>
    var errors: seq<string>
    var currentMatchVal: string
    var matchResolved: bool

    constructor (lines: seq<string>, leftover: Statics)
      ensures this.lines == lines && errors == [] && View() == leftover
    {
      this.lines := lines;
      errors := [];
      currentMatchVal := leftover.matchVal;
      matchResolved := leftover.resolved;
    }

    ghost function View(): Statics
      reads this
    {
      Statics(currentMatchVal, matchResolved)
    }

    method CutComment(raw: string) returns (line: string)
      ensures line == raw[..CutFrom(raw, 0, false)]
    {
      line := raw;
      var inString := false;
      var i := 0;
      while i + 1 < |line|
        invariant i <= |line| && line == raw && CutFrom(raw, i, inString) == CutFrom(raw, 0, false)
      {
        if line[i] == '"' {
          inString := !inString;
        }
        if !inString && line[i] == '/' && line[i + 1] == '/' {
          line := line[..i];
          break;
        }
        i := i + 1;
      }
    }

    method CleanLine(raw: string) returns (line: string)
      ensures line == Clean(raw)
    {
      line := CutComment(raw);
      line := TrimBoth(line, SPACE_AND_TAB);
    }

    method AppendEscaped(before: string, c: char) returns (unescaped: string)
      ensures unescaped == before + Escaped(c)
    {
      unescaped := before;
      match c {
        case 'n' => unescaped := unescaped + "\n";
        case 't' => unescaped := unescaped + "\t";
        case 'r' => unescaped := unescaped + "\r";
        case '"' => unescaped := unescaped + "\"";
        case _ =>
          unescaped := unescaped + "\\";
          unescaped := unescaped + [c];
      }
    }

    method UnescapeText(text: string) returns (unescaped: string)
      ensures unescaped == Unescape(text)
    {
      unescaped := "";
      var i := 0;
      assert text[0..] == text;
      while i < |text|
        invariant UnescapedTo(text, i, unescaped)
      {
        UnescapeOne(text, i, unescaped);
        if text[i] == '\\' && i + 1 < |text| {
          i := i + 1;
          unescaped := AppendEscaped(unescaped, text[i]);
        } else {
          unescaped := unescaped + [text[i]];
        }
        i := i + 1;
      }
    }

    method Say(line: string) returns (instructions: seq<IRInstruction>)
      ensures instructions == SayOf(line)
    {
      var start := Find(line, "\"", 0);
      var end := FindLast(line, '"');
      if start != -1 && end != -1 && start < end {
        var unescaped := UnescapeText(line[start + 1..end]);
        unescaped := unescaped + "\n";
        return [Print(unescaped)];
      }
      return [];
    }

    method SkipLine(line: string) returns (skipped: bool)
      ensures skipped <==> Skipped(line)
    {
      if line == "" {
        return true;
      }
      if line == "{" || line == "}" || line == "};" {
        return true;
      }
      if Starts(line, "fn ") {
        return true;
      }
      if Starts(line, "let ") {
        return true;
      }
      if Starts(line, "const ") {
        return true;
      }
      if Starts(line, "on ") {
        return true;
      }
      if Starts(line, "interrupt ") {
        return true;
      }
      skipped := Starts(line, "return");
    }

    /** The body of the loop, after cleaning. */
    method HandleLine(cleaned: string, hasHalt: bool) returns (emitted: seq<IRInstruction>, halt: bool)
      modifies this`currentMatchVal, this`matchResolved
      ensures (View(), emitted) == Handle(old(View()), cleaned)
      ensures halt <==> hasHalt || Halts(emitted)
    {
      var line := cleaned;
      emitted, halt := [], hasHalt;
      var skipped := SkipLine(line);
      if skipped {
        return;
      }
      if Starts(line, "match ") {
        matchResolved := false;
        var end := Find(line, "{", 0);
        if end != -1 {
          BraceAfterPrefix(line);
          currentMatchVal := Trim(line[6..end], SPACE_AND_TAB);
        }
        return;
      }
      var arrow := Find(line, ARROW, 0);
      if arrow != -1 {
        if matchResolved {
          return;
        }
        var condition, action := Trim(line[..arrow], SPACE_AND_TAB), line[arrow + 2..];
        if condition == currentMatchVal || condition == "_" {
          matchResolved := true;
          action := TrimLeft(action, SPACE_AND_TAB);
          if Starts(action, "say ") {
            line := action;
          } else {
            return;
          }
        } else {
          return;
        }
      }
      if Starts(line, "say ") {
        emitted := Say(line);
        return;
      }
      if Starts(line, "halt") {
        emitted, halt := [HALT_INSTRUCTION], true;
        assert emitted[0].op == HALT;
      }
    }

    /** None if there is not a single line. */
    method Parse(functions: seq<IRFunction>) returns (result: Option<seq<IRFunction>>)
      modifies this
      ensures |lines| == 0 ==> result == None && View() == old(View()) && errors == old(errors) + ["Empty source file"]
      ensures |lines| > 0 ==>
        var lowered := Lower(old(View()), lines);
        View() == lowered.0 && errors == old(errors)
        && result == Some(functions + [MainFunction(WithHalt(lowered.1))])
    {
      if |lines| == 0 {
        errors := errors + ["Empty source file"];
        return None;
      }
      var code: seq<IRInstruction> := [];
      var hasHalt := false;
      for i := 0 to |lines|
        invariant errors == old(errors)
        invariant (View(), code) == Lower(old(View()), lines[..i])
        invariant hasHalt <==> Halts(code)
      {
        assert lines[..i + 1][..i] == lines[..i];
        var line := CleanLine(lines[i]);
        ghost var before := code;
        var emitted;
        emitted, hasHalt := HandleLine(line, hasHalt);
        code := code + emitted;
        HaltsConcat(before, emitted);
      }
      assert lines[..|lines|] == lines;
      if !hasHalt {
        code := code + [HALT_INSTRUCTION];
      }
      return Some(functions + [MainFunction(code)]);
    }
  }

  lemma {:induction false} HaltsConcat(a: seq<IRInstruction>, b: seq<IRInstruction>)
    ensures Halts(a + b) <==> Halts(a) || Halts(b)
  {
    if Halts(a) {
      var i :| 0 <= i < |a| && a[i].op == HALT;
      assert (a + b)[i].op == HALT;
    }
    if Halts(b) {
      var i :| 0 <= i < |b| && b[i].op == HALT;
      assert (a + b)[|a| + i].op == HALT;
    }
  }

  // What a source means.

  /** A say line: any text without quotes may stand before and behind the literal. */
  datatype SayText = SayText(before: string, literal: string, after: string)

  datatype Action = SayAction(text: SayText) | OtherAction(line: string)

  /** An arm, with blanks of any number around its arrow. */
  datatype Arm = Arm(pattern: string, gap: string, space: string, action: Action)

  /** A line between the braces of a match. */
  datatype Entry = ArmEntry(arm: Arm) | IdleEntry(line: string)

  datatype Item =
    | Say(text: SayText)
    | Halt(rest: string)
    | Match(head: string, tail: string, body: seq<Entry>)
    | Idle(line: string)

  function Printed(t: SayText): IRInstruction {
    Print(Unescape(t.literal) + "\n")
  }

  /** The first arm whose pattern is the value or the wildcard, if any. */
  function Chosen(value: string, body: seq<Entry>): Option<Arm> {
    if |body| == 0 then None
    else if body[0].ArmEntry? && Takes(value, body[0].arm) then Some(body[0].arm)
    else Chosen(value, body[1..])
  }

  predicate Takes(value: string, arm: Arm) {
    arm.pattern == value || arm.pattern == "_"
  }

  function Effect(chosen: Option<Arm>): seq<IRInstruction> {
    match chosen
    case Some(Arm(_, _, _, SayAction(text))) => [Printed(text)]
    case _ => []
  }

  function MeaningOf(item: Item): seq<IRInstruction> {
    match item
    case Say(text) => [Printed(text)]
    case Halt(_) => [HALT_INSTRUCTION]
    case Match(head, _, body) => Effect(Chosen(Trim(head, SPACE_AND_TAB), body))
    case Idle(_) => []
  }

  function Meaning(items: seq<Item>): seq<IRInstruction> {
    if |items| == 0 then [] else Meaning(items[..|items| - 1]) + MeaningOf(items[|items| - 1])
  }

  // How it is written.

  function SayLine(t: SayText): string {
    "say " + t.before + "\"" + t.literal + "\"" + t.after
  }

  function ActionLine(a: Action): string {
    match a
    case SayAction(text) => SayLine(text)
    case OtherAction(line) => line
  }

  function ArmLine(arm: Arm): string {
    arm.pattern + arm.gap + ARROW + arm.space + ActionLine(arm.action)
  }

  function EntryLine(e: Entry): string {
    match e
    case ArmEntry(arm) => ArmLine(arm)
    case IdleEntry(line) => line
  }

  function EntryLines(body: seq<Entry>): (ls: seq<string>)
    ensures |ls| == |body|
  {
    seq(|body|, i requires 0 <= i < |body| => EntryLine(body[i]))
  }

  function HeaderLine(head: string, tail: string): string {
    "match " + head + "{" + tail
  }

  function Written(item: Item): seq<string> {
    match item
    case Say(text) => [SayLine(text)]
    case Halt(rest) => ["halt" + rest]
    case Match(head, tail, body) => [HeaderLine(head, tail)] + EntryLines(body)
    case Idle(line) => [line]
  }

  function WrittenAll(items: seq<Item>): seq<string> {
    if |items| == 0 then [] else WrittenAll(items[..|items| - 1]) + Written(items[|items| - 1])
  }

  predicate HasArrow(s: string) {
    Find(s, ARROW, 0) != -1
  }

  predicate GoodText(t: SayText) {
    '"' !in t.before && '"' !in t.after
  }

  predicate Brace(line: string) {
    line in ["{", "}", "};"]
  }

  /** Declarations and returns, whatever stands behind these words. */
  predicate Declares(line: string) {
    exists word :: word in ["fn ", "let ", "const ", "on ", "interrupt ", "return"] && Starts(line, word)
  }

  predicate OneQuoteAtMost(line: string) {
    forall i, j :: 0 <= i < j < |line| && line[i] == '"' ==> line[j] != '"'
  }

  /** A line that does nothing: a brace, a declaration, or neither header nor arm nor halt, and no say line with two
      quotes. */
  predicate NoEffect(line: string) {
    || line == "" || Brace(line) || Declares(line)
    || (!Starts(line, "match ") && !HasArrow(line) && !Starts(line, "halt")
        && (Starts(line, "say ") ==> OneQuoteAtMost(line)))
  }

  /** A pattern has no arrow in it, and with the blanks behind it starts neither like a declaration nor like a
      header. */
  predicate GoodArm(arm: Arm) {
    && Tight(arm.pattern, SPACE_AND_TAB) && !HasArrow(arm.pattern)
    && AllBlank(arm.gap, SPACE_AND_TAB) && AllBlank(arm.space, SPACE_AND_TAB)
    && !Declares(arm.pattern + arm.gap) && !Starts(arm.pattern + arm.gap, "match ")
    && match arm.action
       case SayAction(text) => GoodText(text)
       case OtherAction(line) =>
         (|line| > 0 ==> line[0] !in SPACE_AND_TAB) && (Starts(line, "say ") ==> OneQuoteAtMost(line))
  }

  predicate GoodEntry(e: Entry) {
    match e
    case ArmEntry(arm) => GoodArm(arm)
    case IdleEntry(line) => NoEffect(line)
  }

  predicate GoodItem(item: Item) {
    match item
    case Say(text) => GoodText(text)
    case Halt(rest) => !HasArrow("halt" + rest)
    case Match(head, _, body) => '{' !in head && forall i :: 0 <= i < |body| ==> GoodEntry(body[i])
    case Idle(line) => NoEffect(line)
  }

  predicate Good(items: seq<Item>) {
    forall i :: 0 <= i < |items| ==> GoodItem(items[i])
  }

  predicate NoArrows(items: seq<Item>) {
    forall i :: 0 <= i < |items| && items[i].Say? ==> !HasArrow(SayLine(items[i].text))
  }

  /** The lines that are left of a source: cleaned, and without the empty ones. */
  function Cleaned(lines: seq<string>): seq<string> {
    if |lines| == 0 then []
    else
      var last := Clean(lines[|lines| - 1]);
      Cleaned(lines[..|lines| - 1]) + if last == "" then [] else [last]
  }

  // Written lines are understood.

  lemma {:induction false} FirstCharacter(s: string, prefix: string)
    requires Starts(s, prefix) && |prefix| > 0
    ensures s[0] == prefix[0]
  {
    assert s[0] == s[..|prefix|][0];
  }

  /** Skipped are just empty lines, braces and declarations. */
  lemma {:induction false} SkippedExact(line: string)
    ensures Skipped(line) <==> line == "" || Brace(line) || Declares(line)
  {
    if Skipped(line) && line != "" && !Brace(line) {
      assert Starts(line, "fn ") || Starts(line, "let ") || Starts(line, "const ")
          || Starts(line, "on ") || Starts(line, "interrupt ") || Starts(line, "return");
      assert "fn " in ["fn ", "let ", "const ", "on ", "interrupt ", "return"];
      assert "let " in ["fn ", "let ", "const ", "on ", "interrupt ", "return"];
      assert "const " in ["fn ", "let ", "const ", "on ", "interrupt ", "return"];
      assert "on " in ["fn ", "let ", "const ", "on ", "interrupt ", "return"];
      assert "interrupt " in ["fn ", "let ", "const ", "on ", "interrupt ", "return"];
      assert "return" in ["fn ", "let ", "const ", "on ", "interrupt ", "return"];
    }
  }

  lemma {:induction false} NotSkipped(line: string)
    requires |line| > 0 && line[0] !in ['{', '}', 'f', 'l', 'c', 'o', 'i', 'r']
    ensures !Skipped(line)
  {
    SkippedExact(line);
    forall word | word in ["fn ", "let ", "const ", "on ", "interrupt ", "return"] ensures !Starts(line, word) {
      if Starts(line, word) { FirstCharacter(line, word); }
    }
  }

  /** A say line prints if and only if it has two quotes. */
  lemma {:induction false} PrintsExact(line: string)
    ensures SayOf(line) == [] <==> OneQuoteAtMost(line)
  {
    var start, end := Find(line, "\"", 0), FindLast(line, '"');
    forall k | 0 <= k < |line| && line[k] == '"' ensures start != -1 && start <= k <= end {
      QuoteAt(line, '"', k);
    }
    if start != -1 {
      QuoteAt(line, '"', start);
    }
  }

  lemma {:induction false} ArrowAt(s: string, i: int)
    ensures At(s, ARROW, i) <==> 0 <= i && i + 2 <= |s| && s[i] == '=' && s[i + 1] == '>'
  {
    if 0 <= i && i + 2 <= |s| {
      assert s[i..i + 2] == [s[i], s[i + 1]];
    }
  }

  lemma {:induction false} QuoteAt(s: string, c: char, i: int)
    ensures At(s, [c], i) <==> 0 <= i < |s| && s[i] == c
  {
    if 0 <= i < |s| {
      assert s[i..i + 1] == [s[i]];
    }
  }

  lemma {:induction false} SayLineShape(t: SayText)
    ensures var line := SayLine(t);
      && Starts(line, "say ") && line[0] == 's' && line[0] !in SPACE_AND_TAB
      && !Skipped(line) && !Starts(line, "match ")
  {
    var line := SayLine(t);
    assert line[..4] == "say ";
    NotSkipped(line);
    if Starts(line, "match ") { FirstCharacter(line, "match "); }
  }

  lemma {:induction false} SayPrints(t: SayText)
    requires GoodText(t)
    ensures SayOf(SayLine(t)) == [Printed(t)]
  {
    var line, q := SayLine(t), 4 + |t.before|;
    forall j | 0 <= j < q ensures !At(line, "\"", j) {
      QuoteAt(line, '"', j);
      assert line[j] == ("say " + t.before)[j];
    }
    QuoteAt(line, '"', q);
    FindIs(line, "\"", q);
    var end := q + 1 + |t.literal|;
    assert line[end] == '"' && forall j :: end < j < |line| ==> line[j] == t.after[j - end - 1];
    assert FindLast(line, '"') == end;
    assert line[q + 1..end] == t.literal;
  }

  lemma {:induction false} SayHandled(m: Statics, t: SayText)
    requires GoodText(t) && !HasArrow(SayLine(t))
    ensures Handle(m, SayLine(t)) == (m, [Printed(t)])
  {
    SayLineShape(t);
    SayPrints(t);
  }

  lemma {:induction false} TrimRightKeeps(s: string, k: nat)
    requires 0 < k <= |s| && s[k - 1] !in SPACE_AND_TAB
    ensures |TrimRight(s, SPACE_AND_TAB)| >= k && TrimRight(s, SPACE_AND_TAB)[..k] == s[..k]
    ensures TrimRight(s, SPACE_AND_TAB) == s[..|TrimRight(s, SPACE_AND_TAB)|]
  {
    if s[|s| - 1] in SPACE_AND_TAB {
      TrimRightKeeps(s[..|s| - 1], k);
      assert s[..|s| - 1][..k] == s[..k];
    }
  }

  /** A value that no line `say` could be taken for. */
  predicate NoSay(value: string) {
    !Starts(value + " ", "say ")
  }

  lemma {:induction false} BeforeArrow(t: SayText, arrow: nat)
    requires 4 <= arrow <= |SayLine(t)|
    ensures var condition := Trim(SayLine(t)[..arrow], SPACE_AND_TAB); !NoSay(condition) && condition != "_"
  {
    var front := SayLine(t)[..arrow];
    assert front[0] == 's' && front[2] == 'y' && front[3] == ' ';
    assert TrimLeft(front, SPACE_AND_TAB) == front;
    TrimRightKeeps(front, 3);
    var condition := Trim(front, SPACE_AND_TAB);
    assert front[..3] == "say";
    assert (condition + " ")[..4] == "say ";
  }

  /** A say line with an arrow in it counts as an arm, and as one that does not apply. */
  lemma {:induction false} SayWithArrowDropped(m: Statics, t: SayText)
    requires HasArrow(SayLine(t)) && NoSay(m.matchVal)
    ensures Handle(m, SayLine(t)) == (m, [])
  {
    var line := SayLine(t);
    SayLineShape(t);
    var arrow := Find(line, ARROW, 0);
    ArrowAt(line, arrow);
    assert line[0] == 's' && line[1] == 'a' && line[2] == 'y' && line[3] == ' ';
    BeforeArrow(t, arrow);
  }

  /** So a say line is printed exactly when it has no arrow. */
  lemma {:induction false} SayPrintedExact(m: Statics, t: SayText)
    requires GoodText(t) && NoSay(m.matchVal)
    ensures Handle(m, SayLine(t)).1 == [Printed(t)] <==> !HasArrow(SayLine(t))
  {
    if HasArrow(SayLine(t)) {
      SayWithArrowDropped(m, t);
    } else {
      SayHandled(m, t);
    }
  }

  lemma {:induction false} HaltHandled(m: Statics, rest: string)
    requires !HasArrow("halt" + rest)
    ensures Handle(m, "halt" + rest) == (m, [HALT_INSTRUCTION])
  {
    var line := "halt" + rest;
    NotSkipped(line);
    assert line[..4] == "halt";
    if Starts(line, "match ") { FirstCharacter(line, "match "); }
    if Starts(line, "say ") { FirstCharacter(line, "say "); }
  }

  lemma {:induction false} IdleHandled(m: Statics, line: string)
    requires NoEffect(line)
    ensures Handle(m, line) == (m, [])
  {
    SkippedExact(line);
    PrintsExact(line);
  }

  /** A header without a brace forgets the arm taken, but keeps the value. */
  lemma {:induction false} OpenHeaderHandled(m: Statics, rest: string)
    requires '{' !in rest
    ensures Handle(m, "match " + rest) == (m.(resolved := false), [])
  {
    var line := "match " + rest;
    NotSkipped(line);
    assert line[..6] == "match ";
    forall j | 0 <= j < |line| ensures !At(line, "{", j) {
      QuoteAt(line, '{', j);
      assert line[j] == if j < 6 then "match "[j] else rest[j - 6];
    }
  }

  lemma {:induction false} HeaderHandled(m: Statics, head: string, tail: string)
    requires '{' !in head
    ensures Handle(m, HeaderLine(head, tail)) == (Statics(Trim(head, SPACE_AND_TAB), false), [])
  {
    var line, end := HeaderLine(head, tail), 6 + |head|;
    NotSkipped(line);
    assert line[..6] == "match ";
    forall j | 0 <= j < end ensures !At(line, "{", j) {
      QuoteAt(line, '{', j);
      assert line[j] == ("match " + head)[j];
    }
    QuoteAt(line, '{', end);
    FindIs(line, "{", end);
    assert line[6..end] == head;
  }

  lemma {:induction false} StartsBefore(front: string, rest: string, word: string)
    requires Starts(front + ARROW + rest, word) && '=' !in word
    ensures Starts(front, word)
  {
    var line := front + ARROW + rest;
    assert forall k :: 0 <= k < |word| ==> line[k] == word[k];
    assert line[|front|] == '=';
    assert line[..|word|] == front[..|word|];
  }

  lemma {:induction false} ArmNotSkipped(arm: Arm)
    requires GoodArm(arm)
    ensures !Skipped(ArmLine(arm)) && !Starts(ArmLine(arm), "match ")
  {
    var line, front, rest := ArmLine(arm), arm.pattern + arm.gap, arm.space + ActionLine(arm.action);
    assert line == front + ARROW + rest;
    assert line[|front|] == '=' && line[|front| + 1] == '>';
    SkippedExact(line);
    forall word | word in ["fn ", "let ", "const ", "on ", "interrupt ", "return"] ensures !Starts(line, word) {
      if Starts(line, word) { StartsBefore(front, rest, word); }
    }
    if Starts(line, "match ") { StartsBefore(front, rest, "match "); }
  }

  lemma {:induction false} ArmArrow(arm: Arm)
    requires GoodArm(arm)
    ensures Find(ArmLine(arm), ARROW, 0) == |arm.pattern| + |arm.gap|
  {
    var line, p, end := ArmLine(arm), arm.pattern, |arm.pattern| + |arm.gap|;
    forall j | 0 <= j < end ensures !At(line, ARROW, j) {
      ArrowAt(line, j);
      ArrowAt(p, j);
      assert j >= |p| ==> line[j] == arm.gap[j - |p|];
      assert |p| <= j + 1 < end ==> line[j + 1] == arm.gap[j + 1 - |p|];
    }
    ArrowAt(line, end);
    FindIs(line, ARROW, end);
  }

  lemma {:induction false} ArmSlices(arm: Arm)
    ensures var line, arrow := ArmLine(arm), |arm.pattern| + |arm.gap|;
      && arrow + 2 <= |line| && line[..arrow] == "" + arm.pattern + arm.gap
      && line[arrow + 2..] == arm.space + ActionLine(arm.action)
  {
  }

  lemma {:induction false} ArmParts(arm: Arm)
    requires GoodArm(arm)
    ensures var line, arrow := ArmLine(arm), |arm.pattern| + |arm.gap|;
      && arrow + 2 <= |line| && Trim(line[..arrow], SPACE_AND_TAB) == arm.pattern
      && TrimLeft(line[arrow + 2..], SPACE_AND_TAB) == ActionLine(arm.action)
  {
    ArmSlices(arm);
    TrimAround("", arm.pattern, arm.gap, SPACE_AND_TAB);
    if arm.action.SayAction? {
      SayLineShape(arm.action.text);
    }
    TrimLeftBlanks(arm.space, ActionLine(arm.action), SPACE_AND_TAB);
  }

  lemma {:induction false} ActionEffect(arm: Arm)
    requires GoodArm(arm)
    ensures var line := ActionLine(arm.action);
      Effect(Some(arm)) == if Starts(line, "say ") then SayOf(line) else []
  {
    if arm.action.SayAction? {
      SayLineShape(arm.action.text);
      SayPrints(arm.action.text);
    } else {
      PrintsExact(arm.action.line);
    }
  }

  lemma {:induction false} ArmCase(m: Statics, line: string, arrow: nat, condition: string, action: string)
    requires !Skipped(line) && !Starts(line, "match ")
    requires Find(line, ARROW, 0) == arrow && arrow + 2 <= |line|
    requires Trim(line[..arrow], SPACE_AND_TAB) == condition && TrimLeft(line[arrow + 2..], SPACE_AND_TAB) == action
    ensures Handle(m, line)
         == if m.resolved || (condition != m.matchVal && condition != "_") then (m, [])
            else (m.(resolved := true), if Starts(action, "say ") then SayOf(action) else [])
  {
  }

  lemma {:induction false} ArmHandled(m: Statics, arm: Arm)
    requires GoodArm(arm)
    ensures Handle(m, ArmLine(arm))
         == if m.resolved || !Takes(m.matchVal, arm) then (m, []) else (m.(resolved := true), Effect(Some(arm)))
  {
    ArmNotSkipped(arm);
    ArmArrow(arm);
    ArmParts(arm);
    ActionEffect(arm);
    ArmCase(m, ArmLine(arm), |arm.pattern| + |arm.gap|, arm.pattern, ActionLine(arm.action));
  }

  // Sources.

  /** Lines already cleaned. */
  function LowerClean(m: Statics, lines: seq<string>): (Statics, seq<IRInstruction>)
    decreases |lines|
  {
    if |lines| == 0 then (m, [])
    else
      var first := Handle(m, lines[0]);
      var rest := LowerClean(first.0, lines[1..]);
      (rest.0, first.1 + rest.1)
  }

  lemma {:induction false} LowerConcat(m: Statics, a: seq<string>, b: seq<string>)
    ensures var first := LowerClean(m, a);
      var second := LowerClean(first.0, b);
      LowerClean(m, a + b) == (second.0, first.1 + second.1)
    decreases |a|
  {
    if |a| == 0 {
      assert a + b == b;
      assert [] + LowerClean(m, b).1 == LowerClean(m, b).1;
    } else {
      assert (a + b)[1..] == a[1..] + b;
      var h := Handle(m, a[0]);
      var first := LowerClean(h.0, a[1..]);
      LowerConcat(h.0, a[1..], b);
      var second := LowerClean(first.0, b);
      assert h.1 + (first.1 + second.1) == (h.1 + first.1) + second.1;
    }
  }

  lemma {:induction false} LowerOne(m: Statics, line: string)
    ensures LowerClean(m, [line]) == Handle(m, line)
  {
    assert Handle(m, line).1 + [] == Handle(m, line).1;
  }

  lemma {:induction false} LowerCleaned(m: Statics, lines: seq<string>)
    ensures Lower(m, lines) == LowerClean(m, Cleaned(lines))
    decreases |lines|
  {
    if |lines| > 0 {
      var front, last := lines[..|lines| - 1], Clean(lines[|lines| - 1]);
      LowerCleaned(m, front);
      if last == "" {
        assert Cleaned(lines) == Cleaned(front);
        assert Lower(m, front).1 + [] == Lower(m, front).1;
      } else {
        LowerConcat(m, Cleaned(front), [last]);
        LowerOne(LowerClean(m, Cleaned(front)).0, last);
      }
    }
  }

  /** The lines between the braces. */
  lemma {:induction false} BodyLowered(m: Statics, body: seq<Entry>)
    requires forall i :: 0 <= i < |body| ==> GoodEntry(body[i])
    ensures LowerClean(m, EntryLines(body)).0.matchVal == m.matchVal
    ensures LowerClean(m, EntryLines(body)).1 == if m.resolved then [] else Effect(Chosen(m.matchVal, body))
    decreases |body|
  {
    if |body| > 0 {
      if body[0].ArmEntry? {
        ArmHandled(m, body[0].arm);
      } else {
        IdleHandled(m, body[0].line);
      }
      assert EntryLines(body)[1..] == EntryLines(body[1..]);
      BodyLowered(Handle(m, EntryLine(body[0])).0, body[1..]);
    }
  }

  lemma {:induction false} MatchLowered(m: Statics, head: string, tail: string, body: seq<Entry>)
    requires GoodItem(Match(head, tail, body))
    ensures var value, lowered := Trim(head, SPACE_AND_TAB), LowerClean(m, Written(Match(head, tail, body)));
      lowered.0.matchVal == value && lowered.1 == Effect(Chosen(value, body))
  {
    var value := Trim(head, SPACE_AND_TAB);
    LowerConcat(m, [HeaderLine(head, tail)], EntryLines(body));
    LowerOne(m, HeaderLine(head, tail));
    HeaderHandled(m, head, tail);
    BodyLowered(Statics(value, false), body);
    assert [] + Effect(Chosen(value, body)) == Effect(Chosen(value, body));
  }

  /** What is left of an item if say lines with an arrow are dropped. */
  function Kept(item: Item): seq<IRInstruction> {
    if item.Say? && HasArrow(SayLine(item.text)) then [] else MeaningOf(item)
  }

  function KeptAll(items: seq<Item>): seq<IRInstruction> {
    if |items| == 0 then [] else KeptAll(items[..|items| - 1]) + Kept(items[|items| - 1])
  }

  predicate NoSayValues(items: seq<Item>) {
    forall i :: 0 <= i < |items| && items[i].Match? ==> NoSay(Trim(items[i].head, SPACE_AND_TAB))
  }

  lemma {:induction false} ItemLowered(m: Statics, item: Item)
    requires GoodItem(item) && (item.Say? && HasArrow(SayLine(item.text)) ==> NoSay(m.matchVal))
    ensures LowerClean(m, Written(item)).0.matchVal
         == if item.Match? then Trim(item.head, SPACE_AND_TAB) else m.matchVal
    ensures LowerClean(m, Written(item)).1 == Kept(item)
  {
    match item {
      case Say(text) =>
        LowerOne(m, SayLine(text));
        if HasArrow(SayLine(text)) {
          SayWithArrowDropped(m, text);
        } else {
          SayHandled(m, text);
        }
      case Halt(rest) =>
        LowerOne(m, "halt" + rest);
        HaltHandled(m, rest);
      case Match(head, tail, body) => MatchLowered(m, head, tail, body);
      case Idle(line) =>
        LowerOne(m, line);
        IdleHandled(m, line);
    }
  }

  lemma {:induction false} ItemsLowered(m: Statics, items: seq<Item>)
    requires Good(items) && (NoArrows(items) || (NoSay(m.matchVal) && NoSayValues(items)))
    ensures NoSay(m.matchVal) && NoSayValues(items) ==> NoSay(LowerClean(m, WrittenAll(items)).0.matchVal)
    ensures LowerClean(m, WrittenAll(items)).1 == KeptAll(items)
    decreases |items|
  {
    if |items| > 0 {
      var front, last := items[..|items| - 1], items[|items| - 1];
      ItemsLowered(m, front);
      LowerConcat(m, WrittenAll(front), Written(last));
      ItemLowered(LowerClean(m, WrittenAll(front)).0, last);
    }
  }

  lemma {:induction false} KeptOrNot(items: seq<Item>)
    ensures NoArrows(items) ==> KeptAll(items) == Meaning(items)
    ensures |KeptAll(items)| <= |Meaning(items)|
    ensures !NoArrows(items) ==> |KeptAll(items)| < |Meaning(items)|
    decreases |items|
  {
    if |items| > 0 {
      KeptOrNot(items[..|items| - 1]);
    }
  }

  /** First-match semantics: whatever the layout of the source and whatever the statics were left at. */
  lemma {:induction false} SourceMeaning(m: Statics, lines: seq<string>, items: seq<Item>)
    requires Good(items) && NoArrows(items) && Cleaned(lines) == WrittenAll(items)
    ensures Lower(m, lines).1 == Meaning(items)
  {
    LowerCleaned(m, lines);
    ItemsLowered(m, items);
    KeptOrNot(items);
  }

  /** The condition on say lines is needed: as long as nothing matched on looks like a say line, one arrow in the text
      of a say line is enough to lose it. */
  lemma {:induction false} SourceMeaningExact(m: Statics, lines: seq<string>, items: seq<Item>)
    requires Good(items) && Cleaned(lines) == WrittenAll(items)
    requires NoSay(m.matchVal) && NoSayValues(items)
    ensures Lower(m, lines).1 == Meaning(items) <==> NoArrows(items)
  {
    LowerCleaned(m, lines);
    ItemsLowered(m, items);
    KeptOrNot(items);
  }

  /** The entry function always has a HALT. */
  lemma {:induction false} AlwaysHalts(code: seq<IRInstruction>)
    ensures Halts(WithHalt(code)) && Outputs(WithHalt(code)) == Outputs(code)
    decreases |code|
  {
    HaltsConcat(code, [HALT_INSTRUCTION]);
    if !Halts(code) {
      assert WithHalt(code)[|code|].op == HALT;
      OutputsBeforeHalt(code);
    }
  }

  lemma {:induction false} OutputsBeforeHalt(code: seq<IRInstruction>)
    requires !Halts(code)
    ensures Outputs(code + [HALT_INSTRUCTION]) == Outputs(code)
    decreases |code|
  {
    if |code| > 0 {
      assert code[0].op != HALT;
      forall i | 0 <= i < |code| - 1 ensures code[1..][i].op != HALT {
        assert code[1..][i] == code[i + 1];
      }
      OutputsBeforeHalt(code[1..]);
      assert (code + [HALT_INSTRUCTION])[1..] == code[1..] + [HALT_INSTRUCTION];
    }
  }

  // Layout.

  /** A quote is open behind s. */
  predicate OpenAfter(s: string) {
    if |s| == 0 then false else OpenAfter(s[..|s| - 1]) != (s[|s| - 1] == '"')
  }

  /** A comment mark outside quotes. */
  predicate Bare(line: string, i: int) {
    0 <= i && i + 1 < |line| && line[i] == '/' && line[i + 1] == '/' && !OpenAfter(line[..i])
  }

  lemma {:induction false} CutsAt(line: string, i: nat, c: nat)
    requires i <= c <= |line| && (c == |line| || Bare(line, c)) && forall j :: i <= j < c ==> !Bare(line, j)
    ensures CutFrom(line, i, OpenAfter(line[..i])) == c
    decreases c - i
  {
    if i < c {
      assert line[..i + 1][..i] == line[..i];
      assert !Bare(line, i);
      CutsAt(line, i + 1, c);
    }
  }

  lemma {:induction false} OpenConcat(a: string, b: string)
    ensures OpenAfter(a + b) == (OpenAfter(a) != OpenAfter(b))
    decreases |b|
  {
    if |b| == 0 {
      assert a + b == a;
    } else {
      assert (a + b)[..|a + b| - 1] == a + b[..|b| - 1];
      OpenConcat(a, b[..|b| - 1]);
    }
  }

  lemma {:induction false} NoQuotes(s: string)
    requires '"' !in s
    ensures !OpenAfter(s)
  {
    if |s| > 0 {
      NoQuotes(s[..|s| - 1]);
    }
  }

  /** Indentation, blanks and a comment behind a line do not change it, if its quotes close before the comment. */
  lemma {:induction false} LayoutIgnored(before: string, line: string, after: string, comment: string)
    requires AllBlank(before, SPACE_AND_TAB) && AllBlank(after, SPACE_AND_TAB)
    requires comment == "" || Starts(comment, "//")
    requires Tight(line, SPACE_AND_TAB) && (forall i :: !Bare(line, i)) && !OpenAfter(line)
    requires |line| > 0 ==> line[|line| - 1] != '/'
    ensures Clean(before + line + after + comment) == line
  {
    var raw, c := before + line + after + comment, |before + line + after|;
    forall j | 0 <= j < c ensures !Bare(raw, j) {
      if |before| <= j < |before| + |line| - 1 {
        var k := j - |before|;
        assert raw[..j] == before + line[..k];
        OpenConcat(before, line[..k]);
        NoQuotes(before);
        assert !Bare(line, k);
      }
    }
    if |comment| > 0 {
      assert comment[0] == comment[..2][0] && comment[1] == comment[..2][1];
      assert raw[c] == comment[0] && raw[c + 1] == comment[1];
      assert raw[..c] == before + line + after;
      OpenConcat(before + line, after);
      OpenConcat(before, line);
      NoQuotes(before);
      NoQuotes(after);
    }
    assert raw[..0] == "";
    CutsAt(raw, 0, c);
    assert raw[..c] == before + line + after;
    TrimAround(before, line, after, SPACE_AND_TAB);
  }

  /** A say line without quotes in its text closes them, and may have comment marks in it. */
  lemma {:induction false} SayLineCloses(t: SayText)
    requires GoodText(t) && '"' !in t.literal && '/' !in t.before && '/' !in t.after
    ensures var line := SayLine(t);
      (forall i :: !Bare(line, i)) && !OpenAfter(line) && line[|line| - 1] != '/'
  {
    var line, front := SayLine(t), "say " + t.before;
    NoQuotes(front);
    NoQuotes(t.literal);
    NoQuotes(t.after);
    assert "\""[..0] == "";
    OpenConcat(front, "\"");
    OpenConcat(front + "\"", t.literal);
    OpenConcat(front + "\"" + t.literal, "\"");
    OpenConcat(front + "\"" + t.literal + "\"", t.after);
    forall i ensures !Bare(line, i) {
      var k := i - |front| - 1;
      assert 0 <= i < |front| ==> line[i] == front[i];
      assert i > |front| + 1 + |t.literal| && i < |line| ==> line[i] == t.after[k - |t.literal| - 1];
      if 0 <= k < |t.literal| {
        assert line[..i] == front + "\"" + t.literal[..k];
        NoQuotes(t.literal[..k]);
        OpenConcat(front + "\"", t.literal[..k]);
      }
    }
  }
}
